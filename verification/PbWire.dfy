/** The wire format itself: a key and a payload in one of four forms. Everything the encoder writes
    is made of such fields, and a reader that does not know a field passes exactly over it. */
module PbWire {
  import opened PbTypes
  import opened Prelude
  import opened PbVarint
  import opened PbVarint32
  import opened PbEncode
  import opened PbDecode
  import opened PbWellFormed
  import opened PbRoundTrip
  import opened PbMerge

  datatype Payload =
    | Groups(groups: seq<byte>)             // a varint: all bytes but the last have their top bit set
    | Eight(word: seq<byte>)
    | Chunk(data: seq<byte>)                // behind its length
    | Four(word: seq<byte>)

  predicate WfPayload(p: Payload)
  {
    match p
    case Groups(g) => g != [] && g[|g| - 1] < 128 && forall k :: 0 <= k < |g| - 1 ==> g[k] >= 128
    case Eight(w) => |w| == 8
    case Chunk(d) => |d| < TWO_32
    case Four(w) => |w| == 4
  }

  /** The wire types of the format. */
  function WireNumber(p: Payload): nat
  {
    match p
    case Groups(_) => 0
    case Eight(_) => 1
    case Chunk(_) => 2
    case Four(_) => 5
  }

  function PayloadBytes(p: Payload): seq<byte>
  {
    match p
    case Groups(g) => g
    case Eight(w) => w
    case Chunk(d) => EncVarint(|d|) + d
    case Four(w) => w
  }

  /** tag * 8 + wire type as a varint, and the payload. */
  function FieldBytes(tag: nat, p: Payload): seq<byte>
  {
    EncVarint(tag * 8 + WireNumber(p)) + PayloadBytes(p)
  }

  /** The form that the type of a field has on the wire. */
  predicate Fits(l: LType, p: Payload)
  {
    match l
    case Varint => p.Groups?
    case UVarint => p.Groups?
    case SVarint => p.Groups?
    case Fixed32 => p.Four?
    case Fixed64 => p.Eight?
    case _ => p.Chunk?
  }

  // ----- skipping

  lemma {:induction false} GroupsLen(g: seq<byte>, rest: seq<byte>)
    requires WfPayload(Groups(g))
    ensures VarintLen(g + rest) == Some(|g|)
  {
    assert (g + rest)[0] == g[0];
    if |g| > 1 {
      assert (g + rest)[1..] == g[1..] + rest;
      GroupsLen(g[1..], rest);
    }
  }

  /** A payload of each form is skipped to its last byte, whatever follows. */
  lemma {:induction false} SkipsPayload(p: Payload, rest: seq<byte>)
    requires WfPayload(p)
    ensures Skip(WireNumber(p), PayloadBytes(p) + rest) == Good((), rest)
  {
    hide VarintLen, SubString, EncVarint;
    assert (PayloadBytes(p) + rest)[|PayloadBytes(p)|..] == rest;
    if p.Groups? {
      GroupsLen(p.groups, rest);
    } else if p.Chunk? {
      SubStringOf(p.data, rest);
    }
  }

  lemma {:induction false} LenIsGroups(b: seq<byte>)
    requires VarintLen(b).Some?
    ensures WfPayload(Groups(b[..VarintLen(b).value]))
  {
    var n := VarintLen(b).value;
    if n > 1 {
      LenIsGroups(b[1..]);
      var g := b[1..][..n - 1];
      assert b[..n] == [b[0]] + g;
      assert b[..n][n - 1] == g[n - 2];
      forall k | 0 <= k < n - 1 ensures b[..n][k] >= 128 {
        if k > 0 {
          assert b[..n][k] == g[k - 1];
        }
      }
    }
  }

  /** What is skipped was a payload of that wire type. The length of a chunk may be any varint that
      the 32-bit decoder reads. */
  lemma {:induction false} SkippedIsPayload(wt: nat, b: seq<byte>) returns (p: Payload)
    requires Skip(wt, b).Good?
    ensures WireNumber(p) == wt && (p.Chunk? || WfPayload(p))
    ensures if p.Chunk? then Dec32(b).Good? && Dec32(b).v == |p.data| && Dec32(b).rest == p.data + Skip(wt, b).rest
            else b == PayloadBytes(p) + Skip(wt, b).rest
  {
    var rest := Skip(wt, b).rest;
    if wt == 0 {
      var n := VarintLen(b).value;
      LenIsGroups(b);
      p := Groups(b[..n]);
    } else if wt == 1 {
      p := Eight(b[..8]);
    } else if wt == 2 {
      hide Dec32;
      p := Chunk(SubString(b).v);
      var d := Dec32(b);
      assert d.rest == d.rest[..d.v] + d.rest[d.v..];
    } else {
      p := Four(b[..4]);
    }
  }

  // ----- what the encoder writes

  lemma {:induction false} VarintIsGroups(v: nat)
    ensures WfPayload(Groups(EncVarint(v)))
  {
    if v > 0x7F {
      VarintIsGroups(v / 128);
      var e, t := EncVarint(v), EncVarint(v / 128);
      assert e == [v % 128 + 128] + t;
      assert e[|e| - 1] == t[|t| - 1];
      forall k | 0 <= k < |e| - 1 ensures e[k] >= 128 {
        if k > 0 {
          assert e[k] == t[k - 1];
        }
      }
    }
  }

  /** A value goes out as a payload of the form of its type. */
  lemma {:induction false} ValueIsPayload(f: Field, v: Val) returns (p: Payload)
    requires WfLeaf(f) && EncVal(f, v).Some? && |EncVal(f, v).value| < TWO_32
    ensures WfPayload(p) && Fits(f.ltype, p) && EncVal(f, v).value == PayloadBytes(p)
  {
    var e := EncVal(f, v).value;
    match f.ltype
    case Submsg(fields) => p := Chunk(EncMsg(fields, v.slots).value);
    case Varint => VarintIsGroups(v.n % TWO_64); p := Groups(e);
    case UVarint => VarintIsGroups(v.n % TWO_64); p := Groups(e);
    case SVarint => VarintIsGroups(ZigZag(v.n)); p := Groups(e);
    case Fixed32 => p := Four(e);
    case Fixed64 => p := Eight(e);
    case Bytes => p := Chunk(v.buf[..v.size]);
    case Str => p := Chunk(CString(v.text));
    case FixedBytes => p := Chunk(v.raw);
  }

  /** A key and a value are one field of the format, under the tag of the descriptor. */
  lemma {:induction false} TaggedIsField(f: Field, v: Val) returns (p: Payload)
    requires WfLeaf(f) && EncTagged(f, v).Some? && |EncTagged(f, v).value| < TWO_32
    ensures WfPayload(p) && Fits(f.ltype, p) && EncTagged(f, v).value == FieldBytes(f.tag, p)
  {
    hide EncVal, EncVarint;
    p := ValueIsPayload(f, v);
    assert WireType(f.ltype) == WireNumber(p);
  }

  // ----- readers that do not know the tag

  predicate Knows(other: seq<Field>, tag: nat)
  {
    exists i :: 0 <= i < |other| && other[i].tag == tag
  }

  lemma {:induction false} FieldIsUnknown(other: seq<Field>, tag: nat, p: Payload)
    requires WfPayload(p) && 1 <= tag < TAG_LIMIT && !Knows(other, tag)
    ensures UnknownField(other, FieldBytes(tag, p))
  {
    hide EncVarint, Dec32, Skip;
    Dec32BelowTwo63(tag * 8 + WireNumber(p), PayloadBytes(p));
    SkipsPayload(p, []);
    assert PayloadBytes(p) + [] == PayloadBytes(p);
    assert DecTag(FieldBytes(tag, p)).Key?;
  }

  /** b is passed over without a trace in front of anything. */
  ghost predicate PassedOver(other: seq<Field>, b: seq<byte>)
  {
    forall ls, q :: LoopOk(other, ls) ==> Loop(other, ls, b + q) == Loop(other, ls, q)
  }

  lemma {:induction false} PassField(other: seq<Field>, tag: nat, p: Payload)
    requires WfPayload(p) && 1 <= tag < TAG_LIMIT && !Knows(other, tag)
    ensures PassedOver(other, FieldBytes(tag, p))
  {
    hide Loop, UnknownField;
    FieldIsUnknown(other, tag, p);
    KeyOfField(tag, p);
    forall ls, q | LoopOk(other, ls)
      ensures Loop(other, ls, FieldBytes(tag, p) + q) == Loop(other, ls, q)
    {
      UnknownSkipped(other, ls, FieldBytes(tag, p), q);
    }
  }

  /** Every key but 0 is a tag and a wire type, even with tag 0; the key 0 is the end of the message. */
  lemma {:induction false} KeyOfField(tag: nat, p: Payload)
    requires tag < TAG_LIMIT && (tag == 0 ==> !p.Groups?)
    ensures FieldBytes(tag, p) != [] && DecTag(FieldBytes(tag, p)) == Key(tag, WireNumber(p), PayloadBytes(p))
  {
    hide EncVarint, Dec32;
    Dec32BelowTwo63(tag * 8 + WireNumber(p), PayloadBytes(p));
  }

  lemma {:induction false} KeyZero(rest: seq<byte>)
    ensures DecTag([0] + rest) == TagEof(rest)
  {
    assert ([0] + rest)[1..] == rest;
  }

  lemma {:induction false} PassNothing(other: seq<Field>)
    ensures PassedOver(other, [])
  {
    hide Loop;
    forall ls, q: seq<byte> | LoopOk(other, ls) ensures Loop(other, ls, [] + q) == Loop(other, ls, q) {
      assert [] + q == q;
    }
  }

  lemma {:induction false} PassBoth(other: seq<Field>, a: seq<byte>, b: seq<byte>)
    requires PassedOver(other, a) && PassedOver(other, b)
    ensures PassedOver(other, a + b)
  {
    hide Loop;
    forall ls, q: seq<byte> | LoopOk(other, ls) ensures Loop(other, ls, a + b + q) == Loop(other, ls, q) {
      assert a + b + q == a + (b + q);
    }
  }

  lemma {:induction false} PassTagged(other: seq<Field>, f: Field, v: Val)
    requires WfField(f) && !Knows(other, f.tag) && EncTagged(f, v).Some? && |EncTagged(f, v).value| < TWO_32
    ensures PassedOver(other, EncTagged(f, v).value)
  {
    hide EncTagged, PassedOver;
    var p := TaggedIsField(f, v);
    PassField(other, f.tag, p);
  }

  lemma {:induction false} PassRepeated(other: seq<Field>, f: Field, items: seq<Val>, lo: nat, hi: nat)
    requires WfField(f) && !Knows(other, f.tag) && lo <= hi <= |items|
    requires EncRepeated(f, items, lo, hi).Some? && |EncRepeated(f, items, lo, hi).value| < TWO_32
    ensures PassedOver(other, EncRepeated(f, items, lo, hi).value)
    decreases hi - lo
  {
    hide EncVal, PassedOver, WfField;
    if lo == hi {
      PassNothing(other);
    } else {
      PassTagged(other, f, items[lo]);
      PassRepeated(other, f, items, lo + 1, hi);
      PassBoth(other, EncTagged(f, items[lo]).value, EncRepeated(f, items, lo + 1, hi).value);
    }
  }

  /** A packed array is one chunk. */
  lemma {:induction false} PassPacked(other: seq<Field>, f: Field, body: seq<byte>)
    requires WfField(f) && !Knows(other, f.tag) && |body| < TWO_32
    ensures PassedOver(other, EncTag(WT_STRING, f.tag) + Prefixed(body))
  {
    hide EncVarint, PassedOver;
    PassField(other, f.tag, Chunk(body));
    assert FieldBytes(f.tag, Chunk(body)) == EncTag(WT_STRING, f.tag) + Prefixed(body);
  }

  lemma {:induction false} PassEncoded(other: seq<Field>, f: Field, s: Slot)
    requires WfField(f) && !Knows(other, f.tag) && EncField(f, s).Some? && |EncField(f, s).value| < TWO_32
    ensures PassedOver(other, EncField(f, s).value)
  {
    hide EncTagged, EncRepeated, EncPacked, PassedOver, WfField, ProtoZeroVal;
    if EncField(f, s).value == [] {
      PassNothing(other);
    } else if f.htype.Repeated? {
      var count := if IsFixedCount(f) then f.arraySize else s.count;
      if Packable(f.ltype) {
        PassPacked(other, f, EncPacked(f, s.items, 0, count).value);
      } else {
        PassRepeated(other, f, s.items, 0, count);
      }
    } else {
      PassTagged(other, f, s.v);
    }
  }

  /** A reader none of whose tags are those of the fields from i on passes over all they write. */
  lemma {:induction false} PassFrom(other: seq<Field>, fields: seq<Field>, st: Msg, i: nat)
    requires WfFields(fields) && i <= |fields| && forall j :: i <= j < |fields| ==> !Knows(other, fields[j].tag)
    requires EncFrom(fields, st, i).Some? && |EncFrom(fields, st, i).value| < TWO_32
    ensures PassedOver(other, EncFrom(fields, st, i).value)
    decreases |fields| - i
  {
    hide EncField, PassedOver, WfField, Knows, SlotOf;
    if i == |fields| {
      PassNothing(other);
    } else {
      var s := st[SlotOf(fields, i)];
      PassEncoded(other, fields[i], s);
      PassFrom(other, fields, st, i + 1);
      PassBoth(other, EncField(fields[i], s).value, EncFrom(fields, st, i + 1).value);
    }
  }

  /** Whatever is written for fields that a reader does not know does not change what it reads. */
  lemma {:induction false} OthersIgnore(other: seq<Field>, st: Msg, fields: seq<Field>, s: Msg, before: seq<byte>,
                                        behind: seq<byte>)
    requires WfFields(fields) && forall j :: 0 <= j < |fields| ==> !Knows(other, fields[j].tag)
    requires EncMsg(fields, s).Some? && |EncMsg(fields, s).value| < TWO_32
    requires Loop(other, Start(st), before).LoopEnd? && !Loop(other, Start(st), before).zeroKey
    ensures DecMsg(other, st, before + EncMsg(fields, s).value + behind) == DecMsg(other, st, before + behind)
  {
    hide Loop, EncFrom, Knows;
    PassFrom(other, fields, s, 0);
    var e := EncMsg(fields, s).value;
    LoopExtends(other, Start(st), before, e + behind);
    LoopExtends(other, Start(st), before, behind);
    assert before + e + behind == before + (e + behind);
  }
}
