/** pb_decode of what pb_encode wrote. */
module PbRoundTrip {
  import opened Bits
  import opened PbTypes
  import opened PbMemory
  import opened Prelude
  import opened PbVarint
  import opened PbVarint32
  import opened PbEncode
  import opened PbDecode
  import opened PbWellFormed

  // ----- what a decoded encoding of a struct looks like

  /** The value v as it lands on `base`: bytes behind the end of a string keep what was there. */
  function LandVal(f: Field, base: Val, v: Val): Val
    decreases f, 0
  {
    match f.ltype
    case Submsg(fields) =>
      if !base.MsgVal? || !v.MsgVal? then v
      else MsgVal(LandFrom(fields, if f.htype.Repeated? then SetDefaults(fields, base.slots) else base.slots, v.slots, 0))
    case Bytes =>
      if v.BytesVal? && base.BytesVal? && v.size <= |v.buf| == |base.buf| then BytesVal(v.size, Overwrite(v.buf[..v.size], base.buf)) else v
    case Str =>
      if v.StrVal? && base.StrVal? && |CString(v.text)| < |base.text| then StrVal(Overwrite(CString(v.text) + [0], base.text)) else v
    case _ => v
  }

  /** Array elements below count land; the rest of the storage is untouched. */
  function LandItems(f: Field, base: seq<Val>, items: seq<Val>, count: nat): (r: seq<Val>)
    requires count <= |items|
    ensures |r| == |base|
    decreases f, 1
  {
    seq(|base|, k requires 0 <= k < |base| => if k < count then LandVal(f, base[k], items[k]) else base[k])
  }

  /** The slot after decoding the encoding of `s` over `base`. */
  function LandSlot(f: Field, base: Slot, s: Slot): Slot
    requires OkSlot(f, s) && ShapeSlot(f, base)
    decreases f, 2
  {
    match f.htype
    case Required => Plain(LandVal(f, base.v, s.v))
    case Optional =>
      if IsSingular(f) then (if ProtoZeroVal(f, s.v) then base else Plain(LandVal(f, base.v, s.v)))
      else if s.has then Opt(true, LandVal(f, base.v, s.v)) else base
    case Repeated =>
      if IsFixedCount(f) then FixedRep(LandItems(f, base.items, s.items, f.arraySize))
      else Rep(s.count, LandItems(f, base.items, s.items, s.count))
    case Oneof =>
      if s.which == f.tag then Union(f.tag, LandVal(f, UnionInit(f, base.which, base.v), s.v)) else base
  }

  /** The struct after decoding the encoding of the fields of `s` from i on over `base`. */
  function LandFrom(fields: seq<Field>, base: Msg, s: Msg, i: nat): (r: Msg)
    requires i <= |fields|
    ensures |r| == |base|
    decreases fields, 3, |fields| - i
  {
    if i == |fields| then base
    else
      var k := SlotOf(fields, i);
      if k < |base| && k < |s| && OkSlot(fields[i], s[k]) && ShapeSlot(fields[i], base[k]) then
        LandFrom(fields, base[k := LandSlot(fields[i], base[k], s[k])], s, i + 1)
      else base
  }

  // ----- one value

  lemma {:induction false} SubStringOf(data: seq<byte>, rest: seq<byte>)
    requires |data| < TWO_32
    ensures SubString(Prefixed(data) + rest) == Good(data, rest)
  {
    hide Dec32;
    var b := Prefixed(data) + rest;
    assert b == EncVarint(|data|) + (data + rest);
    Dec32BelowTwo63(|data|, data + rest);
    assert (data + rest)[..|data|] == data;
    assert (data + rest)[|data|..] == rest;
  }

  lemma {:induction false} CStringEnds(text: seq<byte>)
    requires 0 in text
    ensures |CString(text)| < |text|
  {
    if text[0] != 0 {
      CStringEnds(text[1..]);
    }
  }

  lemma {:induction false} IntSizes(size: nat)
    requires IsIntSize(size)
    ensures Pow2(8 * size) == if size == 1 then 0x100 else if size == 2 then 0x1_0000 else if size == 4 then TWO_32 else TWO_64
  {
    Pow2Is64();
  }

  /** Widening to uint64 and casting back is lossless on the values of the field's type. */
  lemma {:induction false} SignedRoundTrip(n: int, size: nat)
    requires IsIntSize(size) && IntFits(Varint, size, n)
    ensures ToSigned(n % TWO_64, if size == 8 then 64 else 32) == n
    ensures Narrow(n, size) == n
    ensures -TWO_63 <= n < TWO_63
  {
    hide Pow2;
    IntSizes(size);
    Pow2Is64();
    if size == 8 {
      SignedMod(n, TWO_64);
    } else {
      ModMod(n);
      SignedMod(n, TWO_32);
      if size == 1 {
        SignedMod(n, 0x100);
      } else if size == 2 {
        SignedMod(n, 0x1_0000);
      }
    }
  }

  lemma {:induction false} SignedMod(n: int, m: int)
    requires m > 0 && -m <= 2 * n < m
    ensures n % m == if n < 0 then n + m else n
  {
  }

  lemma {:induction false} ModMod(n: int)
    ensures n % TWO_64 % TWO_32 == n % TWO_32
  {
    var q, r := n / TWO_64, n % TWO_64;
    assert n == q * TWO_32 * TWO_32 + r;
  }

  lemma {:induction false} UnsignedRoundTrip(n: int, size: nat)
    requires IsIntSize(size) && IntFits(UVarint, size, n)
    ensures 0 <= n < TWO_64 && n % Pow2(8 * size) == n
  {
    IntSizes(size);
  }

  /** A scalar or a byte string is read back, whatever follows it. */
  lemma {:induction false} LeafRoundTrip(f: Field, base: Val, v: Val, rest: seq<byte>)
    requires WfLeaf(f) && !f.ltype.Submsg? && ShapeLeaf(f, base) && OkLeaf(f, v)
    ensures EncLeaf(f, v).Some?
    ensures DecLeaf(f, base, EncLeaf(f, v).value + rest) == Good(LandVal(f, base, v), rest)
  {
    hide EncVarint, DecVarint, SubString, Overwrite;
    match f.ltype
    case Varint => VarintLeaf(f, base, v, rest);
    case UVarint => UVarintLeaf(f, base, v, rest);
    case SVarint => SVarintLeaf(f, base, v, rest);
    case Fixed32 => FixedLeaf(f, base, v, rest);
    case Fixed64 => FixedLeaf(f, base, v, rest);
    case Bytes => SubStringOf(v.buf[..v.size], rest);
    case Str => StrLeaf(f, base, v, rest);
    case FixedBytes => RawLeaf(f, base, v, rest);
  }

  lemma {:induction false} UVarintLeaf(f: Field, base: Val, v: Val, rest: seq<byte>)
    requires f.ltype.UVarint? && WfLeaf(f) && OkLeaf(f, v)
    ensures DecLeaf(f, base, EncLeaf(f, v).value + rest) == Good(v, rest)
  {
    hide DecVarint, EncVarint;
    UnsignedRoundTrip(v.n, f.dataSize);
    VarintRoundTrip(v.n, rest);
  }

  lemma {:induction false} RawLeaf(f: Field, base: Val, v: Val, rest: seq<byte>)
    requires f.ltype.FixedBytes? && WfLeaf(f) && OkLeaf(f, v)
    ensures EncLeaf(f, v).Some?
    ensures DecLeaf(f, base, EncLeaf(f, v).value + rest) == Good(v, rest)
  {
    SubStringOf(v.raw, rest);
    if |v.raw| == 0 {
      assert v.raw == Zeros(0);
    }
  }

  lemma {:induction false} VarintLeaf(f: Field, base: Val, v: Val, rest: seq<byte>)
    requires f.ltype.Varint? && WfLeaf(f) && OkLeaf(f, v)
    ensures DecLeaf(f, base, EncLeaf(f, v).value + rest) == Good(v, rest)
  {
    hide DecVarint, EncVarint;
    SignedRoundTrip(v.n, f.dataSize);
    VarintRoundTrip(v.n % TWO_64, rest);
  }

  lemma {:induction false} SVarintLeaf(f: Field, base: Val, v: Val, rest: seq<byte>)
    requires f.ltype.SVarint? && WfLeaf(f) && OkLeaf(f, v)
    ensures EncLeaf(f, v).Some?
    ensures DecLeaf(f, base, EncLeaf(f, v).value + rest) == Good(v, rest)
  {
    hide DecVarint, EncVarint;
    SignedRoundTrip(v.n, f.dataSize);
    ZigZagRoundTrip(v.n);
    VarintRoundTrip(ZigZag(v.n), rest);
  }

  lemma {:induction false} FixedLeaf(f: Field, base: Val, v: Val, rest: seq<byte>)
    requires (f.ltype.Fixed32? || f.ltype.Fixed64?) && WfLeaf(f) && OkLeaf(f, v)
    ensures DecLeaf(f, base, EncLeaf(f, v).value + rest) == Good(v, rest)
  {
    IntSizes(f.dataSize);
    var e := EncLeaf(f, v).value;
    assert (e + rest)[..|e|] == e;
    assert (e + rest)[|e|..] == rest;
    if f.ltype.Fixed32? {
      Le32RoundTrip(v.n);
    } else {
      Le64RoundTrip(v.n);
    }
  }

  lemma {:induction false} StrLeaf(f: Field, base: Val, v: Val, rest: seq<byte>)
    requires f.ltype.Str? && WfLeaf(f) && ShapeLeaf(f, base) && OkLeaf(f, v)
    ensures DecLeaf(f, base, EncLeaf(f, v).value + rest) == Good(LandVal(f, base, v), rest)
  {
    CStringEnds(v.text);
    SubStringOf(CString(v.text), rest);
  }

  // ----- one step of the field loop on what the encoder wrote

  lemma {:induction false} FindInUnique(fields: seq<Field>, lo: nat, hi: nat, i: nat)
    requires lo <= hi <= |fields| && i < |fields| && DistinctTags(fields)
    ensures FindIn(fields, lo, hi, fields[i].tag) == if lo <= i < hi then Some(i) else None
  {
    var r := FindIn(fields, lo, hi, fields[i].tag);
    assert r.Some? ==> fields[r.value].tag == fields[i].tag;
  }

  /** With distinct tags the search finds the field from every position. */
  lemma {:induction false} FindUnique(fields: seq<Field>, pos: nat, i: nat)
    requires pos <= |fields| && i < |fields| && DistinctTags(fields)
    ensures FindFrom(fields, pos, fields[i].tag) == Some(i)
  {
    FindInUnique(fields, pos, |fields|, i);
    FindInUnique(fields, 0, pos, i);
  }

  /** A key written by the encoder leads to its field. */
  lemma {:induction false} KeyStep(fields: seq<Field>, ls: LoopState, i: nat, wt: nat, rest: seq<byte>)
    requires WfFields(fields) && LoopOk(fields, ls) && i < |fields| && wt < 8
    ensures Step(fields, ls, EncTag(wt, fields[i].tag) + rest) == StepField(fields, ls, i, wt, rest)
  {
    hide Dec32, EncVarint, FindFrom, StepField;
    Dec32BelowTwo63(fields[i].tag * 8 + wt, rest);
    FindUnique(fields, ls.pos, i);
  }

  lemma {:induction false} LoopKeyStep(fields: seq<Field>, ls: LoopState, i: nat, wt: nat, body: seq<byte>,
                                       rest: seq<byte>, ls1: LoopState)
    requires WfFields(fields) && LoopOk(fields, ls) && i < |fields| && wt < 8
    requires StepField(fields, ls, i, wt, body + rest) == StepOk(ls1, rest)
    ensures LoopOk(fields, ls1)
    ensures Loop(fields, ls, EncTag(wt, fields[i].tag) + body + rest) == Loop(fields, ls1, rest)
  {
    hide Step, EncVarint, StepField;
    KeyStep(fields, ls, i, wt, body + rest);
    assert EncTag(wt, fields[i].tag) + body + rest == EncTag(wt, fields[i].tag) + (body + rest);
  }

  // ----- arrays

  lemma {:induction false} LandOne(f: Field, base: seq<Val>, items: seq<Val>, k: nat)
    requires k < |items| && k < |base|
    ensures LandItems(f, base, items, k)[k] == base[k]
    ensures LandItems(f, base, items, k)[k := LandVal(f, base[k], items[k])] == LandItems(f, base, items, k + 1)
  {
  }

  lemma {:induction false} LandNone(f: Field, base: seq<Val>, items: seq<Val>)
    ensures LandItems(f, base, items, 0) == base
  {
  }

  lemma {:induction false} PackedRoundTrip(f: Field, base: seq<Val>, items: seq<Val>, k: nat, count: nat)
    requires WfLeaf(f) && Packable(f.ltype)
    requires k <= count <= f.arraySize && |base| == |items| == f.arraySize
    requires forall j :: 0 <= j < count ==> OkLeaf(f, items[j])
    requires forall j :: 0 <= j < |base| ==> ShapeLeaf(f, base[j])
    ensures EncPacked(f, items, k, count).Some?
    ensures DecPacked(f, Array(k, LandItems(f, base, items, k)), EncPacked(f, items, k, count).value) ==
            Some(Array(count, LandItems(f, base, items, count)))
    decreases count - k
  {
    hide EncLeaf, DecLeaf, LandItems, LandVal;
    if k < count {
      PackedRoundTrip(f, base, items, k + 1, count);
      var tail := EncPacked(f, items, k + 1, count).value;
      LeafRoundTrip(f, base[k], items[k], tail);
      LandOne(f, base, items, k);
    }
  }

  // ----- the induction over descriptor and descriptors inside it

  lemma {:induction false} ValRoundTrip(f: Field, base: Val, v: Val, rest: seq<byte>)
    requires WfField(f) && ShapeVal(f, base) && OkVal(f, v)
    requires !f.htype.Repeated? ==> FreshSub(f, base)
    requires EncVal(f, v).Some? && |EncVal(f, v).value| < TWO_32
    ensures DecVal(f, base, EncVal(f, v).value + rest) == Good(LandVal(f, base, v), rest)
    decreases f, 0
  {
    match f.ltype
    case Submsg(fields) =>
      var body := EncMsg(fields, v.slots).value;
      SubStringOf(body, rest);
      SetDefaultsShape(fields, base.slots);
      MsgRoundTrip(fields, if f.htype.Repeated? then SetDefaults(fields, base.slots) else base.slots, v.slots);
    case _ => LeafRoundTrip(f, base, v, rest);
  }

  /** pb_decode_noinit on a fresh struct reads the whole encoding and lands every field. */
  lemma {:induction false} MsgRoundTrip(fields: seq<Field>, base: Msg, s: Msg)
    requires WfFields(fields) && ShapeMsg(fields, base) && FreshMsg(fields, base) && OkMsg(fields, s)
    requires EncMsg(fields, s).Some? && |EncMsg(fields, s).value| < TWO_32
    ensures DecMsg(fields, base, EncMsg(fields, s).value) == Good(LandFrom(fields, base, s, 0), [])
    decreases fields, 9
  {
    hide Loop, LandFrom;
    var ls := LoopRoundTrip(fields, Start(base), s, 0);
    forall k | 0 <= k < Min(RequiredBefore(fields, |fields|), PB_MAX_REQUIRED_FIELDS) ensures k in ls.seen {
      var i := RequiredAt(fields, |fields|, k);
    }
  }

  /** The k-th required field. */
  lemma {:induction false} RequiredAt(fields: seq<Field>, n: nat, k: nat) returns (i: nat)
    requires n <= |fields| && k < RequiredBefore(fields, n)
    ensures i < n && fields[i].htype.Required? && RequiredBefore(fields, i) == k
  {
    i := n - 1;
    if !(fields[i].htype.Required? && RequiredBefore(fields, i) == k) {
      i := RequiredAt(fields, n - 1, k);
    }
  }

  predicate Tracked(fields: seq<Field>, ls: LoopState, i: nat)
    requires LoopOk(fields, ls)
  {
    FixedComplete(fields, ls) && (ls.fixed.Some? ==> ls.fixed.value < i)
  }

  predicate ReadyFrom(fields: seq<Field>, st: Msg, i: nat)
  {
    |st| == SlotCount(fields) &&
    forall j :: i <= j < |fields| ==>
      SlotOf(fields, j) < |st| && ShapeSlot(fields[j], st[SlotOf(fields, j)]) && LateFresh(fields[j], st[SlotOf(fields, j)])
  }

  /** Fresh, except that an earlier member may have been selected in a union. */
  predicate LateFresh(f: Field, s: Slot)
  {
    s.Union? || FreshSlot(f, s)
  }

  predicate SeenFrom(fields: seq<Field>, seen: set<nat>, i: nat)
  {
    forall j :: i <= j < |fields| && fields[j].htype.Required? && RequiredBefore(fields, j) < PB_MAX_REQUIRED_FIELDS ==>
      RequiredBefore(fields, j) in seen
  }

  /** Unfoldings of the encoder and of the landing at field i. */
  lemma {:induction false} EncStep(fields: seq<Field>, s: Msg, i: nat)
    requires i < |fields| && OkMsg(fields, s) && EncFrom(fields, s, i).Some?
    ensures var k := SlotOf(fields, i);
            EncField(fields[i], s[k]).Some? && EncFrom(fields, s, i + 1).Some? &&
            EncFrom(fields, s, i).value == EncField(fields[i], s[k]).value + EncFrom(fields, s, i + 1).value
  {
    hide OkSlot, EncField;
  }

  lemma {:induction false} LandStep(fields: seq<Field>, base: Msg, s: Msg, i: nat)
    requires i < |fields| && ReadyFrom(fields, base, i) && OkMsg(fields, s)
    ensures var k := SlotOf(fields, i);
            LandFrom(fields, base, s, i) == LandFrom(fields, base[k := LandSlot(fields[i], base[k], s[k])], s, i + 1)
  {
    hide OkSlot, ShapeSlot, FreshSlot, LandSlot;
  }

  /** The loop over the encodings of the fields from i on. */
  lemma {:induction false} LoopRoundTrip(fields: seq<Field>, ls: LoopState, s: Msg, i: nat) returns (ls': LoopState)
    requires WfFields(fields) && i <= |fields| && LoopOk(fields, ls) && Tracked(fields, ls, i)
    requires ReadyFrom(fields, ls.st, i) && OkMsg(fields, s)
    requires EncFrom(fields, s, i).Some? && |EncFrom(fields, s, i).value| < TWO_32
    ensures LoopOk(fields, ls') && FixedComplete(fields, ls')
    ensures Loop(fields, ls, EncFrom(fields, s, i).value) == LoopEnd(ls', [], false)
    ensures ls'.st == LandFrom(fields, ls.st, s, i)
    ensures ls.seen <= ls'.seen && SeenFrom(fields, ls'.seen, i)
    decreases fields, 8, |fields| - i
  {
    hide SlotOf, RequiredBefore, FixedComplete, IsFixedCount, SlotCount, DistinctTags, OkSlot, ShapeSlot, FreshSlot,
         LandSlot, EncField, WfField;
    if i == |fields| {
      hide Step;
      ls' := ls;
    } else {
      hide Loop, LandFrom, EncFrom;
      var k := SlotOf(fields, i);
      EncStep(fields, s, i);
      LandStep(fields, ls.st, s, i);
      var rest := EncFrom(fields, s, i + 1).value;
      var ls1 := FieldRoundTrip(fields, ls, s[k], i, rest);
      ReadyNext(fields, ls.st, s[k], i);
      ls' := LoopRoundTrip(fields, ls1, s, i + 1);
    }
  }

  /** Landing field i leaves the later fields ready. */
  lemma {:induction false} ReadyNext(fields: seq<Field>, st: Msg, src: Slot, i: nat)
    requires WfFields(fields) && i < |fields| && ReadyFrom(fields, st, i) && OkSlot(fields[i], src)
    ensures ReadyFrom(fields, st[SlotOf(fields, i) := LandSlot(fields[i], st[SlotOf(fields, i)], src)], i + 1)
  {
    hide OkSlot, LandVal, UnionInit, FreshVal, ShapeVal;
    var k := SlotOf(fields, i);
    var st' := st[k := LandSlot(fields[i], st[k], src)];
    forall j | i + 1 <= j < |fields|
      ensures SlotOf(fields, j) < |st'| && ShapeSlot(fields[j], st'[SlotOf(fields, j)]) && LateFresh(fields[j], st'[SlotOf(fields, j)])
    {
      SlotOfShared(fields, i, j);
      assert fields[i].tag != fields[j].tag;
    }
  }

  /** What decoding field i leaves of the loop variables. */
  predicate FieldDone(fields: seq<Field>, ls: LoopState, src: Slot, i: nat, ls1: LoopState)
    requires i < |fields| && ReadyFrom(fields, ls.st, i) && OkSlot(fields[i], src)
  {
    var k := SlotOf(fields, i);
    LoopOk(fields, ls1) && Tracked(fields, ls1, i + 1) &&
    ls1.st == ls.st[k := LandSlot(fields[i], ls.st[k], src)] &&
    ls.seen <= ls1.seen &&
    (fields[i].htype.Required? && RequiredBefore(fields, i) < PB_MAX_REQUIRED_FIELDS ==> RequiredBefore(fields, i) in ls1.seen)
  }

  /** The loop over the encoding of field i: no key, one key, or one per array element. */
  lemma {:induction false} FieldRoundTrip(fields: seq<Field>, ls: LoopState, src: Slot, i: nat, rest: seq<byte>)
    returns (ls1: LoopState)
    requires WfFields(fields) && i < |fields| && LoopOk(fields, ls) && Tracked(fields, ls, i)
    requires ReadyFrom(fields, ls.st, i) && OkSlot(fields[i], src)
    requires EncField(fields[i], src).Some? && |EncField(fields[i], src).value| < TWO_32
    ensures FieldDone(fields, ls, src, i, ls1)
    ensures Loop(fields, ls, EncField(fields[i], src).value + rest) == Loop(fields, ls1, rest)
    decreases fields, 7
  {
    var f, base := fields[i], ls.st[SlotOf(fields, i)];
    if f.htype.Repeated? {
      ls1 := ArrayRoundTrip(fields, ls, src, i, rest);
    } else if EncField(f, src).value == [] {
      EncTaggedNonEmpty(f, if src.Opt? || src.Plain? || src.Union? then src.v else IntVal(0));
      assert ls.st[SlotOf(fields, i) := base] == ls.st;
      assert [] + rest == rest;
      ls1 := ls;
    } else {
      ls1 := SingleRoundTrip(fields, ls, src, i, rest);
    }
  }

  lemma {:induction false} EncTaggedNonEmpty(f: Field, v: Val)
    ensures EncTagged(f, v).Some? ==> EncTagged(f, v).value != []
  {
  }

  /** A required, present optional or selected union field: one key and one value. */
  lemma {:induction false} SingleRoundTrip(fields: seq<Field>, ls: LoopState, src: Slot, i: nat, rest: seq<byte>)
    returns (ls1: LoopState)
    requires WfFields(fields) && i < |fields| && LoopOk(fields, ls) && Tracked(fields, ls, i)
    requires ReadyFrom(fields, ls.st, i) && OkSlot(fields[i], src) && !fields[i].htype.Repeated?
    requires EncField(fields[i], src).Some? && EncField(fields[i], src).value != [] && |EncField(fields[i], src).value| < TWO_32
    ensures FieldDone(fields, ls, src, i, ls1)
    ensures Loop(fields, ls, EncField(fields[i], src).value + rest) == Loop(fields, ls1, rest)
    decreases fields, 6
  {
    hide Loop, Step, DecVal, EncVal, LandVal, EncVarint, CountWordsKnown, FieldBytes, ProtoZeroVal;
    var f, k := fields[i], SlotOf(fields, i);
    var base := ls.st[k];
    var init := if f.htype.Oneof? then UnionInit(f, base.which, base.v) else base.v;
    InitReady(f, base);
    var body := EncVal(f, src.v).value;
    ValRoundTrip(f, init, src.v, rest);
    var ls0 := Found(fields, ls, i).value;
    ls1 := ls0.(st := ls.st[k := LandSlot(f, base, src)], fixedSize := ls0.fixedSize);
    LoopKeyStep(fields, ls, i, WireType(f.ltype), body, rest, ls1);
  }

  /** The value a single field is decoded onto has the right layout and is fresh. */
  lemma {:induction false} InitReady(f: Field, base: Slot)
    requires WfField(f) && ShapeSlot(f, base) && LateFresh(f, base) && !f.htype.Repeated?
    ensures var init := if f.htype.Oneof? then UnionInit(f, base.which, base.v) else base.v;
            ShapeVal(f, init) && FreshSub(f, init)
  {
    hide ShapeVal, ShapeMsg, FreshMsg, ZeroVal, DefaultVal, ShapeLeaf, WfFields;
    if f.htype.Oneof? {
      ZeroValShape(f);
      DefaultValShape(f, ZeroVal(f));
      assert FreshSub(f, UnionInit(f, base.which, base.v));
    } else {
      assert FreshVal(f, base.v);
    }
  }

  /** The slot of an array of which k elements have landed. */
  function ArraySlot(f: Field, items: seq<Val>, k: nat): Slot
  {
    if IsFixedCount(f) then FixedRep(items) else Rep(k, items)
  }

  /** The loop variables between two elements of an array. */
  predicate Between(fields: seq<Field>, ls0: LoopState, src: seq<Val>, i: nat, k: nat, ls: LoopState)
    requires i < |fields| && fields[i].htype.Repeated? && |ls0.st| == SlotCount(fields) && SlotOf(fields, i) < |ls0.st|
    requires ls0.st[SlotOf(fields, i)].Rep? || ls0.st[SlotOf(fields, i)].FixedRep?
    requires k <= |src|
  {
    var f, s := fields[i], SlotOf(fields, i);
    LoopOk(fields, ls) && ls.seen == ls0.seen &&
    ls.st == ls0.st[s := ArraySlot(f, LandItems(f, ls0.st[s].items, src, k), k)] &&
    if IsFixedCount(f) && k > 0 then ls.fixed == Some(i) && ls.fixedSize == k
    else Tracked(fields, ls, i)
  }

  lemma {:induction false} OneElement(f: Field, a: Array, wt: nat, b: seq<byte>, v: Val, rest: seq<byte>)
    requires !Packable(f.ltype) && a.count < f.arraySize && a.count < |a.items|
    requires DecVal(f, a.items[a.count], b) == Good(v, rest)
    ensures DecArray(f, a, wt, b) == Good(Array(a.count + 1, a.items[a.count := v]), rest)
  {
    hide DecVal;
  }

  /** A key of an array whose payload the array decoder accepts. */
  lemma {:induction false} ArrayFieldStep(fields: seq<Field>, ls: LoopState, i: nat, a: Array, wt: nat, b: seq<byte>,
                                          a': Array, rest: seq<byte>)
    returns (ls1: LoopState)
    requires i < |fields| && fields[i].htype.Repeated? && LoopOk(fields, ls) && SlotOf(fields, i) < |ls.st|
    requires ls.st[SlotOf(fields, i)] == ArraySlot(fields[i], a.items, a.count)
    requires if IsFixedCount(fields[i]) && a.count > 0 then ls.fixed == Some(i) && ls.fixedSize == a.count
             else Tracked(fields, ls, i)
    requires IsFixedCount(fields[i]) ==> a'.count > 0
    requires DecArray(fields[i], a, wt, b) == Good(a', rest)
    ensures StepField(fields, ls, i, wt, b) == StepOk(ls1, rest)
    ensures LoopOk(fields, ls1) && ls1.seen == ls.seen
    ensures ls1.st == ls.st[SlotOf(fields, i) := ArraySlot(fields[i], a'.items, a'.count)]
    ensures if IsFixedCount(fields[i]) then ls1.fixed == Some(i) && ls1.fixedSize == a'.count
            else ls1.fixed == ls.fixed && ls1.fixedSize == ls.fixedSize
  {
    hide DecArray;
    var f, s := fields[i], SlotOf(fields, i);
    var ls0 := Found(fields, ls, i).value;
    ls1 := ls0.(st := ls.st[s := ArraySlot(f, a'.items, a'.count)],
                fixedSize := if IsFixedCount(f) then a'.count else ls0.fixedSize);
  }

  lemma {:induction false} ArrayRoundTrip(fields: seq<Field>, ls: LoopState, src: Slot, i: nat, rest: seq<byte>)
    returns (ls1: LoopState)
    requires WfFields(fields) && i < |fields| && LoopOk(fields, ls) && Tracked(fields, ls, i)
    requires ReadyFrom(fields, ls.st, i) && OkSlot(fields[i], src) && fields[i].htype.Repeated?
    requires EncField(fields[i], src).Some? && |EncField(fields[i], src).value| < TWO_32
    ensures FieldDone(fields, ls, src, i, ls1)
    ensures Loop(fields, ls, EncField(fields[i], src).value + rest) == Loop(fields, ls1, rest)
    decreases fields, 6
  {
    hide Loop, EncPacked, EncRepeated, LandItems;
    var f, s := fields[i], SlotOf(fields, i);
    var base := ls.st[s].items;
    var count := if IsFixedCount(f) then f.arraySize else src.count;
    LandNone(f, base, src.items);
    assert ls.st == ls.st[s := ArraySlot(f, base, 0)];
    assert Between(fields, ls, src.items, i, 0, ls);
    if count == 0 {
      assert [] + rest == rest;
      ls1 := ls;
    } else if Packable(f.ltype) {
      ls1 := PackedStep(fields, ls, src.items, i, count, rest);
    } else {
      ls1 := RepeatedRoundTrip(fields, ls, ls, src.items, i, 0, count, rest);
    }
  }

  /** A packed array: one key, a length, and all the elements. */
  lemma {:induction false} PackedStep(fields: seq<Field>, ls: LoopState, src: seq<Val>, i: nat, count: nat,
                                      rest: seq<byte>)
    returns (ls1: LoopState)
    requires WfFields(fields) && i < |fields| && LoopOk(fields, ls) && Tracked(fields, ls, i)
    requires ReadyFrom(fields, ls.st, i) && fields[i].htype.Repeated? && Packable(fields[i].ltype)
    requires 0 < count <= |src| == fields[i].arraySize && (IsFixedCount(fields[i]) ==> count == fields[i].arraySize)
    requires forall j :: 0 <= j < count ==> OkVal(fields[i], src[j])
    requires EncPacked(fields[i], src, 0, count).Some? && |EncPacked(fields[i], src, 0, count).value| < TWO_32
    ensures Between(fields, ls, src, i, count, ls1)
    ensures Loop(fields, ls, EncTag(WT_STRING, fields[i].tag) + Prefixed(EncPacked(fields[i], src, 0, count).value) + rest) ==
            Loop(fields, ls1, rest)
  {
    hide Loop, Step, EncPacked, DecPacked, LandItems, EncVarint, SubString;
    var f, s := fields[i], SlotOf(fields, i);
    var base := ls.st[s].items;
    forall j | 0 <= j < count ensures OkLeaf(f, src[j]) {
      assert OkVal(f, src[j]);
    }
    forall j | 0 <= j < |base| ensures ShapeLeaf(f, base[j]) {
      assert ShapeVal(f, base[j]);
    }
    PackedRoundTrip(f, base, src, 0, count);
    LandNone(f, base, src);
    var body := EncPacked(f, src, 0, count).value;
    SubStringOf(body, rest);
    var a' := Array(count, LandItems(f, base, src, count));
    assert DecArray(f, Array(0, base), WT_STRING, Prefixed(body) + rest) == Good(a', rest);
    assert ls.st[s] == ArraySlot(f, base, 0);
    ls1 := ArrayFieldStep(fields, ls, i, Array(0, base), WT_STRING, Prefixed(body) + rest, a', rest);
    LoopKeyStep(fields, ls, i, WT_STRING, Prefixed(body), rest, ls1);
  }

  /** The elements of an array that cannot be packed: a key and a value each. */
  lemma {:induction false} RepeatedRoundTrip(fields: seq<Field>, ls0: LoopState, ls: LoopState, src: seq<Val>, i: nat,
                                             k: nat, count: nat, rest: seq<byte>)
    returns (ls1: LoopState)
    requires WfFields(fields) && i < |fields| && LoopOk(fields, ls0) && ReadyFrom(fields, ls0.st, i)
    requires fields[i].htype.Repeated? && !Packable(fields[i].ltype)
    requires k <= count <= |src| == fields[i].arraySize && (IsFixedCount(fields[i]) ==> count == fields[i].arraySize)
    requires forall j :: 0 <= j < count ==> OkVal(fields[i], src[j])
    requires Between(fields, ls0, src, i, k, ls)
    requires EncRepeated(fields[i], src, k, count).Some? && |EncRepeated(fields[i], src, k, count).value| < TWO_32
    ensures Between(fields, ls0, src, i, count, ls1)
    ensures Loop(fields, ls, EncRepeated(fields[i], src, k, count).value + rest) == Loop(fields, ls1, rest)
    decreases fields, 5, count - k
  {
    hide Loop, LandItems, EncVal, SlotOf, WfField, ShapeSlot, FreshSlot, EncVarint;
    var f := fields[i];
    if k == count {
      assert [] + rest == rest;
      ls1 := ls;
    } else {
      var tail := EncRepeated(f, src, k + 1, count).value;
      var ls2 := ElementRoundTrip(fields, ls0, ls, src, i, k, count, tail + rest);
      ls1 := RepeatedRoundTrip(fields, ls0, ls2, src, i, k + 1, count, rest);
      var body := EncVal(f, src[k]).value;
      assert EncTagFor(f) + body + tail + rest == EncTagFor(f) + body + (tail + rest);
    }
  }

  lemma {:induction false} ElementRoundTrip(fields: seq<Field>, ls0: LoopState, ls: LoopState, src: seq<Val>, i: nat,
                                            k: nat, count: nat, rest: seq<byte>)
    returns (ls1: LoopState)
    requires WfFields(fields) && i < |fields| && LoopOk(fields, ls0) && ReadyFrom(fields, ls0.st, i)
    requires fields[i].htype.Repeated? && !Packable(fields[i].ltype)
    requires k < count <= |src| == fields[i].arraySize
    requires OkVal(fields[i], src[k])
    requires Between(fields, ls0, src, i, k, ls)
    requires EncVal(fields[i], src[k]).Some? && |EncVal(fields[i], src[k]).value| < TWO_32
    ensures Between(fields, ls0, src, i, k + 1, ls1)
    ensures Loop(fields, ls, EncTagFor(fields[i]) + EncVal(fields[i], src[k]).value + rest) == Loop(fields, ls1, rest)
    decreases fields, 4
  {
    hide Loop, Step, StepField, LandItems, LandVal, EncVal, DecVal, DecArray, EncVarint, OkVal, ShapeVal, FreshVal,
         WfField, Packable;
    var f, s := fields[i], SlotOf(fields, i);
    var base := ls0.st[s].items;
    var cur := LandItems(f, base, src, k);
    LandOne(f, base, src, k);
    ValRoundTrip(f, base[k], src[k], rest);
    var body := EncVal(f, src[k]).value;
    var a' := Array(k + 1, LandItems(f, base, src, k + 1));
    OneElement(f, Array(k, cur), WireType(f.ltype), body + rest, LandVal(f, base[k], src[k]), rest);
    ls1 := ArrayFieldStep(fields, ls, i, Array(k, cur), WireType(f.ltype), body + rest, a', rest);
    assert ls1.st == ls0.st[s := ArraySlot(f, a'.items, k + 1)];
    LoopKeyStep(fields, ls, i, WireType(f.ltype), body, rest, ls1);
  }

  // ----- main results

  /** pb_decode reads everything pb_encode wrote, and every field lands in the destination. */
  lemma {:induction false} RoundTrip(fields: seq<Field>, dest: Msg, s: Msg)
    requires WfFields(fields) && ShapeMsg(fields, dest) && OkMsg(fields, s)
    requires EncMsg(fields, s).Some? && |EncMsg(fields, s).value| < TWO_32
    ensures Decode(fields, dest, EncMsg(fields, s).value) == Good(LandFrom(fields, SetDefaults(fields, dest), s, 0), [])
  {
    SetDefaultsShape(fields, dest);
    MsgRoundTrip(fields, SetDefaults(fields, dest), s);
  }
}
