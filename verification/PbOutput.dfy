/** Output streams, and pb_encode on them.

    A stream without a callback counts bytes; a buffer stream writes into memory it shares with
    the substreams made from it. Every method is proved against the functions of PbEncode: it
    fails exactly when the value cannot be encoded or does not fit, and otherwise appends exactly
    the encoding, or counts exactly its length. Sizes are those of a size_t that does not wrap. */
module PbOutput {
  import opened Bits
  import opened PbTypes
  import opened Prelude
  import opened PbVarint
  import opened PbEncode
  import opened PbWellFormed
  import opened PbIterator

  class OStream {
    const sizing: bool            // callback == NULL
    const mem: array<byte>
    const maxSize: nat
    var state: nat                // where in mem the next byte goes
    var bytesWritten: nat

    ghost predicate Valid()
      reads this
    {
      !sizing ==> bytesWritten <= maxSize && state + (maxSize - bytesWritten) <= mem.Length
    }

    /** What has been written into the memory so far. */
    ghost function Out(): seq<byte>
      requires Valid()
      reads this, mem
    {
      if sizing then [] else mem[..state]
    }

    ghost predicate Fits(n: nat)
      reads this
    {
      sizing || bytesWritten + n <= maxSize
    }

    /** PB_OSTREAM_SIZING */
    constructor Sizing()
      ensures Valid() && sizing && bytesWritten == 0
      ensures fresh(mem)
    {
      sizing, mem, maxSize, state, bytesWritten := true, new byte[0], 0, 0, 0;
    }

    /** pb_ostream_from_buffer, and the substream of pb_encode_submessage. */
    constructor Buffer(mem: array<byte>, state: nat, size: nat)
      requires state + size <= mem.Length
      ensures Valid() && !sizing && this.mem == mem && this.state == state
      ensures bytesWritten == 0 && maxSize == size
    {
      sizing, this.mem, maxSize, this.state, bytesWritten := false, mem, size, state, 0;
    }

    /** The stream has taken exactly these bytes. */
    twostate predicate Took(data: seq<byte>)
      requires old(Valid()) && Valid()
      reads this, mem
    {
      bytesWritten == old(bytesWritten) + |data| && Out() == if sizing then [] else old(Out()) + data
    }

    /** pb_write: all or nothing. */
    method Write(data: seq<byte>) returns (ok: bool)
      requires Valid()
      modifies this, mem
      ensures Valid() && (ok <==> old(Fits(|data|)))
      ensures if ok then Took(data) else Took([])
    {
      if !sizing {
        if bytesWritten + |data| > maxSize {
          return false;
        }
        BufWrite(data);
      }
      bytesWritten := bytesWritten + |data|;
      return true;
    }

    /** pb_write of a null buffer, which only a sizing stream is given. */
    method Count(n: nat)
      requires Valid() && sizing
      modifies this`bytesWritten
      ensures Valid() && bytesWritten == old(bytesWritten) + n
    {
      bytesWritten := bytesWritten + n;
    }

    /** buf_write */
    method BufWrite(data: seq<byte>)
      requires state + |data| <= mem.Length
      modifies this`state, mem
      ensures state == old(state) + |data| && mem[..state] == old(mem[..state]) + data
    {
      var dest := state;
      state := dest + |data|;
      for i := 0 to |data|
        invariant state == dest + |data|
        invariant mem[..dest] == old(mem[..state])
        invariant mem[dest..dest + i] == data[..i]
      {
        mem[dest + i] := data[i];
      }
      assert mem[..state] == mem[..dest] + mem[dest..state];
    }
  }

  // ----- sizes stay within a size_t

  predicate Small(e: Option<seq<byte>>)
  {
    e.Some? ==> |e.value| < TWO_64
  }

  /** No size computed while encoding the value wraps, at any depth. */
  predicate NoWrapVal(f: Field, v: Val)
    decreases f, 0
  {
    Small(EncVal(f, v)) && (f.ltype.Submsg? && v.MsgVal? ==> NoWrap(f.ltype.fields, v.slots))
  }

  predicate NoWrapSlot(f: Field, s: Slot)
    decreases f, 1
  {
    match s
    case Plain(v) => NoWrapVal(f, v)
    case Opt(has, v) => has ==> NoWrapVal(f, v)
    case Rep(count, items) =>
      (forall k :: 0 <= k < |items| ==> NoWrapVal(f, items[k])) && (count <= |items| ==> Small(EncPacked(f, items, 0, count)))
    case FixedRep(items) =>
      (forall k :: 0 <= k < |items| ==> NoWrapVal(f, items[k])) && Small(EncPacked(f, items, 0, |items|))
    case Union(which, v) => which == f.tag ==> NoWrapVal(f, v)
  }

  predicate NoWrap(fields: seq<Field>, st: Msg)
    decreases fields, 0
  {
    Small(EncMsg(fields, st)) &&
    forall i :: 0 <= i < |fields| && SlotOf(fields, i) < |st| ==> NoWrapSlot(fields[i], st[SlotOf(fields, i)])
  }

  // ----- helper functions of pb_encode.c

  lemma {:induction false} EncVarintSplit(v: nat, done: seq<byte>, w: nat)
    requires v > 0x7F && w > 0x7F && EncVarint(v) == done + EncVarint(w)
    ensures EncVarint(v) == done + [w % 128 + 128] + EncVarint(w / 128)
  {
    assert done + ([w % 128 + 128] + EncVarint(w / 128)) == done + [w % 128 + 128] + EncVarint(w / 128);
  }

  /** pb_encode_varint */
  method EncodeVarint(s: OStream, v: nat) returns (ok: bool)
    requires s.Valid() && v < TWO_64
    modifies s, s.mem
    ensures s.Valid() && (ok <==> old(s.Fits(|EncVarint(v)|)))
    ensures ok ==> s.Took(EncVarint(v))
  {
    if v <= 0x7F {
      ok := s.Write([v]);
      return;
    }
    VarintRoundTrip(v, []);
    var buffer := new byte[10](_ => 0);
    var value, i := v, 0;
    while value != 0
      invariant i <= |EncVarint(v)| && i <= 10
      invariant value != 0 ==> EncVarint(v) == buffer[..i] + EncVarint(value)
      invariant value == 0 ==> i > 0 && buffer[i - 1] >= 128 && EncVarint(v) == buffer[..i - 1] + [buffer[i - 1] - 128]
      modifies buffer
    {
      ghost var before := buffer[..i];
      buffer[i] := value % 128 + 128;
      assert buffer[..i] == before && buffer[..i + 1] == before + [buffer[i]];
      if value > 0x7F {
        EncVarintSplit(v, before, value);
      }
      value := value / 128;
      i := i + 1;
    }
    buffer[i - 1] := buffer[i - 1] - 128;
    assert buffer[..i] == EncVarint(v);
    ok := s.Write(buffer[..i]);
  }

  /** pb_encode_tag */
  method EncodeTag(s: OStream, wt: nat, tag: nat) returns (ok: bool)
    requires s.Valid() && wt < 8 && tag < TAG_LIMIT
    modifies s, s.mem
    ensures s.Valid() && (ok <==> old(s.Fits(|EncTag(wt, tag)|)))
    ensures ok ==> s.Took(EncTag(wt, tag))
  {
    ok := EncodeVarint(s, tag * 8 + wt);
  }

  /** pb_encode_string */
  method EncodeString(s: OStream, data: seq<byte>) returns (ok: bool)
    requires s.Valid() && |data| < TWO_64
    modifies s, s.mem
    ensures s.Valid() && (ok <==> old(s.Fits(|Prefixed(data)|)))
    ensures ok ==> s.Took(Prefixed(data))
  {
    hide EncVarint;
    ok := EncodeVarint(s, |data|);
    if !ok {
      return;
    }
    ok := s.Write(data);
  }

  /** The strnlen loop of pb_enc_string. */
  method StrLen(text: seq<byte>) returns (size: nat)
    ensures size == |CString(text)|
  {
    size := 0;
    while size < |text| && text[size] != 0
      invariant size <= |text|
      invariant |CString(text)| == size + |CString(text[size..])|
    {
      size := size + 1;
    }
  }

  // ----- field encoders

  /** The PB_ENCODERS entries other than pb_enc_submessage. */
  method EncodeLeaf(s: OStream, f: Field, v: Val) returns (ok: bool)
    requires s.Valid() && WfLeaf(f) && ShapeLeaf(f, v)
    modifies s, s.mem
    ensures s.Valid() && (ok <==> EncLeaf(f, v).Some? && old(s.Fits(|EncLeaf(f, v).value|)))
    ensures ok ==> s.Took(EncLeaf(f, v).value)
  {
    hide EncVarint, Pow2, CString;
    match f.ltype
    case Varint =>
      ok := EncodeVarint(s, v.n % TWO_64);
    case UVarint =>
      ok := EncodeVarint(s, v.n % TWO_64);
    case SVarint =>
      SignedRange(v.n, f.dataSize);
      ok := EncodeVarint(s, ZigZag(v.n));
    case Fixed32 =>
      ok := s.Write(Le32(v.n));
    case Fixed64 =>
      ok := s.Write(Le64(v.n));
    case Bytes =>
      if v.size + PB_SIZE_BYTES > f.dataSize {
        return false;
      }
      ok := EncodeString(s, v.buf[..v.size]);
    case Str =>
      var size := StrLen(v.text);
      assert v.text[..size] == CString(v.text);
      ok := EncodeString(s, v.text[..size]);
    case FixedBytes =>
      ok := EncodeString(s, v.raw);
  }

  lemma {:induction false} SignedRange(n: int, size: nat)
    requires IsIntSize(size) && IntFits(SVarint, size, n)
    ensures -TWO_63 <= n < TWO_63
  {
    Pow2Is64();
  }

  /** The encoder selected for one value. */
  method EncodeValue(s: OStream, f: Field, v: Val) returns (ok: bool)
    requires s.Valid() && WfField(f) && ShapeVal(f, v) && NoWrapVal(f, v)
    modifies s, s.mem
    ensures s.Valid() && (ok <==> EncVal(f, v).Some? && old(s.Fits(|EncVal(f, v).value|)))
    ensures ok ==> s.Took(EncVal(f, v).value)
    decreases f, 1, 0
  {
    hide EncLeaf, EncFrom;
    match f.ltype
    case Submsg(fields) => ok := EncodeSubmessage(s, fields, v.slots);
    case _ => ok := EncodeLeaf(s, f, v);
  }

  /** pb_encode_submessage: a sizing pass, the length, and a writing pass on a substream that has
      exactly that much room. The two passes always agree. */
  method EncodeSubmessage(s: OStream, fields: seq<Field>, st: Msg) returns (ok: bool)
    requires s.Valid() && WfFields(fields) && ShapeMsg(fields, st) && NoWrap(fields, st)
    modifies s, s.mem
    ensures s.Valid()
    ensures ok <==> EncMsg(fields, st).Some? && old(s.Fits(|Prefixed(EncMsg(fields, st).value)|))
    ensures ok ==> s.Took(Prefixed(EncMsg(fields, st).value))
    decreases fields, 1
  {
    hide EncVarint, EncFrom, EncMsg;
    var sub := new OStream.Sizing();
    ok := Encode(sub, fields, st);
    if !ok {
      return;
    }
    var size := sub.bytesWritten;
    ok := EncodeVarint(s, size);
    if !ok {
      return;
    }
    if s.sizing {
      s.Count(size);
      return true;
    }
    if s.bytesWritten + size > s.maxSize {
      return false;
    }
    ok := EncodeWithin(s, fields, st, size);
  }

  /** The writing pass of pb_encode_submessage. */
  method EncodeWithin(s: OStream, fields: seq<Field>, st: Msg, size: nat) returns (ok: bool)
    requires s.Valid() && WfFields(fields) && ShapeMsg(fields, st) && NoWrap(fields, st) && !s.sizing
    requires EncMsg(fields, st).Some? && |EncMsg(fields, st).value| == size && s.Fits(size)
    modifies s, s.mem
    ensures s.Valid() && ok && s.Took(EncMsg(fields, st).value)
    decreases fields, 0, 2
  {
    hide EncFrom, EncMsg;
    var sub := new OStream.Buffer(s.mem, s.state, size);
    var status := Encode(sub, fields, st);
    s.bytesWritten := s.bytesWritten + sub.bytesWritten;
    assert |sub.Out()| == sub.state;
    s.state := sub.state;
    if sub.bytesWritten != size {
      return false;  // submsg size changed
    }
    return status;
  }

  /** encode_array on an array that is packed: elements lo.. of a packed array. */
  method EncodeElements(s: OStream, f: Field, items: seq<Val>, count: nat) returns (ok: bool)
    requires s.Valid() && WfField(f) && Packable(f.ltype) && count <= |items|
    requires forall k :: 0 <= k < count ==> ShapeLeaf(f, items[k])
    modifies s, s.mem
    ensures s.Valid() && (ok <==> EncPacked(f, items, 0, count).Some? && old(s.Fits(|EncPacked(f, items, 0, count).value|)))
    ensures ok ==> s.Took(EncPacked(f, items, 0, count).value)
  {
    hide EncLeaf, EncPacked, ShapeLeaf, WfLeaf;
    ghost var done: seq<byte> := [];
    ghost var total := EncPacked(f, items, 0, count);
    assert total.Some? ==> done + total.value == total.value;
    for i := 0 to count
      invariant s.Valid() && s.Took(done)
      invariant total == Cat(Some(done), EncPacked(f, items, i, count))
    {
      PackedSplit(f, items, i, count, done);
      ok := EncodeLeaf(s, f, items[i]);
      if !ok {
        return;
      }
      ghost var e := EncLeaf(f, items[i]).value;
      Reassociate(old(s.Out()), done, e);
      done := done + e;
    }
    PackedEnd(f, items, count, done);
    return true;
  }

  lemma {:induction false} PackedSplit(f: Field, items: seq<Val>, i: nat, count: nat, done: seq<byte>)
    requires i < count <= |items|
    ensures var e := EncLeaf(f, items[i]);
            Cat(Some(done), EncPacked(f, items, i, count)) ==
            if e.Some? then Cat(Some(done + e.value), EncPacked(f, items, i + 1, count)) else None
  {
    hide EncLeaf;
    var e, rest := EncLeaf(f, items[i]), EncPacked(f, items, i + 1, count);
    if e.Some? && rest.Some? {
      assert done + (e.value + rest.value) == done + e.value + rest.value;
    }
  }

  lemma {:induction false} PackedEnd(f: Field, items: seq<Val>, count: nat, done: seq<byte>)
    requires count <= |items|
    ensures Cat(Some(done), EncPacked(f, items, count, count)) == Some(done)
  {
    assert done + [] == done;
  }

  /** encode_array */
  method EncodeArray(s: OStream, f: Field, items: seq<Val>, count: nat) returns (ok: bool)
    requires s.Valid() && WfField(f) && |items| == f.arraySize
    requires forall k :: 0 <= k < |items| ==> ShapeVal(f, items[k]) && NoWrapVal(f, items[k])
    requires count <= |items| ==> Small(EncPacked(f, items, 0, count))
    modifies s, s.mem
    ensures s.Valid() && (ok <==> EncArray(f, items, count).Some? && old(s.Fits(|EncArray(f, items, count).value|)))
    ensures ok ==> s.Took(EncArray(f, items, count).value)
    decreases f, 2
  {
    hide EncPacked, EncRepeated;
    if count == 0 {
      return true;
    }
    if count > f.arraySize {
      return false;
    }
    if Packable(f.ltype) {
      ok := EncodePackedArray(s, f, items, count);
    } else {
      ok := EncodeRepeated(s, f, items, count);
    }
  }

  lemma {:induction false} FixedSizes(f: Field, items: seq<Val>, lo: nat, hi: nat)
    requires (f.ltype.Fixed32? || f.ltype.Fixed64?) && lo <= hi <= |items|
    requires forall k :: lo <= k < hi ==> items[k].IntVal?
    ensures EncPacked(f, items, lo, hi).Some?
    ensures |EncPacked(f, items, lo, hi).value| == (if f.ltype.Fixed32? then 4 else 8) * (hi - lo)
    decreases hi - lo
  {
    if lo < hi {
      FixedSizes(f, items, lo + 1, hi);
    }
  }

  /** The total size of a packed array. */
  method PackedSize(f: Field, items: seq<Val>, count: nat) returns (ok: bool, size: nat)
    requires WfField(f) && Packable(f.ltype) && count <= |items|
    requires forall k :: 0 <= k < count ==> ShapeLeaf(f, items[k])
    ensures ok <==> EncPacked(f, items, 0, count).Some?
    ensures ok ==> size == |EncPacked(f, items, 0, count).value|
  {
    hide EncPacked, EncVarint, IntFits;
    if f.ltype.Fixed32? {
      FixedSizes(f, items, 0, count);
      return true, 4 * count;
    } else if f.ltype.Fixed64? {
      FixedSizes(f, items, 0, count);
      return true, 8 * count;
    } else {
      var sizes := new OStream.Sizing();
      ok := EncodeElements(sizes, f, items, count);
      size := sizes.bytesWritten;
    }
  }

  /** The length of a packed array and its elements; a sizing stream only counts the latter. */
  method EncodePackedBody(s: OStream, f: Field, items: seq<Val>, count: nat) returns (ok: bool)
    requires s.Valid() && WfField(f) && Packable(f.ltype) && count <= |items|
    requires forall k :: 0 <= k < count ==> ShapeLeaf(f, items[k])
    requires Small(EncPacked(f, items, 0, count))
    modifies s, s.mem
    ensures s.Valid()
    ensures ok <==> EncPacked(f, items, 0, count).Some? && old(s.Fits(|Prefixed(EncPacked(f, items, 0, count).value)|))
    ensures ok ==> s.Took(Prefixed(EncPacked(f, items, 0, count).value))
  {
    hide EncPacked, EncVarint, ShapeLeaf, WfField;
    ghost var body := EncPacked(f, items, 0, count);
    var sized, size := PackedSize(f, items, count);
    if !sized {
      return false;
    }
    ok := EncodeVarint(s, size);
    if !ok {
      return;
    }
    if s.sizing {
      s.Count(size);
      return true;
    }
    ok := EncodeElements(s, f, items, count);
  }

  method EncodePackedArray(s: OStream, f: Field, items: seq<Val>, count: nat) returns (ok: bool)
    requires s.Valid() && WfField(f) && Packable(f.ltype) && 0 < count <= |items| == f.arraySize
    requires forall k :: 0 <= k < |items| ==> ShapeVal(f, items[k]) && NoWrapVal(f, items[k])
    requires count <= |items| ==> Small(EncPacked(f, items, 0, count))
    modifies s, s.mem
    ensures s.Valid() && (ok <==> EncArray(f, items, count).Some? && old(s.Fits(|EncArray(f, items, count).value|)))
    ensures ok ==> s.Took(EncArray(f, items, count).value)
  {
    hide EncPacked, EncVarint, Prefixed;
    forall k | 0 <= k < |items| ensures ShapeLeaf(f, items[k]) {
      assert ShapeVal(f, items[k]);
    }
    ok := EncodeTag(s, WT_STRING, f.tag);
    if !ok {
      return;
    }
    ok := EncodePackedBody(s, f, items, count);
  }

  /** A key and a value. */
  method EncodeTaggedValue(s: OStream, f: Field, v: Val) returns (ok: bool)
    requires s.Valid() && WfField(f) && ShapeVal(f, v) && NoWrapVal(f, v)
    modifies s, s.mem
    ensures s.Valid() && (ok <==> EncTagged(f, v).Some? && old(s.Fits(|EncTagged(f, v).value|)))
    ensures ok ==> s.Took(EncTagged(f, v).value)
    decreases f, 1, 1
  {
    hide EncVal, EncVarint, ShapeVal, NoWrapVal;
    ok := EncodeTag(s, WireType(f.ltype), f.tag);
    if !ok {
      return;
    }
    ok := EncodeValue(s, f, v);
  }

  method EncodeRepeated(s: OStream, f: Field, items: seq<Val>, count: nat) returns (ok: bool)
    requires s.Valid() && WfField(f) && !Packable(f.ltype) && 0 < count <= |items| == f.arraySize
    requires forall k :: 0 <= k < |items| ==> ShapeVal(f, items[k]) && NoWrapVal(f, items[k])
    modifies s, s.mem
    ensures s.Valid() && (ok <==> EncRepeated(f, items, 0, count).Some? && old(s.Fits(|EncRepeated(f, items, 0, count).value|)))
    ensures ok ==> s.Took(EncRepeated(f, items, 0, count).value)
    decreases f, 1, 2
  {
    hide EncTagged, ShapeVal, NoWrapVal, EncRepeated, WfField, Packable;
    ghost var done: seq<byte> := [];
    ghost var total := EncRepeated(f, items, 0, count);
    assert total == Cat(Some(done), total) by {
      assert total.Some? ==> done + total.value == total.value;
    }
    for i := 0 to count
      invariant s.Valid() && s.Took(done)
      invariant total == Cat(Some(done), EncRepeated(f, items, i, count))
    {
      RepeatedSplit(f, items, i, count, done);
      ok := EncodeTaggedValue(s, f, items[i]);
      if !ok {
        return;
      }
      ghost var e := EncTagged(f, items[i]).value;
      Reassociate(old(s.Out()), done, e);
      done := done + e;
    }
    RepeatedEnd(f, items, count, done);
    return true;
  }

  lemma {:induction false} Reassociate(a: seq<byte>, b: seq<byte>, c: seq<byte>)
    ensures a + (b + c) == a + b + c
  {
  }

  lemma {:induction false} RepeatedSplit(f: Field, items: seq<Val>, i: nat, count: nat, done: seq<byte>)
    requires i < count <= |items|
    ensures var rest := EncRepeated(f, items, i + 1, count);
            Cat(Some(done), EncRepeated(f, items, i, count)) ==
            if EncTagged(f, items[i]).Some? then Cat(Some(done + EncTagged(f, items[i]).value), rest) else None
  {
    hide EncTagged;
    var e, rest := EncTagged(f, items[i]), EncRepeated(f, items, i + 1, count);
    assert EncRepeated(f, items, i, count) == Cat(e, rest) by {
      assert e == Cat(Some(EncTagFor(f)), EncVal(f, items[i])) by {
        TaggedUnfold(f, items[i]);
      }
    }
    if e.Some? && rest.Some? {
      assert done + (e.value + rest.value) == done + e.value + rest.value;
    }
  }

  lemma {:induction false} TaggedUnfold(f: Field, v: Val)
    ensures EncTagged(f, v) == Cat(Some(EncTagFor(f)), EncVal(f, v))
  {
    hide EncVal, EncTagFor;
  }

  lemma {:induction false} RepeatedEnd(f: Field, items: seq<Val>, count: nat, done: seq<byte>)
    requires count <= |items|
    ensures Cat(Some(done), EncRepeated(f, items, count, count)) == Some(done)
  {
    assert done + [] == done;
  }

  // ----- pb_check_proto3_default_value

  /** The zero test of a singular field. */
  method CheckProto3Default(f: Field, v: Val) returns (zero: bool)
    requires WfField(f) && ShapeVal(f, v)
    ensures zero <==> ProtoZeroVal(f, v)
    decreases f, 0
  {
    hide FieldIter.Valid, ShapeMsg;
    match f.ltype
    case Submsg(fields) => zero := CheckProto3Fields(fields, v.slots);
    case Bytes => return v.size == 0;
    case Str => return |v.text| > 0 && v.text[0] == 0;
    case FixedBytes => return f.dataSize == 0;
    case _ => return v.n == 0;
  }

  /** All fields of a singular submessage. */
  method CheckProto3Fields(fields: seq<Field>, st: Msg) returns (zero: bool)
    requires WfFields(fields) && ShapeMsg(fields, st)
    ensures zero <==> ProtoZeroFrom(fields, st, 0)
    decreases fields, 0
  {
    hide FieldIter.Valid, ProtoZeroField, ShapeSlot, WfField, SlotOf;
    var iter := new FieldIter(fields, 0);
    var more := fields != [];
    ghost var i := 0;
    while more
      invariant iter.Valid() && fresh(iter) && iter.start == fields
      invariant i <= |fields| && (more ==> iter.pos == i < |fields|) && (!more ==> i == |fields|)
      invariant ProtoZeroFrom(fields, st, 0) <==> ProtoZeroFrom(fields, st, i)
      decreases |fields| - i
    {
      zero := CheckProto3DefaultField(fields[iter.pos], st[SlotOf(fields, iter.pos)]);
      if !zero {
        return;
      }
      more := iter.Next();
      i := i + 1;
    }
    return true;
  }

  /** The zero test of a field inside a singular submessage. */
  method CheckProto3DefaultField(f: Field, s: Slot) returns (zero: bool)
    requires WfField(f) && ShapeSlot(f, s)
    ensures zero <==> ProtoZeroField(f, s)
    decreases f, 1
  {
    match f.htype
    case Required => return false;
    case Repeated => return if IsFixedCount(f) then CountWordZero(f, s.items) else s.count == 0;
    case Oneof => return s.which == 0;
    case Optional =>
      if IsSingular(f) {
        zero := CheckProto3Default(f, s.v);
      } else {
        return !s.has;
      }
  }

  // ----- fields and messages

  /** encode_basic_field */
  method EncodeBasicField(s: OStream, f: Field, slot: Slot) returns (ok: bool)
    requires s.Valid() && WfField(f) && ShapeSlot(f, slot) && NoWrapSlot(f, slot)
    modifies s, s.mem
    ensures s.Valid() && (ok <==> EncField(f, slot).Some? && old(s.Fits(|EncField(f, slot).value|)))
    ensures ok ==> s.Took(EncField(f, slot).value)
    decreases f, 3
  {
    hide EncTagged, EncArray, ShapeVal, NoWrapVal, EncPacked, ProtoZeroVal;
    match f.htype
    case Required =>
      ok := EncodeTaggedValue(s, f, slot.v);
    case Optional =>
      var has := true;
      if IsSingular(f) {
        var zero := CheckProto3Default(f, slot.v);
        has := !zero;
      } else {
        has := slot.has;
      }
      if !has {
        return true;
      }
      ok := EncodeTaggedValue(s, f, slot.v);
    case Repeated =>
      var count := if IsFixedCount(f) then f.arraySize else slot.count;
      ok := EncodeArray(s, f, slot.items, count);
    case Oneof =>
      if slot.which != f.tag {
        return true;
      }
      ok := EncodeTaggedValue(s, f, slot.v);
  }

  /** The loop body of pb_encode: field i is written, or nothing from it on can be. */
  method EncodeFieldAt(s: OStream, fields: seq<Field>, st: Msg, i: nat) returns (ok: bool)
    requires s.Valid() && WfFields(fields) && ShapeMsg(fields, st) && NoWrap(fields, st) && i < |fields|
    modifies s, s.mem
    ensures s.Valid() && SlotOf(fields, i) < |st|
    ensures !ok ==> EncFrom(fields, st, i).None? || !old(s.Fits(|EncFrom(fields, st, i).value|))
    ensures ok ==> EncField(fields[i], st[SlotOf(fields, i)]).Some?
    ensures ok ==> s.Took(EncField(fields[i], st[SlotOf(fields, i)]).value)
    ensures ok ==> old(s.Fits(|EncField(fields[i], st[SlotOf(fields, i)]).value|))
    decreases fields, 0, 0
  {
    hide EncField, ShapeSlot, NoWrapSlot, WfField, ShapeMsg, NoWrap, WfFields, SlotOf;
    FieldReady(fields, st, i);
    ok := EncodeBasicField(s, fields[i], st[SlotOf(fields, i)]);
  }

  /** pb_encode succeeds exactly when the struct can be encoded and its encoding fits the stream,
      and then appends that encoding, or on a sizing stream counts its length. */
  method Encode(s: OStream, fields: seq<Field>, st: Msg) returns (ok: bool)
    requires s.Valid() && WfFields(fields) && ShapeMsg(fields, st) && NoWrap(fields, st)
    modifies s, s.mem
    ensures s.Valid() && (ok <==> EncMsg(fields, st).Some? && old(s.Fits(|EncMsg(fields, st).value|)))
    ensures ok ==> s.Took(EncMsg(fields, st).value)
    decreases fields, 0, 1
  {
    hide EncField, EncFrom, ShapeMsg, NoWrap, WfFields, SlotOf;
    var iter := new FieldIter(fields, 0);
    var more := fields != [];
    ghost var i, done: seq<byte> := 0, [];
    ghost var total := EncFrom(fields, st, 0);
    assert total.Some? ==> done + total.value == total.value;
    while more
      invariant iter.Valid() && fresh(iter) && iter.start == fields
      invariant i <= |fields| && (more ==> iter.pos == i < |fields|) && (!more ==> i == |fields|)
      invariant s.Valid() && s.Took(done)
      invariant total == Cat(Some(done), EncFrom(fields, st, i))
      decreases |fields| - i
    {
      ok := EncodeFieldAt(s, fields, st, iter.pos);
      if !ok {
        return;
      }
      FromSplit(fields, st, i, done);
      ghost var e := EncField(fields[i], st[SlotOf(fields, i)]).value;
      Reassociate(old(s.Out()), done, e);
      done := done + e;
      more := iter.Next();
      i := i + 1;
    }
    FromEnd(fields, st, done);
    return true;
  }

  lemma {:induction false} FieldReady(fields: seq<Field>, st: Msg, i: nat)
    requires i < |fields| && WfFields(fields) && ShapeMsg(fields, st) && NoWrap(fields, st)
    ensures SlotOf(fields, i) < |st| && WfField(fields[i])
    ensures ShapeSlot(fields[i], st[SlotOf(fields, i)]) && NoWrapSlot(fields[i], st[SlotOf(fields, i)])
  {
    hide ShapeSlot, NoWrapSlot, WfField;
  }

  lemma {:induction false} FromSplit(fields: seq<Field>, st: Msg, i: nat, done: seq<byte>)
    requires i < |fields| && SlotOf(fields, i) < |st|
    ensures var e := EncField(fields[i], st[SlotOf(fields, i)]);
            Cat(Some(done), EncFrom(fields, st, i)) ==
            if e.Some? then Cat(Some(done + e.value), EncFrom(fields, st, i + 1)) else None
  {
    hide EncField;
    var e, rest := EncField(fields[i], st[SlotOf(fields, i)]), EncFrom(fields, st, i + 1);
    if e.Some? && rest.Some? {
      assert done + (e.value + rest.value) == done + e.value + rest.value;
    }
  }

  lemma {:induction false} FromEnd(fields: seq<Field>, st: Msg, done: seq<byte>)
    ensures Cat(Some(done), EncFrom(fields, st, |fields|)) == Some(done)
  {
    assert done + [] == done;
  }

  /** pb_get_encoded_size */
  method GetEncodedSize(fields: seq<Field>, st: Msg) returns (ok: bool, size: nat)
    requires WfFields(fields) && ShapeMsg(fields, st) && NoWrap(fields, st)
    ensures ok <==> EncMsg(fields, st).Some?
    ensures ok ==> size == |EncMsg(fields, st).value|
  {
    var s := new OStream.Sizing();
    ok := Encode(s, fields, st);
    size := s.bytesWritten;
  }

  /** The size the sizing pass reports is exact: a buffer of capacity c holds the encoding if and
      only if c is at least that size, and then the buffer starts with the encoding. */
  method EncodeToBuffer(mem: array<byte>, c: nat, fields: seq<Field>, st: Msg)
    returns (sized: bool, size: nat, ok: bool)
    requires c <= mem.Length && WfFields(fields) && ShapeMsg(fields, st) && NoWrap(fields, st)
    modifies mem
    ensures ok <==> sized && size <= c
    ensures ok ==> size <= mem.Length && Some(mem[..size]) == EncMsg(fields, st)
  {
    hide EncMsg, NoWrap, ShapeMsg, WfFields;
    sized, size := GetEncodedSize(fields, st);
    var s := new OStream.Buffer(mem, 0, c);
    ok := Encode(s, fields, st);
    assert ok ==> s.Out() == EncMsg(fields, st).value;
  }
}
