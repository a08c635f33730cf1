/** The bytes pb_encode writes for a struct, as a function of its descriptor and its slots.

    `None` is the failure of the encoder for a reason other than a full stream. The streams that
    write these bytes, count them, or run out of room are in PbOutput. */
module PbEncode {
  import opened PbTypes
  import opened PbMemory
  import opened Prelude
  import opened PbVarint

  const WT_VARINT := 0
  const WT_64BIT := 1
  const WT_STRING := 2
  const WT_32BIT := 5

  function WireType(l: LType): nat
  {
    match l
    case Varint => WT_VARINT
    case UVarint => WT_VARINT
    case SVarint => WT_VARINT
    case Fixed32 => WT_32BIT
    case Fixed64 => WT_64BIT
    case _ => WT_STRING
  }

  /** pb_encode_tag. */
  function EncTag(wt: nat, tag: nat): seq<byte>
  {
    EncVarint(tag * 8 + wt)
  }

  function EncTagFor(f: Field): seq<byte>
  {
    EncTag(WireType(f.ltype), f.tag)
  }

  function Prefixed(data: seq<byte>): seq<byte>
  {
    EncVarint(|data|) + data
  }

  predicate IsIntSize(size: nat)
  {
    size == 1 || size == 2 || size == 4 || size == 8
  }

  /** The bytes of a C string: everything before the first NUL, or the whole buffer. */
  function CString(text: seq<byte>): (s: seq<byte>)
    ensures s <= text
  {
    if text == [] || text[0] == 0 then [] else [text[0]] + CString(text[1..])
  }

  function Cat(a: Option<seq<byte>>, b: Option<seq<byte>>): Option<seq<byte>>
  {
    if a.Some? && b.Some? then Some(a.value + b.value) else None
  }

  /** The PB_ENCODERS entry of f, applied to one value. */
  function EncVal(f: Field, v: Val): Option<seq<byte>>
    decreases f, 0
  {
    match f.ltype
    case Submsg(fields) =>
      if !v.MsgVal? then None
      else
        var body := EncMsg(fields, v.slots);
        if body.None? then None else Some(Prefixed(body.value))
    case _ => EncLeaf(f, v)
  }

  function EncLeaf(f: Field, v: Val): Option<seq<byte>>
  {
    match f.ltype
    case Varint =>
      if v.IntVal? && IsIntSize(f.dataSize) then Some(EncVarint(v.n % TWO_64)) else None
    case UVarint =>
      if v.IntVal? && IsIntSize(f.dataSize) then Some(EncVarint(v.n % TWO_64)) else None
    case SVarint =>
      if v.IntVal? && IsIntSize(f.dataSize) && -TWO_63 <= v.n < TWO_63 then Some(EncVarint(ZigZag(v.n))) else None
    case Fixed32 => if v.IntVal? then Some(Le32(v.n)) else None
    case Fixed64 => if v.IntVal? then Some(Le64(v.n)) else None
    case Bytes =>
      if v.BytesVal? && v.size + PB_SIZE_BYTES <= f.dataSize && v.size <= |v.buf| then Some(Prefixed(v.buf[..v.size])) else None
    case Str => if v.StrVal? then Some(Prefixed(CString(v.text))) else None
    case FixedBytes => if v.RawVal? && |v.raw| == f.dataSize then Some(Prefixed(v.raw)) else None
    case Submsg(_) => None
  }

  /** The elements lo..hi of a packed array, without tags. */
  function EncPacked(f: Field, items: seq<Val>, lo: nat, hi: nat): Option<seq<byte>>
    requires lo <= hi <= |items|
    decreases hi - lo
  {
    if lo == hi then Some([]) else Cat(EncLeaf(f, items[lo]), EncPacked(f, items, lo + 1, hi))
  }

  /** The elements lo..hi of an array, each behind its own tag. */
  function EncRepeated(f: Field, items: seq<Val>, lo: nat, hi: nat): Option<seq<byte>>
    requires lo <= hi <= |items|
    decreases f, 1, hi - lo
  {
    if lo == hi then Some([])
    else Cat(Cat(Some(EncTagFor(f)), EncVal(f, items[lo])), EncRepeated(f, items, lo + 1, hi))
  }

  /** encode_array. */
  function EncArray(f: Field, items: seq<Val>, count: nat): Option<seq<byte>>
    decreases f, 2
  {
    if count == 0 then Some([])
    else if count > f.arraySize || count > |items| then None
    else if Packable(f.ltype) then
      var body := EncPacked(f, items, 0, count);
      if body.None? then None else Some(EncTag(WT_STRING, f.tag) + Prefixed(body.value))
    else EncRepeated(f, items, 0, count)
  }

  function EncTagged(f: Field, v: Val): Option<seq<byte>>
    decreases f, 1, 0
  {
    Cat(Some(EncTagFor(f)), EncVal(f, v))
  }

  /** encode_basic_field. */
  function EncField(f: Field, s: Slot): Option<seq<byte>>
    decreases f, 3
  {
    match f.htype
    case Required => if s.Plain? then EncTagged(f, s.v) else None
    case Optional =>
      if IsSingular(f) then
        if !s.Plain? then None
        else if ProtoZeroVal(f, s.v) then Some([]) else EncTagged(f, s.v)
      else if !s.Opt? then None
      else if s.has then EncTagged(f, s.v) else Some([])
    case Repeated =>
      if IsFixedCount(f) then (if s.FixedRep? then EncArray(f, s.items, f.arraySize) else None)
      else if s.Rep? then EncArray(f, s.items, s.count) else None
    case Oneof =>
      if !s.Union? then None
      else if s.which == f.tag then EncTagged(f, s.v) else Some([])
  }

  /** pb_encode: the fields in descriptor order. */
  function EncMsg(fields: seq<Field>, st: Msg): Option<seq<byte>>
    decreases fields, 1
  {
    EncFrom(fields, st, 0)
  }

  function EncFrom(fields: seq<Field>, st: Msg, i: nat): Option<seq<byte>>
    requires i <= |fields|
    decreases fields, 0, |fields| - i
  {
    if i == |fields| then Some([])
    else if SlotOf(fields, i) >= |st| then None
    else Cat(EncField(fields[i], st[SlotOf(fields, i)]), EncFrom(fields, st, i + 1))
  }

  // ----- the proto3 zero test

  /** pb_check_proto3_default_value for the value of a singular field. */
  predicate ProtoZeroVal(f: Field, v: Val)
    decreases f, 0
  {
    match f.ltype
    case Submsg(fields) => v.MsgVal? && ProtoZeroFrom(fields, v.slots, 0)
    case Bytes => v.BytesVal? && v.size == 0
    case Str => v.StrVal? && |v.text| > 0 && v.text[0] == 0
    case FixedBytes => f.dataSize == 0
    case _ => v.IntVal? && v.n == 0
  }

  /** pb_check_proto3_default_value for a field inside a singular submessage. */
  predicate ProtoZeroField(f: Field, s: Slot)
    decreases f, 1
  {
    match f.htype
    case Required => false
    case Repeated =>
      if IsFixedCount(f) then s.FixedRep? && CountWordZero(f, s.items) else s.Rep? && s.count == 0
    case Oneof => s.Union? && s.which == 0
    case Optional => if IsSingular(f) then s.Plain? && ProtoZeroVal(f, s.v) else s.Opt? && !s.has
  }

  predicate ProtoZeroFrom(fields: seq<Field>, st: Msg, i: nat)
    requires i <= |fields|
    decreases fields, 0, |fields| - i
  {
    i == |fields| ||
    (SlotOf(fields, i) < |st| && ProtoZeroField(fields[i], st[SlotOf(fields, i)]) && ProtoZeroFrom(fields, st, i + 1))
  }

  /** The zero test reads the count of a fixed-count array from where its elements are: the
      first PB_SIZE_BYTES bytes of the array. */
  predicate CountWordZero(f: Field, items: seq<Val>)
  {
    ItemsZero(f, items, 0, PB_SIZE_BYTES)
  }
}
