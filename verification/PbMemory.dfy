/** The first bytes of a value in memory, as far as nanopb looks at them through a pointer to a
    count: members at the offsets of the descriptor, little-endian, padding taken as zero. */
module PbMemory {
  import opened Bits
  import opened PbTypes
  import opened Prelude

  /** Bytes a field takes in the struct: arrays count all their elements. */
  function FieldBytes(f: Field): nat
  {
    if f.htype.Repeated? then f.dataSize * f.arraySize else f.dataSize
  }

  /** Offset of the data of field i: the paddings and sizes of the fields before it, where the
      members of a union count once. */
  function DataOffset(fields: seq<Field>, i: nat): nat
    requires i < |fields|
  {
    if i == 0 then fields[0].dataOffset
    else if InSameUnion(fields, i) then DataOffset(fields, i - 1)
    else DataOffset(fields, i - 1) + FieldBytes(fields[i - 1]) + fields[i].dataOffset
  }

  /** How many of the first n bytes lie at the has_, _count or which_ member of the field. */
  function SizeOverlap(f: Field, at: nat, n: nat): nat
  {
    var p := at + f.sizeOffset;
    if 0 <= p < n then n - p else 0
  }

  // ----- reading the first bytes

  /** The first n bytes of the memory of a value are zero. */
  predicate LowZero(f: Field, v: Val, n: nat)
    decreases f, 0
  {
    match v
    case IntVal(x) => x % Pow2(8 * n) == 0
    case BytesVal(size, _) => size % Pow2(8 * n) == 0
    case StrVal(t) => forall j :: 0 <= j < n && j < |t| ==> t[j] == 0
    case RawVal(t) => forall j :: 0 <= j < n && j < |t| ==> t[j] == 0
    case MsgVal(slots) => f.ltype.Submsg? && MembersZero(f.ltype.fields, slots, 0, n)
  }

  predicate MembersZero(fields: seq<Field>, st: Msg, i: nat, n: nat)
    requires i <= |fields|
    decreases fields, 0, |fields| - i
  {
    i == |fields| ||
    (SlotOf(fields, i) < |st| && SlotZero(fields[i], st[SlotOf(fields, i)], DataOffset(fields, i), n) &&
     MembersZero(fields, st, i + 1, n))
  }

  /** The bytes below n of a member whose data is at offset `at`. */
  predicate SlotZero(f: Field, s: Slot, at: nat, n: nat)
    decreases f, 2
  {
    match s
    case Plain(v) => at < n ==> LowZero(f, v, n - at)
    case Opt(has, v) => (SizeOverlap(f, at, n) > 0 ==> !has) && (at < n ==> LowZero(f, v, n - at))
    case Rep(count, items) => count % Pow2(8 * SizeOverlap(f, at, n)) == 0 && ItemsZero(f, items, at, n)
    case FixedRep(items) => ItemsZero(f, items, at, n)
    case Union(which, _) => which % Pow2(8 * SizeOverlap(f, at, n)) == 0
  }

  predicate ItemsZero(f: Field, items: seq<Val>, at: nat, n: nat)
    decreases f, 1
  {
    forall k :: 0 <= k < |items| && at + k * f.dataSize < n ==> LowZero(f, items[k], n - at - k * f.dataSize)
  }

  // ----- clearing them

  /** Zero the first n bytes of the memory of a value. */
  function ClearLow(f: Field, v: Val, n: nat): Val
    decreases f, 0
  {
    match f.ltype
    case Submsg(fields) => if v.MsgVal? then MsgVal(ClearMembers(fields, v.slots, 0, n)) else v
    case _ => ClearLeaf(v, f.dataSize, n)
  }

  function ClearLeaf(v: Val, size: nat, n: nat): Val
  {
    match v
    case IntVal(x) => IntVal(if n >= size then 0 else x - x % Pow2(8 * n))
    case BytesVal(count, buf) => BytesVal(ClearNat(count, n), buf)
    case StrVal(t) => StrVal(ClearBytes(t, n))
    case RawVal(t) => RawVal(ClearBytes(t, n))
    case MsgVal(_) => v
  }

  /** x without its n lowest bytes. */
  function ClearNat(x: nat, n: nat): (r: nat)
    ensures r <= x
  {
    ModAtMost(x, Pow2(8 * n));
    x - x % Pow2(8 * n)
  }

  function ClearBytes(t: seq<byte>, n: nat): (r: seq<byte>)
    ensures |r| == |t|
  {
    seq(|t|, j requires 0 <= j < |t| => if j < n then 0 else t[j])
  }

  function ClearMembers(fields: seq<Field>, st: Msg, i: nat, n: nat): (r: Msg)
    requires i <= |fields|
    ensures |r| == |st|
    decreases fields, 0, |fields| - i
  {
    if i == |fields| then st
    else
      var s := SlotOf(fields, i);
      var st' := if s < |st| then st[s := ClearSlot(fields[i], st[s], DataOffset(fields, i), n)] else st;
      ClearMembers(fields, st', i + 1, n)
  }

  /** A which_ member is aligned, so that it is cleared as a whole or not at all. */
  function ClearSlot(f: Field, s: Slot, at: nat, n: nat): Slot
    decreases f, 2
  {
    match s
    case Plain(v) => Plain(if at < n then ClearLow(f, v, n - at) else v)
    case Opt(has, v) => Opt(has && SizeOverlap(f, at, n) == 0, if at < n then ClearLow(f, v, n - at) else v)
    case Rep(count, items) => Rep(ClearNat(count, SizeOverlap(f, at, n)), ClearItems(f, items, at, n))
    case FixedRep(items) => FixedRep(ClearItems(f, items, at, n))
    case Union(which, v) => Union(if which % Pow2(8 * SizeOverlap(f, at, n)) == 0 then which else 0, v)
  }

  function ClearItems(f: Field, items: seq<Val>, at: nat, n: nat): (r: seq<Val>)
    ensures |r| == |items|
    decreases f, 1
  {
    seq(|items|, k requires 0 <= k < |items| =>
      if at + k * f.dataSize < n then ClearLow(f, items[k], n - at - k * f.dataSize) else items[k])
  }

  // ----- bytes that belong to a member

  /** Byte p of a value of this type is not padding. */
  predicate ByteKnown(f: Field, p: nat)
    decreases f, 0
  {
    match f.ltype
    case Submsg(fields) => exists i :: 0 <= i < |fields| && MemberByte(fields[i], DataOffset(fields, i), p)
    case _ => p < f.dataSize
  }

  predicate MemberByte(f: Field, at: nat, p: nat)
    decreases f, 2
  {
    var size := at + f.sizeOffset;
    match f.htype
    case Required => at <= p && DataByte(f, p - at)
    case Optional => (at <= p && DataByte(f, p - at)) || (!IsSingular(f) && p == size)
    case Repeated => (at <= p && DataByte(f, p - at)) || (!IsFixedCount(f) && size <= p < size + PB_SIZE_BYTES)
    case Oneof => size <= p < size + PB_SIZE_BYTES
  }

  /** Byte p of the data of a field, counted over all elements of an array. */
  predicate DataByte(f: Field, p: nat)
    decreases f, 1
  {
    p < FieldBytes(f) && f.dataSize > 0 && ByteKnown(f, p % f.dataSize)
  }

  /** The first PB_SIZE_BYTES bytes of the array are there, and none of them is padding. */
  predicate CountWordKnown(f: Field)
  {
    forall p: nat :: p < PB_SIZE_BYTES ==> DataByte(f, p)
  }

  /** So it is for every fixed-count array that the zero test of a singular submessage meets. */
  predicate CountWordsKnown(fields: seq<Field>)
    decreases fields, 0
  {
    forall i :: 0 <= i < |fields| ==> CountWordsKnownIn(fields[i])
  }

  predicate CountWordsKnownIn(f: Field)
    decreases f, 1
  {
    (IsFixedCount(f) ==> CountWordKnown(f)) && (IsSingular(f) && f.ltype.Submsg? ==> CountWordsKnown(f.ltype.fields))
  }
}
