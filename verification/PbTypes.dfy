/** nanopb's static data: field descriptors and the values of the C structs they describe.

    A descriptor is the finite tree a generated `pb_field_t` array spells out; the terminator
    entry with tag 0 is the end of the sequence. A struct is a sequence of typed slots: one slot
    per field, except that the members of one union share a slot. The build configuration is the
    one of the pod, PB_FIELD_32BIT, so that `pb_size_t` is 32 bits wide. */
module PbTypes {
  import opened Prelude

  const PB_SIZE_MAX := 0xFFFF_FFFF
  const PB_SIZE_BYTES := 4
  const PB_MAX_REQUIRED_FIELDS := 64
  const TWO_31 := 0x8000_0000
  const TWO_32 := 0x1_0000_0000
  const TWO_63 := 0x8000_0000_0000_0000
  const TWO_64 := 0x1_0000_0000_0000_0000

  datatype LType =
    | Varint | UVarint | SVarint | Fixed32 | Fixed64
    | Bytes | Str | Submsg(fields: seq<Field>) | FixedBytes

  datatype HType = Required | Optional | Repeated | Oneof

  /** One `pb_field_t`. `dflt` is the default value `ptr` points to, if any; the descriptor
      of a submessage is inside its `ltype`. */
  datatype Field = Field(
    tag: nat, ltype: LType, htype: HType,
    dataOffset: nat, sizeOffset: int, dataSize: nat, arraySize: nat,
    dflt: Option<Val>)

  datatype Val =
    | IntVal(n: int)
    | BytesVal(size: nat, buf: seq<byte>)
    | StrVal(text: seq<byte>)
    | RawVal(raw: seq<byte>)
    | MsgVal(slots: seq<Slot>)

  datatype Slot =
    | Plain(v: Val)                         // required, or proto3 singular
    | Opt(has: bool, v: Val)                // optional with a has_ flag
    | Rep(count: nat, items: seq<Val>)      // array with a _count, and its whole storage
    | FixedRep(items: seq<Val>)             // fixed-count array
    | Union(which: nat, v: Val)             // which_ and the member it selects

  type Msg = seq<Slot>

  predicate Packable(l: LType)
  {
    l.Varint? || l.UVarint? || l.SVarint? || l.Fixed32? || l.Fixed64?
  }

  /** A repeated field without a `_count` member: its size pointer is its data pointer. */
  predicate IsFixedCount(f: Field)
  {
    f.htype.Repeated? && f.sizeOffset == 0
  }

  /** A proto3 singular field: optional without a `has_` member. */
  predicate IsSingular(f: Field)
  {
    f.htype.Optional? && f.sizeOffset == 0
  }

  /** A union member after the first: its data lies where its predecessor's does. */
  predicate InSameUnion(fields: seq<Field>, i: nat)
    requires i < |fields|
  {
    i > 0 && fields[i - 1].htype.Oneof? && fields[i].htype.Oneof? && fields[i].dataOffset == PB_SIZE_MAX
  }

  /** The slot of field i. */
  function SlotOf(fields: seq<Field>, i: nat): nat
    requires i < |fields|
  {
    if i == 0 then 0
    else if InSameUnion(fields, i) then SlotOf(fields, i - 1)
    else SlotOf(fields, i - 1) + 1
  }

  function SlotCount(fields: seq<Field>): nat
  {
    if fields == [] then 0 else SlotOf(fields, |fields| - 1) + 1
  }

  /** Number of required fields before position i. */
  function RequiredBefore(fields: seq<Field>, i: nat): nat
    requires i <= |fields|
  {
    if i == 0 then 0
    else RequiredBefore(fields, i - 1) + (if fields[i - 1].htype.Required? then 1 else 0)
  }

  /** Two fields share a slot only as members of one union. */
  lemma {:induction false} SlotOfShared(fields: seq<Field>, i: nat, j: nat)
    requires i < j < |fields|
    ensures SlotOf(fields, i) <= SlotOf(fields, j)
    ensures SlotOf(fields, i) == SlotOf(fields, j) ==> fields[i].htype.Oneof? && fields[j].htype.Oneof?
  {
    if i + 1 < j {
      SlotOfShared(fields, i, j - 1);
    }
  }

  lemma {:induction false} SlotOfBound(fields: seq<Field>, i: nat)
    requires i < |fields|
    ensures SlotOf(fields, i) < SlotCount(fields)
  {
    if i < |fields| - 1 {
      SlotOfShared(fields, i, |fields| - 1);
    }
  }

  lemma {:induction false} RequiredBeforeMonotone(fields: seq<Field>, i: nat, j: nat)
    requires i < j <= |fields|
    ensures RequiredBefore(fields, i) + (if fields[i].htype.Required? then 1 else 0) <= RequiredBefore(fields, j)
  {
    if i + 1 < j {
      RequiredBeforeMonotone(fields, i, j - 1);
    }
  }
}
