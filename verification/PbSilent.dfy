/** What the defaults leave behind: structs that are written as nothing, and count words of zero. */
module PbSilent {
  import opened Bits
  import opened PbTypes
  import opened PbMemory
  import opened Prelude
  import opened PbEncode
  import opened PbDecode
  import opened PbWellFormed

  // ----- nothing to write

  /** A field that is written only if something was put into it: not required, not of a fixed count, and
      as a proto3 singular field without default and with a value that can be zero. */
  predicate Voluntary(f: Field)
    decreases f, 1
  {
    && !f.htype.Required? && !IsFixedCount(f)
    && (IsSingular(f) ==>
          && f.dflt.None? && (f.ltype.FixedBytes? ==> f.dataSize == 0) && (f.ltype.Str? ==> f.dataSize > 0)
          && (f.ltype.Submsg? ==> AllVoluntary(f.ltype.fields)))
  }

  predicate AllVoluntary(fields: seq<Field>)
    decreases fields, 0
  {
    forall i :: 0 <= i < |fields| ==> Voluntary(fields[i])
  }

  lemma {:induction false} FreshIsZero(f: Field, v: Val)
    requires WfField(f) && IsSingular(f) && Voluntary(f) && ShapeVal(f, v) && FreshVal(f, v)
    ensures ProtoZeroVal(f, v)
    decreases f, 0
  {
    match f.ltype
    case Submsg(fields) => FreshAreZero(fields, v.slots, 0);
    case _ =>
  }

  lemma {:induction false} FreshAreZero(fields: seq<Field>, st: Msg, i: nat)
    requires WfFields(fields) && AllVoluntary(fields) && ShapeMsg(fields, st) && FreshMsg(fields, st) && i <= |fields|
    ensures ProtoZeroFrom(fields, st, i)
    decreases fields, 1, |fields| - i
  {
    hide WfField, ShapeSlot, FreshSlot, Voluntary, ProtoZeroField, SlotOf, DistinctTags;
    if i < |fields| {
      FreshFieldIsZero(fields[i], st[SlotOf(fields, i)]);
      FreshAreZero(fields, st, i + 1);
    }
  }

  lemma {:induction false} FreshFieldIsZero(f: Field, s: Slot)
    requires WfField(f) && Voluntary(f) && ShapeSlot(f, s) && FreshSlot(f, s)
    ensures ProtoZeroField(f, s)
    decreases f, 1
  {
    hide ShapeVal, FreshVal, ProtoZeroVal, AllVoluntary;
    if IsSingular(f) {
      FreshIsZero(f, s.v);
    }
  }

  lemma {:induction false} FreshFieldIsSilent(f: Field, s: Slot)
    requires WfField(f) && Voluntary(f) && ShapeSlot(f, s) && FreshSlot(f, s)
    ensures EncField(f, s) == Some([])
  {
    hide ShapeVal, FreshVal, ProtoZeroVal, AllVoluntary, EncTagged;
    if IsSingular(f) {
      FreshIsZero(f, s.v);
    }
  }

  lemma {:induction false} FreshFromIsSilent(fields: seq<Field>, st: Msg, i: nat)
    requires WfFields(fields) && AllVoluntary(fields) && ShapeMsg(fields, st) && FreshMsg(fields, st) && i <= |fields|
    ensures EncFrom(fields, st, i) == Some([])
    decreases |fields| - i
  {
    hide WfField, ShapeSlot, FreshSlot, Voluntary, EncField, SlotOf, DistinctTags;
    if i < |fields| {
      FreshFieldIsSilent(fields[i], st[SlotOf(fields, i)]);
      FreshFromIsSilent(fields, st, i + 1);
      var none: seq<byte> := [];
      assert none + none == none;
    }
  }

  /** A struct that was only set to its defaults is written as no bytes at all. */
  lemma {:induction false} DefaultsAreSilent(fields: seq<Field>, st: Msg)
    requires WfFields(fields) && AllVoluntary(fields) && ShapeMsg(fields, st)
    ensures EncMsg(fields, SetDefaults(fields, st)) == Some([])
  {
    SetDefaultsShape(fields, st);
    FreshFromIsSilent(fields, SetDefaults(fields, st), 0);
  }

  // ----- the count word

  lemma {:induction false} ClearIntIsZero(x: int, n: nat)
    ensures (x - x % Pow2(8 * n)) % Pow2(8 * n) == 0
  {
    var m := Pow2(8 * n);
    hide Pow2;
    Distribute(x / m, 0, m);
    ModUnique(x - x % m, m, x / m, 0);
  }

  lemma {:induction false} ZeroMod(m: nat)
    requires m > 0
    ensures 0 % m == 0
  {
  }

  /** Clearing the first n bytes of a value makes them zero. */
  lemma {:induction false} ClearedLow(f: Field, v: Val, n: nat)
    requires WfField(f) && ShapeVal(f, v)
    ensures LowZero(f, ClearLow(f, v, n), n)
    decreases f, 0
  {
    hide Pow2, ShapeMsg, ClearMembers, MembersZero;
    match f.ltype
    case Submsg(fields) => ClearedMembersZero(fields, v.slots, n);
    case _ => ClearedLeaf(f, v, n);
  }

  lemma {:induction false} ClearedLeaf(f: Field, v: Val, n: nat)
    requires !f.ltype.Submsg? && ShapeLeaf(f, v)
    ensures LowZero(f, ClearLeaf(v, f.dataSize, n), n)
  {
    hide Pow2;
    if v.IntVal? {
      ClearIntIsZero(v.n, n);
      ZeroMod(Pow2(8 * n));
    } else if v.BytesVal? {
      ClearIntIsZero(v.size, n);
    }
  }

  lemma {:induction false} ClearedItemsZero(f: Field, items: seq<Val>, at: nat, n: nat)
    requires WfField(f) && forall k :: 0 <= k < |items| ==> ShapeVal(f, items[k])
    ensures ItemsZero(f, ClearItems(f, items, at, n), at, n)
    decreases f, 1, 0
  {
    hide LowZero, ClearLow, ShapeVal, WfField;
    var r := ClearItems(f, items, at, n);
    forall k | 0 <= k < |r| && at + k * f.dataSize < n ensures LowZero(f, r[k], n - at - k * f.dataSize) {
      ClearedLow(f, items[k], n - at - k * f.dataSize);
    }
  }

  lemma {:induction false} ClearedSlotZero(f: Field, s: Slot, at: nat, n: nat)
    requires WfField(f) && ShapeSlot(f, s)
    ensures SlotZero(f, ClearSlot(f, s, at, n), at, n)
    decreases f, 2
  {
    hide LowZero, ClearLow, ShapeVal, Pow2, SizeOverlap, ItemsZero, ClearItems;
    var size := SizeOverlap(f, at, n);
    match s
    case Plain(v) => ClearedLow(f, v, if at < n then n - at else 0);
    case Opt(_, v) => ClearedLow(f, v, if at < n then n - at else 0);
    case Rep(count, items) =>
      ClearIntIsZero(count, size);
      ClearedItemsZero(f, items, at, n);
    case FixedRep(items) => ClearedItemsZero(f, items, at, n);
    case Union(_, _) => ZeroMod(Pow2(8 * size));
  }

  /** Another member of the same union finds the slot at least as clear as it was. */
  lemma {:induction false} ClearedStaysZero(f: Field, g: Field, s: Slot, at: nat, other: nat, n: nat)
    requires s.Union? && SlotZero(f, s, at, n)
    ensures SlotZero(f, ClearSlot(g, s, other, n), at, n)
  {
    hide Pow2, SizeOverlap;
    ZeroMod(Pow2(8 * SizeOverlap(f, at, n)));
  }

  /** The fields below i are clear in the first n bytes. */
  ghost predicate ClearBelow(fields: seq<Field>, st: Msg, i: nat, n: nat)
  {
    |st| == SlotCount(fields) && forall j :: 0 <= j < i && j < |fields| ==>
      SlotOf(fields, j) < |st| && SlotZero(fields[j], st[SlotOf(fields, j)], DataOffset(fields, j), n)
  }

  lemma {:induction false} ClearOneMore(fields: seq<Field>, st: Msg, i: nat, n: nat)
    requires WfFields(fields) && ShapeMsg(fields, st) && i < |fields| && ClearBelow(fields, st, i, n)
    ensures var k := SlotOf(fields, i);
            ClearBelow(fields, st[k := ClearSlot(fields[i], st[k], DataOffset(fields, i), n)], i + 1, n)
    decreases fields, 0, 0
  {
    hide WfField, ShapeSlot, SlotZero, ClearSlot, DataOffset, SlotOf, SlotCount, DistinctTags;
    var k, at := SlotOf(fields, i), DataOffset(fields, i);
    ClearedSlotZero(fields[i], st[k], at, n);
    var st' := st[k := ClearSlot(fields[i], st[k], at, n)];
    forall j | 0 <= j < i + 1
      ensures SlotOf(fields, j) < |st'| && SlotZero(fields[j], st'[SlotOf(fields, j)], DataOffset(fields, j), n)
    {
      if j < i {
        SlotOfShared(fields, j, i);
        if SlotOf(fields, j) == k {
          UnionShape(fields[i], st[k]);
          ClearedStaysZero(fields[j], fields[i], st[k], DataOffset(fields, j), at, n);
        }
      }
    }
  }

  lemma {:induction false} UnionShape(f: Field, s: Slot)
    requires f.htype.Oneof? && ShapeSlot(f, s)
    ensures s.Union?
  {
  }

  lemma {:induction false} ClearedMembersBelow(fields: seq<Field>, st: Msg, i: nat, n: nat)
    requires WfFields(fields) && ShapeMsg(fields, st) && i <= |fields| && ClearBelow(fields, st, i, n)
    ensures ClearBelow(fields, ClearMembers(fields, st, i, n), |fields|, n)
    decreases fields, 0, |fields| - i + 1
  {
    hide ShapeSlot, ClearSlot, WfField, SlotOf, SlotCount, DistinctTags, DataOffset, ClearBelow;
    if i < |fields| {
      var k := SlotOf(fields, i);
      var st' := st[k := ClearSlot(fields[i], st[k], DataOffset(fields, i), n)];
      ClearOneMore(fields, st, i, n);
      forall j | 0 <= j < |fields| ensures ShapeSlot(fields[j], st'[SlotOf(fields, j)]) {
        ClearedOther(fields, st, i, j, n);
      }
      ClearedMembersBelow(fields, st', i + 1, n);
    }
  }

  lemma {:induction false} BelowIsZero(fields: seq<Field>, st: Msg, i: nat, n: nat)
    requires ClearBelow(fields, st, |fields|, n) && i <= |fields|
    ensures MembersZero(fields, st, i, n)
    decreases |fields| - i
  {
    hide SlotZero, DataOffset, SlotOf;
    if i < |fields| {
      BelowIsZero(fields, st, i + 1, n);
    }
  }

  lemma {:induction false} ClearedMembersZero(fields: seq<Field>, st: Msg, n: nat)
    requires WfFields(fields) && ShapeMsg(fields, st)
    ensures MembersZero(fields, ClearMembers(fields, st, 0, n), 0, n)
    decreases fields, 1
  {
    hide ShapeSlot, ClearMembers;
    ClearedMembersBelow(fields, st, 0, n);
    BelowIsZero(fields, ClearMembers(fields, st, 0, n), 0, n);
  }

  /** After the defaults pass the zero test takes every fixed-count array for empty. */
  lemma {:induction false} DefaultsClearTheCount(f: Field, items: seq<Val>)
    requires WfField(f) && IsFixedCount(f) && ShapeSlot(f, FixedRep(items))
    ensures ProtoZeroField(f, DefaultSlot(f, FixedRep(items)))
  {
    hide ShapeVal, ItemsZero, ClearItems;
    ClearedItemsZero(f, items, 0, PB_SIZE_BYTES);
  }

  /** And it leaves the elements behind the first four bytes as they were. */
  lemma {:induction false} DefaultsKeepTheRest(f: Field, items: seq<Val>, k: nat)
    requires k < |items| && k * f.dataSize >= 4
    ensures var r := DefaultSlot(f, FixedRep(items));
            r.FixedRep? && |r.items| == |items| && r.items[k] == items[k]
  {
  }

  /** Of one value, clearing n bytes leaves what lies above them. */
  lemma {:induction false} ClearKeepsHigh(f: Field, v: Val, n: nat)
    requires WfLeaf(f) && !f.ltype.Submsg? && ShapeLeaf(f, v)
    ensures var r := ClearLow(f, v, n);
            match v
            case IntVal(x) => r.IntVal? && (n < f.dataSize ==> r.n / Pow2(8 * n) == x / Pow2(8 * n))
            case BytesVal(_, buf) => r.BytesVal? && r.buf == buf
            case StrVal(t) => r.StrVal? && |r.text| == |t| && (n <= |t| ==> r.text[n..] == t[n..])
            case RawVal(t) => r.RawVal? && |r.raw| == |t| && (n <= |t| ==> r.raw[n..] == t[n..])
            case MsgVal(_) => true
  {
    hide Pow2;
    if v.IntVal? {
      HighKept(v.n, Pow2(8 * n));
    }
  }

  lemma {:induction false} HighKept(x: int, m: nat)
    requires m > 0
    ensures (x - x % m) / m == x / m
  {
    ModUnique(x - x % m, m, x / m, 0);
  }
}
