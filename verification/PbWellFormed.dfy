/** Well-formed descriptors, structs laid out by them, and the structs pb_encode is meant for. */
module PbWellFormed {
  import opened Bits
  import opened PbTypes
  import opened PbMemory
  import opened PbEncode
  import opened PbDecode

  const TAG_LIMIT := 0x2000_0000

  // ----- descriptors

  predicate WfLeaf(f: Field)
  {
    match f.ltype
    case Varint => IsIntSize(f.dataSize)
    case UVarint => IsIntSize(f.dataSize)
    case SVarint => IsIntSize(f.dataSize)
    case Fixed32 => f.dataSize == 4
    case Fixed64 => f.dataSize == 8
    case Bytes => PB_SIZE_BYTES <= f.dataSize <= PB_SIZE_MAX
    case Str => f.dataSize <= PB_SIZE_MAX
    case FixedBytes => f.dataSize <= PB_SIZE_MAX
    case Submsg(_) => true
  }

  /** Both passes take a fixed-count array for its own count: it must not end before that count
      does, nor may the zero test read padding, about which the descriptor says nothing. */
  predicate WfField(f: Field)
    decreases f, 1
  {
    && 1 <= f.tag < TAG_LIMIT
    && WfLeaf(f)
    && (f.htype.Oneof? ==> f.sizeOffset != 0)
    && (f.dflt.Some? ==> !f.ltype.Submsg? && ShapeLeaf(f, f.dflt.value))
    && (f.ltype.Submsg? ==> WfFields(f.ltype.fields))
    && (IsFixedCount(f) ==> FieldBytes(f) >= PB_SIZE_BYTES)
    && (IsSingular(f) && f.ltype.Submsg? ==> CountWordsKnown(f.ltype.fields))
  }

  /** Distinct tags and well-formed fields, at every depth. */
  predicate WfFields(fields: seq<Field>)
    decreases fields, 0
  {
    && (forall i :: 0 <= i < |fields| ==> WfField(fields[i]))
    && DistinctTags(fields)
  }

  predicate DistinctTags(fields: seq<Field>)
  {
    forall i, j :: 0 <= i < j < |fields| ==> fields[i].tag != fields[j].tag
  }

  // ----- the layout of structs

  predicate IntFits(l: LType, size: nat, n: int)
  {
    var bound: int := Pow2(8 * size);
    if l.Varint? || l.SVarint? then -bound <= 2 * n < bound else 0 <= n < bound
  }

  predicate ShapeLeaf(f: Field, v: Val)
  {
    match f.ltype
    case Bytes => v.BytesVal? && |v.buf| == f.dataSize - PB_SIZE_BYTES
    case Str => v.StrVal? && |v.text| == f.dataSize
    case FixedBytes => v.RawVal? && |v.raw| == f.dataSize
    case Submsg(_) => false
    case _ => v.IntVal? && IntFits(f.ltype, f.dataSize, v.n)
  }

  predicate ShapeVal(f: Field, v: Val)
    decreases f, 0
  {
    match f.ltype
    case Submsg(fields) => v.MsgVal? && ShapeMsg(fields, v.slots)
    case _ => ShapeLeaf(f, v)
  }

  predicate ShapeSlot(f: Field, s: Slot)
    decreases f, 1
  {
    match f.htype
    case Required => s.Plain? && ShapeVal(f, s.v)
    case Optional => if IsSingular(f) then s.Plain? && ShapeVal(f, s.v) else s.Opt? && ShapeVal(f, s.v)
    case Repeated =>
      if IsFixedCount(f) then s.FixedRep? && |s.items| == f.arraySize && forall k :: 0 <= k < |s.items| ==> ShapeVal(f, s.items[k])
      else s.Rep? && |s.items| == f.arraySize && forall k :: 0 <= k < |s.items| ==> ShapeVal(f, s.items[k])
    case Oneof => s.Union? && (s.which == f.tag ==> ShapeVal(f, s.v))
  }

  /** A struct with the slots its descriptor asks for; the contents are arbitrary. */
  predicate ShapeMsg(fields: seq<Field>, st: Msg)
    decreases fields, 0
  {
    && |st| == SlotCount(fields)
    && forall i :: 0 <= i < |fields| ==> SlotOf(fields, i) < |st| && ShapeSlot(fields[i], st[SlotOf(fields, i)])
  }

  // ----- the structs a caller may encode

  predicate OkLeaf(f: Field, v: Val)
  {
    ShapeLeaf(f, v) &&
    match f.ltype
    case Bytes => v.size <= |v.buf|
    case Str => 0 in v.text
    case _ => true
  }

  predicate OkVal(f: Field, v: Val)
    decreases f, 0
  {
    match f.ltype
    case Submsg(fields) => v.MsgVal? && OkMsg(fields, v.slots)
    case _ => OkLeaf(f, v)
  }

  predicate OkSlot(f: Field, s: Slot)
    decreases f, 1
  {
    match f.htype
    case Required => s.Plain? && OkVal(f, s.v)
    case Optional => if IsSingular(f) then s.Plain? && OkVal(f, s.v) else s.Opt? && (s.has ==> OkVal(f, s.v))
    case Repeated =>
      if IsFixedCount(f) then s.FixedRep? && |s.items| == f.arraySize && forall k :: 0 <= k < |s.items| ==> OkVal(f, s.items[k])
      else s.Rep? && |s.items| == f.arraySize && s.count <= f.arraySize && forall k :: 0 <= k < s.count ==> OkVal(f, s.items[k])
    case Oneof => s.Union? && (s.which == f.tag ==> OkVal(f, s.v))
  }

  /** What is present in the struct is in range: counts within the arrays, byte strings within
      their buffers, text NUL-terminated. */
  predicate OkMsg(fields: seq<Field>, st: Msg)
    decreases fields, 0
  {
    && |st| == SlotCount(fields)
    && forall i :: 0 <= i < |fields| ==> SlotOf(fields, i) < |st| && OkSlot(fields[i], st[SlotOf(fields, i)])
  }

  // ----- structs fresh from pb_message_set_to_defaults

  function LeafDefault(f: Field): Val
  {
    if f.dflt.Some? then f.dflt.value else ZeroVal(f)
  }

  predicate FreshSub(f: Field, v: Val)
    decreases f, 0
  {
    f.ltype.Submsg? ==> v.MsgVal? && FreshMsg(f.ltype.fields, v.slots)
  }

  predicate FreshVal(f: Field, v: Val)
    decreases f, 1
  {
    FreshSub(f, v) && (!f.ltype.Submsg? ==> v == LeafDefault(f))
  }

  predicate FreshSlot(f: Field, s: Slot)
    decreases f, 2
  {
    match s
    case Plain(v) => FreshVal(f, v)
    case Opt(has, v) => !has && FreshVal(f, v)
    case Rep(count, _) => count == 0
    case FixedRep(_) => true
    case Union(which, _) => which == 0
  }

  predicate FreshMsg(fields: seq<Field>, st: Msg)
    decreases fields, 0
  {
    forall i :: 0 <= i < |fields| && SlotOf(fields, i) < |st| ==> FreshSlot(fields[i], st[SlotOf(fields, i)])
  }

  // ----- zeroed and defaulted structs

  lemma {:induction false} ZeroValShape(f: Field)
    requires WfField(f)
    ensures ShapeVal(f, ZeroVal(f))
    decreases f, 0
  {
    match f.ltype
    case Submsg(fields) => ZeroMsgShape(fields);
    case _ =>
  }

  lemma {:induction false} ZeroSlotsAt(fields: seq<Field>, n: nat, s: nat)
    requires s < n && FirstWithSlot(fields, s, 0).Some?
    ensures ZeroSlots(fields, n)[s] == ZeroSlot(fields[FirstWithSlot(fields, s, 0).value])
  {
    hide FirstWithSlot, ZeroSlot;
    if s < n - 1 {
      ZeroSlotsAt(fields, n - 1, s);
    }
  }

  /** The slot of a union in zeroed memory selects no member. */
  lemma {:induction false} ZeroFieldShape(fields: seq<Field>, n: nat, i: nat)
    requires WfFields(fields) && i < |fields| && SlotOf(fields, i) < n
    ensures ShapeSlot(fields[i], ZeroSlots(fields, n)[SlotOf(fields, i)])
    decreases fields, 0
  {
    hide FirstWithSlot, ZeroSlot, ZeroSlots, ShapeSlot, WfField;
    var s := SlotOf(fields, i);
    FirstWithSlotFinds(fields, s, 0, i);
    ZeroSlotsAt(fields, n, s);
    var k := FirstWithSlot(fields, s, 0).value;
    if k != i {
      SlotOfShared(fields, if k < i then k else i, if k < i then i else k);
    }
    ZeroSlotShape(fields[i], fields[k]);
  }

  /** The zeroed slot of g, seen by f: itself, or another member of one union. */
  lemma {:induction false} ZeroSlotShape(f: Field, g: Field)
    requires WfField(f) && (f == g || (f.htype.Oneof? && g.htype.Oneof?))
    ensures ShapeSlot(f, ZeroSlot(g))
    decreases f, 1
  {
    hide ShapeVal, ZeroVal;
    if f == g {
      ZeroValShape(f);
    }
  }

  lemma {:induction false} FirstWithSlotFinds(fields: seq<Field>, s: nat, lo: nat, i: nat)
    requires lo <= i < |fields| && SlotOf(fields, i) == s
    ensures FirstWithSlot(fields, s, lo).Some?
    decreases i - lo
  {
    if SlotOf(fields, lo) != s {
      FirstWithSlotFinds(fields, s, lo + 1, i);
    }
  }

  lemma {:induction false} ZeroMsgShape(fields: seq<Field>)
    requires WfFields(fields)
    ensures ShapeMsg(fields, ZeroSlots(fields, SlotCount(fields)))
    decreases fields, 1
  {
    hide ShapeSlot, ZeroSlots, WfFields;
    forall i | 0 <= i < |fields|
      ensures SlotOf(fields, i) < SlotCount(fields)
      ensures ShapeSlot(fields[i], ZeroSlots(fields, SlotCount(fields))[SlotOf(fields, i)])
    {
      SlotOfBound(fields, i);
      ZeroFieldShape(fields, SlotCount(fields), i);
    }
  }

  lemma {:induction false} DefaultValShape(f: Field, v: Val)
    requires WfField(f) && ShapeVal(f, v)
    ensures ShapeVal(f, DefaultVal(f, v)) && FreshVal(f, DefaultVal(f, v))
    decreases f, 0
  {
    match f.ltype
    case Submsg(fields) => SetDefaultsShape(fields, v.slots);
    case _ => ZeroValShape(f);
  }

  lemma {:induction false} ClearedInt(l: LType, size: nat, x: int, n: nat)
    requires IntFits(l, size, x) && n < size
    ensures IntFits(l, size, x - x % Pow2(8 * n))
  {
    var m, q := Pow2(8 * n), Pow2(8 * (size - n) - 1);
    Pow2Add(8 * n, 8 * (size - n) - 1);
    Pow2Step(8 * size - 1);
    assert Pow2(8 * size) == 2 * (q * m);
    hide Pow2;
    if x >= 0 {
      ModAtMost(x, m);
    } else {
      Floor(x, m, q);
    }
  }

  /** Rounding down to a multiple of m does not cross the multiple -(q * m). */
  lemma {:induction false} Floor(x: int, m: nat, q: nat)
    requires m > 0 && x >= -(q * m)
    ensures x - x % m >= -(q * m)
  {
    var y := x + q * m;
    ModShift(x, m, q);
    ModAtMost(y, m);
  }

  /** Zeroing the first n bytes of a value leaves a value of its type. */
  lemma {:induction false} ClearedShape(f: Field, v: Val, n: nat)
    requires WfField(f) && ShapeVal(f, v)
    ensures ShapeVal(f, ClearLow(f, v, n))
    decreases f, 0
  {
    hide Pow2, ShapeMsg, ClearMembers;
    if f.ltype.Submsg? {
      ClearedMembers(f.ltype.fields, v.slots, 0, n);
    } else if v.IntVal? && n < f.dataSize {
      ClearedInt(f.ltype, f.dataSize, v.n, n);
    }
  }

  lemma {:induction false} ClearedSlot(f: Field, s: Slot, at: nat, n: nat)
    requires WfField(f) && ShapeSlot(f, s)
    ensures ShapeSlot(f, ClearSlot(f, s, at, n))
    decreases f, 1
  {
    hide ShapeVal, ClearLow, SizeOverlap, Pow2;
    match s
    case Plain(v) => ClearedShape(f, v, if at < n then n - at else 0);
    case Opt(_, v) => ClearedShape(f, v, if at < n then n - at else 0);
    case Rep(_, items) => ClearedItems(f, items, at, n);
    case FixedRep(items) => ClearedItems(f, items, at, n);
    case Union(_, _) =>
  }

  lemma {:induction false} ClearedItems(f: Field, items: seq<Val>, at: nat, n: nat)
    requires WfField(f) && forall k :: 0 <= k < |items| ==> ShapeVal(f, items[k])
    ensures forall k :: 0 <= k < |items| ==> ShapeVal(f, ClearItems(f, items, at, n)[k])
    decreases f, 1, 0
  {
    hide ShapeVal, ClearLow;
    forall k | 0 <= k < |items| ensures ShapeVal(f, ClearItems(f, items, at, n)[k]) {
      if at + k * f.dataSize < n {
        ClearedShape(f, items[k], n - at - k * f.dataSize);
      }
    }
  }

  /** Clearing one member leaves the others as they were, or their shared union unselected. */
  lemma {:induction false} ClearedOther(fields: seq<Field>, st: Msg, i: nat, j: nat, n: nat)
    requires WfFields(fields) && ShapeMsg(fields, st) && i < |fields| && j < |fields|
    ensures var k := SlotOf(fields, i);
            var st' := st[k := ClearSlot(fields[i], st[k], DataOffset(fields, i), n)];
            ShapeSlot(fields[j], st'[SlotOf(fields, j)])
    decreases fields, 0, 0
  {
    assert WfField(fields[j]) && fields[j].tag != 0;
    hide ShapeSlot, ClearSlot, WfField, SlotOf, DataOffset;
    var k := SlotOf(fields, i);
    ClearedSlot(fields[i], st[k], DataOffset(fields, i), n);
    if j != i {
      SlotOfShared(fields, if j < i then j else i, if j < i then i else j);
      if SlotOf(fields, j) == k {
        ClearedUnion(fields[i], fields[j], st[k], DataOffset(fields, i), n);
      }
    }
  }

  lemma {:induction false} ClearedUnion(f: Field, g: Field, s: Slot, at: nat, n: nat)
    requires f.htype.Oneof? && g.htype.Oneof? && g.tag != 0 && ShapeSlot(g, s)
    ensures ShapeSlot(g, ClearSlot(f, s, at, n))
  {
    hide ShapeVal, SizeOverlap, Pow2;
  }

  lemma {:induction false} ClearedMembers(fields: seq<Field>, st: Msg, i: nat, n: nat)
    requires WfFields(fields) && ShapeMsg(fields, st) && i <= |fields|
    ensures ShapeMsg(fields, ClearMembers(fields, st, i, n))
    decreases fields, 0, |fields| - i + 1
  {
    hide ShapeSlot, ClearSlot, WfField, SlotOf, SlotCount, DistinctTags, DataOffset;
    if i < |fields| {
      var k := SlotOf(fields, i);
      var st' := st[k := ClearSlot(fields[i], st[k], DataOffset(fields, i), n)];
      forall j | 0 <= j < |fields| ensures ShapeSlot(fields[j], st'[SlotOf(fields, j)]) {
        ClearedOther(fields, st, i, j, n);
      }
      ClearedMembers(fields, st', i + 1, n);
    }
  }

  lemma {:induction false} DefaultSlotShape(f: Field, s: Slot)
    requires WfField(f) && ShapeSlot(f, s)
    ensures ShapeSlot(f, DefaultSlot(f, s)) && FreshSlot(f, DefaultSlot(f, s))
    ensures DefaultSlot(f, s).Union? ==> DefaultSlot(f, s).which == 0
    decreases f, 1
  {
    match s
    case Plain(v) => DefaultValShape(f, v);
    case Opt(_, v) => DefaultValShape(f, v);
    case Rep(_, items) =>
    case FixedRep(items) => ClearedItems(f, items, 0, PB_SIZE_BYTES);
    case Union(_, v) =>
  }

  /** After pb_message_set_to_defaults a struct keeps its layout and is fresh at every depth. */
  lemma {:induction false} SetDefaultsShape(fields: seq<Field>, st: Msg)
    requires WfFields(fields) && ShapeMsg(fields, st)
    ensures ShapeMsg(fields, SetDefaults(fields, st)) && FreshMsg(fields, SetDefaults(fields, st))
    decreases fields, 1
  {
    DefaultsFromShape(fields, st, 0);
  }

  /** Defaulting field i leaves every other field as it was, or its shared union unselected. */
  lemma {:induction false} DefaultedOther(fields: seq<Field>, st: Msg, i: nat, j: nat)
    requires WfFields(fields) && ShapeMsg(fields, st) && i < |fields| && j < |fields|
    ensures var st' := st[SlotOf(fields, i) := DefaultSlot(fields[i], st[SlotOf(fields, i)])];
            ShapeSlot(fields[j], st'[SlotOf(fields, j)]) &&
            (j == i || FreshSlot(fields[j], st[SlotOf(fields, j)]) ==> FreshSlot(fields[j], st'[SlotOf(fields, j)]))
    decreases fields, 0, 0
  {
    hide ShapeVal, FreshVal, DefaultSlot;
    DefaultSlotShape(fields[i], st[SlotOf(fields, i)]);
    if j != i {
      SlotOfShared(fields, if j < i then j else i, if j < i then i else j);
    }
  }

  lemma {:induction false} DefaultsFromShape(fields: seq<Field>, st: Msg, i: nat)
    requires WfFields(fields) && ShapeMsg(fields, st) && i <= |fields|
    requires forall j :: 0 <= j < i ==> FreshSlot(fields[j], st[SlotOf(fields, j)])
    ensures ShapeMsg(fields, DefaultsFrom(fields, st, i)) && FreshMsg(fields, DefaultsFrom(fields, st, i))
    decreases fields, 0, |fields| - i
  {
    hide ShapeSlot, FreshSlot, DefaultSlot, WfField, SlotOf, SlotCount, DistinctTags;
    if i < |fields| {
      var s := SlotOf(fields, i);
      DefaultSlotShape(fields[i], st[s]);
      var st' := st[s := DefaultSlot(fields[i], st[s])];
      forall j | 0 <= j < |fields|
        ensures ShapeSlot(fields[j], st'[SlotOf(fields, j)])
        ensures j <= i ==> FreshSlot(fields[j], st'[SlotOf(fields, j)])
      {
        DefaultedOther(fields, st, i, j);
      }
      DefaultsFromShape(fields, st', i + 1);
    }
  }
}
