/** When the decoded struct carries the same message as the encoded one.

    Two structs are the same message when the present fields agree: unused array elements, bytes
    behind the end of a string, and the data of absent fields do not count. */
module PbObserve {
  import opened Bits
  import opened PbTypes
  import opened PbMemory
  import opened Prelude
  import opened PbVarint
  import opened PbEncode
  import opened PbDecode
  import opened PbWellFormed
  import opened PbRoundTrip

  predicate SameVal(f: Field, a: Val, b: Val)
    decreases f, 0
  {
    match f.ltype
    case Submsg(fields) => a.MsgVal? && b.MsgVal? && SameMsg(fields, a.slots, b.slots)
    case Bytes => a.BytesVal? && b.BytesVal? && a.size == b.size && a.size <= |a.buf| && b.size <= |b.buf| && a.buf[..a.size] == b.buf[..b.size]
    case Str => a.StrVal? && b.StrVal? && CString(a.text) == CString(b.text)
    case _ => a == b
  }

  predicate SameSlot(f: Field, a: Slot, b: Slot)
    decreases f, 1
  {
    match f.htype
    case Required => a.Plain? && b.Plain? && SameVal(f, a.v, b.v)
    case Optional =>
      if IsSingular(f) then a.Plain? && b.Plain? && SameVal(f, a.v, b.v)
      else a.Opt? && b.Opt? && a.has == b.has && (a.has ==> SameVal(f, a.v, b.v))
    case Repeated =>
      if IsFixedCount(f) then
        a.FixedRep? && b.FixedRep? && |a.items| == |b.items| && forall k :: 0 <= k < |a.items| ==> SameVal(f, a.items[k], b.items[k])
      else
        a.Rep? && b.Rep? && a.count == b.count <= |a.items| && b.count <= |b.items| &&
        forall k :: 0 <= k < a.count ==> SameVal(f, a.items[k], b.items[k])
    case Oneof =>
      a.Union? && b.Union? && (a.which == f.tag <==> b.which == f.tag) && (a.which == f.tag ==> SameVal(f, a.v, b.v))
  }

  predicate SameMsg(fields: seq<Field>, a: Msg, b: Msg)
    decreases fields, 0
  {
    |a| == |b| == SlotCount(fields) &&
    forall i :: 0 <= i < |fields| ==> SlotOf(fields, i) < |a| && SameSlot(fields[i], a[SlotOf(fields, i)], b[SlotOf(fields, i)])
  }

  /** Nothing that the zero test drops differs from the default the decoder puts in its place. */
  predicate LosslessVal(f: Field, base: Val, v: Val)
    decreases f, 0
  {
    match f.ltype
    case Submsg(fields) =>
      base.MsgVal? && v.MsgVal? &&
      LosslessMsg(fields, if f.htype.Repeated? then SetDefaults(fields, base.slots) else base.slots, v.slots)
    case _ => true
  }

  predicate LosslessSlot(f: Field, base: Slot, s: Slot)
    requires ShapeSlot(f, base) && OkSlot(f, s)
    decreases f, 1
  {
    match f.htype
    case Required => LosslessVal(f, base.v, s.v)
    case Optional =>
      if IsSingular(f) then
        (if ProtoZeroVal(f, s.v) then SameVal(f, s.v, base.v) else LosslessVal(f, base.v, s.v))
      else s.has ==> LosslessVal(f, base.v, s.v)
    case Repeated =>
      if IsFixedCount(f) then forall k :: 0 <= k < f.arraySize ==> LosslessVal(f, base.items[k], s.items[k])
      else forall k :: 0 <= k < s.count ==> LosslessVal(f, base.items[k], s.items[k])
    case Oneof => s.which == f.tag ==> LosslessVal(f, UnionInit(f, base.which, base.v), s.v)
  }

  predicate LosslessMsg(fields: seq<Field>, base: Msg, s: Msg)
    decreases fields, 0
  {
    |base| == |s| == SlotCount(fields) &&
    forall i :: 0 <= i < |fields| ==>
      SlotOf(fields, i) < |s| && ShapeSlot(fields[i], base[SlotOf(fields, i)]) && OkSlot(fields[i], s[SlotOf(fields, i)]) &&
      LosslessSlot(fields[i], base[SlotOf(fields, i)], s[SlotOf(fields, i)])
  }

  // ----- where each field lands

  /** Landing field i, and what it does to its slot. */
  lemma {:induction false} Advance(fields: seq<Field>, base: Msg, s: Msg, i: nat) returns (base': Msg)
    requires WfFields(fields) && i < |fields| && ReadyFrom(fields, base, i) && OkMsg(fields, s)
    ensures SlotOf(fields, i) < |base| == |base'| == |s| && ReadyFrom(fields, base', i + 1)
    ensures OkSlot(fields[i], s[SlotOf(fields, i)]) && ShapeSlot(fields[i], base[SlotOf(fields, i)])
    ensures base' == base[SlotOf(fields, i) := LandSlot(fields[i], base[SlotOf(fields, i)], s[SlotOf(fields, i)])]
    ensures LandFrom(fields, base, s, i) == LandFrom(fields, base', s, i + 1)
  {
    hide LandFrom, LandSlot, LateFresh, WfField, ShapeSlot, OkSlot;
    var k := SlotOf(fields, i);
    LandStep(fields, base, s, i);
    ReadyNext(fields, base, s[k], i);
    base' := base[k := LandSlot(fields[i], base[k], s[k])];
  }

  lemma {:induction false} LandUnselected(f: Field, base: Slot, s: Slot)
    requires OkSlot(f, s) && ShapeSlot(f, base) && f.htype.Oneof?
    ensures s.Union? && base.Union?
    ensures LandSlot(f, base, s).Union?
    ensures s.which != f.tag ==> LandSlot(f, base, s) == base
    ensures s.which == f.tag ==> LandSlot(f, base, s).which == f.tag
  {
  }

  /** The members of the slot from field i on are not selected in the union. */
  predicate NoneSelected(fields: seq<Field>, i: nat, k: nat, s: Slot)
  {
    forall j :: i <= j < |fields| && SlotOf(fields, j) == k ==> fields[j].htype.Oneof? && s.Union? && s.which != fields[j].tag
  }

  /** A slot none of whose remaining members is selected keeps its contents. */
  lemma {:induction false} LandKeeps(fields: seq<Field>, base: Msg, s: Msg, i: nat, k: nat)
    requires WfFields(fields) && i <= |fields| && ReadyFrom(fields, base, i) && OkMsg(fields, s) && k < |base| == |s|
    requires NoneSelected(fields, i, k, s[k])
    ensures LandFrom(fields, base, s, i)[k] == base[k]
    decreases |fields| - i
  {
    hide LandSlot, LateFresh, WfField, ShapeSlot, OkSlot, ReadyFrom, OkMsg, WfFields;
    if i < |fields| {
      hide LandFrom;
      var base' := Advance(fields, base, s, i);
      if SlotOf(fields, i) == k {
        LandUnselected(fields[i], base[k], s[k]);
      }
      LandKeeps(fields, base', s, i + 1, k);
    }
  }

  /** A union never comes to select a tag that neither struct selects. */
  lemma {:induction false} LandSelects(fields: seq<Field>, base: Msg, s: Msg, i: nat, k: nat, tag: nat)
    requires WfFields(fields) && i <= |fields| && ReadyFrom(fields, base, i) && OkMsg(fields, s) && k < |base| == |s|
    requires base[k].Union? && s[k].Union? && base[k].which != tag && s[k].which != tag
    requires forall j :: i <= j < |fields| && SlotOf(fields, j) == k ==> fields[j].htype.Oneof?
    ensures LandFrom(fields, base, s, i)[k].Union? && LandFrom(fields, base, s, i)[k].which != tag
    decreases |fields| - i
  {
    hide LandSlot, LateFresh, WfField, ShapeSlot, OkSlot, ReadyFrom, OkMsg, WfFields;
    if i < |fields| {
      hide LandFrom;
      var base' := Advance(fields, base, s, i);
      if SlotOf(fields, i) == k {
        LandUnselected(fields[i], base[k], s[k]);
      }
      LandSelects(fields, base', s, i + 1, k, tag);
    }
  }

  lemma {:induction false} TagsDiffer(fields: seq<Field>, i: nat, j: nat)
    requires WfFields(fields) && i < j < |fields|
    ensures fields[i].tag != fields[j].tag
  {
  }

  /** A field that is not an unselected union member lands exactly once. */
  lemma {:induction false} LandAt(fields: seq<Field>, base: Msg, s: Msg, i: nat, j: nat)
    requires WfFields(fields) && i <= j < |fields| && ReadyFrom(fields, base, i) && OkMsg(fields, s)
    requires SlotOf(fields, j) < |base| == |s|
    requires ShapeSlot(fields[j], base[SlotOf(fields, j)]) && OkSlot(fields[j], s[SlotOf(fields, j)])
    requires fields[j].htype.Oneof? ==> s[SlotOf(fields, j)].which == fields[j].tag
    ensures LandFrom(fields, base, s, i)[SlotOf(fields, j)] ==
            LandSlot(fields[j], base[SlotOf(fields, j)], s[SlotOf(fields, j)])
    decreases |fields| - i
  {
    hide LandFrom, LandSlot, LateFresh, WfField, ShapeSlot, OkSlot, ReadyFrom, OkMsg, WfFields;
    var k := SlotOf(fields, j);
    var base' := Advance(fields, base, s, i);
    if i < j {
      SlotOfShared(fields, i, j);
      TagsDiffer(fields, i, j);
      if SlotOf(fields, i) == k {
        LandUnselected(fields[i], base[k], s[k]);
      }
      LandAt(fields, base', s, i + 1, j);
    } else {
      if fields[j].htype.Oneof? {
        LandUnselected(fields[j], base[k], s[k]);
      }
      forall m | j + 1 <= m < |fields| && SlotOf(fields, m) == k
        ensures fields[m].htype.Oneof? && s[k].Union? && s[k].which != fields[m].tag
      {
        SlotOfShared(fields, j, m);
        TagsDiffer(fields, j, m);
      }
      LandKeeps(fields, base', s, j + 1, k);
    }
  }

  // ----- what lands is the message that was encoded, exactly when nothing is lost

  lemma {:induction false} OverwriteStart(data: seq<byte>, buf: seq<byte>)
    requires |data| <= |buf|
    ensures Overwrite(data, buf)[..|data|] == data
  {
  }

  /** Text stops at its terminator, whatever lies behind. */
  lemma {:induction false} CStringStops(t: seq<byte>, tail: seq<byte>)
    requires forall j :: 0 <= j < |t| ==> t[j] != 0
    ensures CString(t + [0] + tail) == t
  {
    var x := t + [0] + tail;
    if t != [] {
      assert x[1..] == t[1..] + [0] + tail;
      CStringStops(t[1..], tail);
    }
  }

  lemma {:induction false} CStringNonZero(t: seq<byte>)
    ensures forall j :: 0 <= j < |CString(t)| ==> CString(t)[j] != 0
  {
    if t != [] && t[0] != 0 {
      CStringNonZero(t[1..]);
    }
  }

  lemma {:induction false} LeafSame(f: Field, base: Val, v: Val)
    requires WfLeaf(f) && !f.ltype.Submsg? && ShapeLeaf(f, base) && OkLeaf(f, v)
    ensures SameVal(f, v, LandVal(f, base, v))
  {
    if f.ltype.Bytes? {
      OverwriteStart(v.buf[..v.size], base.buf);
    } else if f.ltype.Str? {
      var c := CString(v.text);
      CStringEnds(v.text);
      CStringNonZero(v.text);
      CStringStops(c, base.text[|c| + 1..]);
      assert Overwrite(c + [0], base.text) == c + [0] + base.text[|c| + 1..];
    }
  }

  lemma {:induction false} ValSame(f: Field, base: Val, v: Val)
    requires WfField(f) && ShapeVal(f, base) && OkVal(f, v)
    requires !f.htype.Repeated? ==> FreshSub(f, base)
    ensures SameVal(f, v, LandVal(f, base, v)) <==> LosslessVal(f, base, v)
    decreases f, 0
  {
    match f.ltype
    case Submsg(fields) =>
      SetDefaultsShape(fields, base.slots);
      MsgSame(fields, if f.htype.Repeated? then SetDefaults(fields, base.slots) else base.slots, v.slots);
    case _ => LeafSame(f, base, v);
  }

  lemma {:induction false} ItemsSame(f: Field, base: seq<Val>, items: seq<Val>, count: nat)
    requires WfField(f) && f.htype.Repeated? && count <= |base| == |items|
    requires forall k :: 0 <= k < |base| ==> ShapeVal(f, base[k])
    requires forall k :: 0 <= k < count ==> OkVal(f, items[k])
    ensures (forall k :: 0 <= k < count ==> SameVal(f, items[k], LandItems(f, base, items, count)[k])) <==>
            (forall k :: 0 <= k < count ==> LosslessVal(f, base[k], items[k]))
    decreases f, 1
  {
    hide SameVal, LosslessVal, LandVal, ShapeVal, OkVal;
    var r := LandItems(f, base, items, count);
    forall k | 0 <= k < count ensures SameVal(f, items[k], r[k]) <==> LosslessVal(f, base[k], items[k]) {
      ValSame(f, base[k], items[k]);
      assert r[k] == LandVal(f, base[k], items[k]);
    }
  }

  lemma {:induction false} SlotSame(f: Field, base: Slot, s: Slot)
    requires WfField(f) && ShapeSlot(f, base) && FreshSlot(f, base) && OkSlot(f, s)
    ensures SameSlot(f, s, LandSlot(f, base, s)) <==> LosslessSlot(f, base, s)
    decreases f, 2
  {
    hide SameVal, LosslessVal, LandVal, LandItems, ShapeVal, OkVal, UnionInit;
    match f.htype
    case Required => ValSame(f, base.v, s.v);
    case Optional =>
      if IsSingular(f) {
        if !ProtoZeroVal(f, s.v) {
          ValSame(f, base.v, s.v);
        }
      } else if s.has {
        ValSame(f, base.v, s.v);
      }
    case Repeated => ItemsSame(f, base.items, s.items, if IsFixedCount(f) then f.arraySize else s.count);
    case Oneof =>
      if s.which == f.tag {
        InitReady(f, base);
        ValSame(f, UnionInit(f, base.which, base.v), s.v);
      }
  }

  lemma {:induction false} FieldSame(fields: seq<Field>, base: Msg, s: Msg, i: nat)
    requires WfFields(fields) && ShapeMsg(fields, base) && FreshMsg(fields, base) && OkMsg(fields, s) && i < |fields|
    ensures SlotOf(fields, i) < |s| == |base|
    ensures SameSlot(fields[i], s[SlotOf(fields, i)], LandFrom(fields, base, s, 0)[SlotOf(fields, i)]) <==>
            LosslessSlot(fields[i], base[SlotOf(fields, i)], s[SlotOf(fields, i)])
    decreases fields, 1
  {
    hide SameVal, LosslessVal, LandVal, LandFrom, ShapeVal, OkVal, UnionInit, LandItems;
    var k := SlotOf(fields, i);
    if fields[i].htype.Oneof? && s[k].which != fields[i].tag {
      forall j | 0 <= j < |fields| && SlotOf(fields, j) == k ensures fields[j].htype.Oneof? {
        if j != i {
          SlotOfShared(fields, if j < i then j else i, if j < i then i else j);
        }
      }
      LandSelects(fields, base, s, 0, k, fields[i].tag);
    } else {
      LandAt(fields, base, s, 0, i);
      SlotSame(fields[i], base[k], s[k]);
    }
  }

  lemma {:induction false} MsgSame(fields: seq<Field>, base: Msg, s: Msg)
    requires WfFields(fields) && ShapeMsg(fields, base) && FreshMsg(fields, base) && OkMsg(fields, s)
    ensures SameMsg(fields, s, LandFrom(fields, base, s, 0)) <==> LosslessMsg(fields, base, s)
    decreases fields, 2
  {
    hide SameSlot, LosslessSlot, LandFrom, ShapeSlot, OkSlot;
    var r := LandFrom(fields, base, s, 0);
    forall i | 0 <= i < |fields|
      ensures SlotOf(fields, i) < |s| && ShapeSlot(fields[i], base[SlotOf(fields, i)]) && OkSlot(fields[i], s[SlotOf(fields, i)])
      ensures SameSlot(fields[i], s[SlotOf(fields, i)], r[SlotOf(fields, i)]) <==>
              LosslessSlot(fields[i], base[SlotOf(fields, i)], s[SlotOf(fields, i)])
    {
      FieldSame(fields, base, s, i);
    }
  }

  // ----- descriptors for which nothing is ever lost

  /** The zero test of a singular field holds only of its default: it has no default of its own,
      and inside a submessage the test never meets a fixed-count array. */
  predicate ZeroExact(f: Field)
    decreases f, 0
  {
    f.dflt.None? &&
    match f.ltype
    case Submsg(fields) => forall i :: 0 <= i < |fields| ==> ZeroExactInside(fields[i])
    case _ => true
  }

  predicate ZeroExactInside(f: Field)
    decreases f, 1
  {
    !IsFixedCount(f) && (IsSingular(f) ==> ZeroExact(f))
  }

  predicate Faithful(f: Field)
    decreases f, 1
  {
    (IsSingular(f) ==> ZeroExact(f)) && (f.ltype.Submsg? ==> FaithfulFields(f.ltype.fields))
  }

  predicate FaithfulFields(fields: seq<Field>)
    decreases fields, 0
  {
    forall i :: 0 <= i < |fields| ==> Faithful(fields[i])
  }

  lemma {:induction false} ZeroSame(f: Field, base: Val, v: Val)
    requires WfField(f) && ShapeVal(f, base) && FreshVal(f, base) && OkVal(f, v)
    requires ZeroExact(f) && ProtoZeroVal(f, v)
    ensures SameVal(f, v, base)
    decreases f, 0
  {
    match f.ltype
    case Submsg(fields) =>
      assert FreshMsg(fields, base.slots) && ShapeMsg(fields, base.slots) && OkMsg(fields, v.slots);
      hide ShapeSlot, FreshSlot, OkSlot, SameSlot, ProtoZeroField;
      forall i | 0 <= i < |fields|
        ensures SlotOf(fields, i) < |v.slots|
        ensures SameSlot(fields[i], v.slots[SlotOf(fields, i)], base.slots[SlotOf(fields, i)])
      {
        ZeroEverywhere(fields, v.slots, 0, i);
        assert OkSlot(fields[i], v.slots[SlotOf(fields, i)]);
        assert ShapeSlot(fields[i], base.slots[SlotOf(fields, i)]);
        assert FreshSlot(fields[i], base.slots[SlotOf(fields, i)]);
        ZeroSlotSame(fields[i], base.slots[SlotOf(fields, i)], v.slots[SlotOf(fields, i)]);
      }
    case _ => ZeroLeafSame(f, base, v);
  }

  lemma {:induction false} ZeroLeafSame(f: Field, base: Val, v: Val)
    requires WfField(f) && !f.ltype.Submsg? && base == ZeroVal(f) && OkVal(f, v) && ProtoZeroVal(f, v)
    ensures SameVal(f, v, base)
  {
    if f.ltype.Str? {
      assert CString(v.text) == [];
      assert CString(Zeros(f.dataSize)) == [];
    } else if f.ltype.FixedBytes? {
      assert v.raw == [];
    }
  }

  lemma {:induction false} ZeroEverywhere(fields: seq<Field>, st: Msg, lo: nat, i: nat)
    requires lo <= i < |fields| && ProtoZeroFrom(fields, st, lo)
    ensures SlotOf(fields, i) < |st| && ProtoZeroField(fields[i], st[SlotOf(fields, i)])
    decreases i - lo
  {
    if lo < i {
      ZeroEverywhere(fields, st, lo + 1, i);
    }
  }

  lemma {:induction false} ZeroSlotSame(f: Field, base: Slot, s: Slot)
    requires WfField(f) && ShapeSlot(f, base) && FreshSlot(f, base) && OkSlot(f, s)
    requires ZeroExactInside(f) && ProtoZeroField(f, s)
    ensures SameSlot(f, s, base)
    decreases f, 1
  {
    if IsSingular(f) {
      ZeroSame(f, base.v, s.v);
    }
  }

  lemma {:induction false} LosslessValAlways(f: Field, base: Val, v: Val)
    requires WfField(f) && ShapeVal(f, base) && OkVal(f, v) && Faithful(f)
    requires !f.htype.Repeated? ==> FreshSub(f, base)
    ensures LosslessVal(f, base, v)
    decreases f, 0
  {
    match f.ltype
    case Submsg(fields) =>
      SetDefaultsShape(fields, base.slots);
      LosslessAlways(fields, if f.htype.Repeated? then SetDefaults(fields, base.slots) else base.slots, v.slots);
    case _ =>
  }

  lemma {:induction false} LosslessSlotAlways(f: Field, base: Slot, s: Slot)
    requires WfField(f) && ShapeSlot(f, base) && FreshSlot(f, base) && OkSlot(f, s) && Faithful(f)
    ensures LosslessSlot(f, base, s)
    decreases f, 1
  {
    hide SameVal, LosslessVal, ShapeVal, OkVal, UnionInit, ProtoZeroVal;
    if f.htype.Repeated? {
      var count := if IsFixedCount(f) then f.arraySize else s.count;
      forall k | 0 <= k < count ensures LosslessVal(f, base.items[k], s.items[k]) {
        LosslessValAlways(f, base.items[k], s.items[k]);
      }
    } else if f.htype.Oneof? {
      if s.which == f.tag {
        InitReady(f, base);
        LosslessValAlways(f, UnionInit(f, base.which, base.v), s.v);
      }
    } else if IsSingular(f) && ProtoZeroVal(f, s.v) {
      ZeroSame(f, base.v, s.v);
    } else if s.Plain? || s.has {
      LosslessValAlways(f, base.v, s.v);
    }
  }

  lemma {:induction false} LosslessAlways(fields: seq<Field>, base: Msg, s: Msg)
    requires WfFields(fields) && ShapeMsg(fields, base) && FreshMsg(fields, base) && OkMsg(fields, s) && FaithfulFields(fields)
    ensures LosslessMsg(fields, base, s)
    decreases fields, 2
  {
    hide ShapeSlot, OkSlot, FreshSlot, LosslessSlot;
    forall i | 0 <= i < |fields|
      ensures SlotOf(fields, i) < |s| && ShapeSlot(fields[i], base[SlotOf(fields, i)]) && OkSlot(fields[i], s[SlotOf(fields, i)])
      ensures LosslessSlot(fields[i], base[SlotOf(fields, i)], s[SlotOf(fields, i)])
    {
      LosslessSlotAlways(fields[i], base[SlotOf(fields, i)], s[SlotOf(fields, i)]);
    }
  }

  // ----- the encoder does not fail on these structs

  lemma {:induction false} EncodesVal(f: Field, v: Val)
    requires WfField(f) && OkVal(f, v)
    ensures EncVal(f, v).Some?
    decreases f, 0
  {
    match f.ltype
    case Submsg(fields) => Encodes(fields, v.slots);
    case _ => EncodesLeaf(f, v);
  }

  lemma {:induction false} EncodesLeaf(f: Field, v: Val)
    requires WfLeaf(f) && OkLeaf(f, v) && !f.ltype.Submsg?
    ensures EncLeaf(f, v).Some?
  {
    hide EncVarint, CString, Pow2;
    if f.ltype.SVarint? {
      SignedRoundTrip(v.n, f.dataSize);
    }
  }

  lemma {:induction false} EncodesPacked(f: Field, items: seq<Val>, lo: nat, hi: nat)
    requires WfField(f) && Packable(f.ltype) && lo <= hi <= |items| && forall k :: lo <= k < hi ==> OkVal(f, items[k])
    ensures EncPacked(f, items, lo, hi).Some?
    decreases hi - lo
  {
    hide EncLeaf;
    if lo < hi {
      assert OkVal(f, items[lo]);
      EncodesLeaf(f, items[lo]);
      EncodesPacked(f, items, lo + 1, hi);
    }
  }

  lemma {:induction false} EncodesRepeated(f: Field, items: seq<Val>, lo: nat, hi: nat)
    requires WfField(f) && lo <= hi <= |items| && forall k :: lo <= k < hi ==> OkVal(f, items[k])
    ensures EncRepeated(f, items, lo, hi).Some?
    decreases f, 1, hi - lo
  {
    hide EncVal, OkVal;
    if lo < hi {
      EncodesVal(f, items[lo]);
      EncodesRepeated(f, items, lo + 1, hi);
    }
  }

  lemma {:induction false} EncodesField(f: Field, s: Slot)
    requires WfField(f) && OkSlot(f, s)
    ensures EncField(f, s).Some?
    decreases f, 2
  {
    hide EncVal, OkVal, EncRepeated, EncPacked;
    if f.htype.Repeated? {
      var count := if IsFixedCount(f) then f.arraySize else s.count;
      if Packable(f.ltype) {
        EncodesPacked(f, s.items, 0, count);
      } else {
        EncodesRepeated(f, s.items, 0, count);
      }
    } else if f.htype.Required? || (f.htype.Oneof? && s.which == f.tag) || IsSingular(f) {
      EncodesVal(f, s.v);
    } else if s.Opt? && s.has {
      EncodesVal(f, s.v);
    }
  }

  lemma {:induction false} EncodesFrom(fields: seq<Field>, s: Msg, i: nat)
    requires WfFields(fields) && OkMsg(fields, s) && i <= |fields|
    ensures EncFrom(fields, s, i).Some?
    decreases fields, 3, |fields| - i
  {
    hide OkSlot, EncField;
    if i < |fields| {
      EncodesField(fields[i], s[SlotOf(fields, i)]);
      EncodesFrom(fields, s, i + 1);
    }
  }

  /** pb_encode into a stream with room succeeds on every struct whose contents are in range. */
  lemma {:induction false} Encodes(fields: seq<Field>, s: Msg)
    requires WfFields(fields) && OkMsg(fields, s)
    ensures EncMsg(fields, s).Some?
    decreases fields, 4
  {
    EncodesFrom(fields, s, 0);
  }

  // ----- main results

  /** Decoding an encoding succeeds, consumes every byte, and yields the encoded message exactly
      when no singular field that the zero test drops differs from its default. */
  lemma {:induction false} RoundTripExact(fields: seq<Field>, dest: Msg, s: Msg)
    requires WfFields(fields) && ShapeMsg(fields, dest) && OkMsg(fields, s)
    requires EncMsg(fields, s).Some? ==> |EncMsg(fields, s).value| < TWO_32
    ensures EncMsg(fields, s).Some?
    ensures var d := Decode(fields, dest, EncMsg(fields, s).value);
            d.Good? && d.rest == [] && (SameMsg(fields, s, d.v) <==> LosslessMsg(fields, SetDefaults(fields, dest), s))
  {
    Encodes(fields, s);
    RoundTrip(fields, dest, s);
    SetDefaultsShape(fields, dest);
    MsgSame(fields, SetDefaults(fields, dest), s);
  }

  /** For descriptors whose zero tests are exact the round trip never loses anything. */
  lemma {:induction false} RoundTripSame(fields: seq<Field>, dest: Msg, s: Msg)
    requires WfFields(fields) && FaithfulFields(fields) && ShapeMsg(fields, dest) && OkMsg(fields, s)
    requires EncMsg(fields, s).Some? ==> |EncMsg(fields, s).value| < TWO_32
    ensures EncMsg(fields, s).Some?
    ensures var d := Decode(fields, dest, EncMsg(fields, s).value);
            d.Good? && d.rest == [] && SameMsg(fields, s, d.v)
  {
    RoundTripExact(fields, dest, s);
    SetDefaultsShape(fields, dest);
    LosslessAlways(fields, SetDefaults(fields, dest), s);
  }

  // ----- the two ways in which something is lost

  /** A proto3 singular field with a default of 5, and the message that holds 0. */
  function DefaultedDescriptor(): seq<Field>
  {
    [Field(1, Fixed32, Optional, 0, 0, 4, 0, Some(IntVal(5)))]
  }

  lemma {:induction false} DefaultIsLost(dest: Msg)
    requires ShapeMsg(DefaultedDescriptor(), dest)
    ensures EncMsg(DefaultedDescriptor(), [Plain(IntVal(0))]) == Some([])
    ensures Decode(DefaultedDescriptor(), dest, []) == Good([Plain(IntVal(5))], [])
  {
    var d := DefaultedDescriptor();
    var s := [Plain(IntVal(0))];
    assert EncField(d[0], s[0]) == Some([]);
    assert EncFrom(d, s, 1) == Some([]);
    var none: seq<byte> := [];
    assert none + none == none;
    assert SetDefaults(d, dest) == DefaultsFrom(d, dest[0 := Plain(IntVal(5))], 1) == [Plain(IntVal(5))];
    assert RequiredBefore(d, 1) == 0;
    var st: Msg := [Plain(IntVal(5))];
    assert Loop(d, Start(st), []) == LoopEnd(Start(st), [], false);
    assert RequiredSeen(d, {});
    assert DecMsg(d, st, []) == Good(st, []);
  }

  /** A singular submessage holding a fixed-count array of two words. */
  function FixedCountDescriptor(): seq<Field>
  {
    [Field(1, Submsg(WordsDescriptor()), Optional, 0, 0, 8, 0, None)]
  }

  function WordsDescriptor(): seq<Field>
  {
    [Field(1, Fixed32, Repeated, 0, 0, 4, 2, None)]
  }

  function Words(x: int, y: int): Msg
  {
    [Plain(MsgVal([FixedRep([IntVal(x), IntVal(y)])]))]
  }

  /** The zero test takes the first word of the array for its count: [0, y] is not written. */
  lemma {:induction false} FixedCountIsLost(y: int)
    requires 0 <= y < TWO_32
    ensures WfFields(FixedCountDescriptor()) && OkMsg(FixedCountDescriptor(), Words(0, y))
    ensures EncMsg(FixedCountDescriptor(), Words(0, y)) == Some([])
  {
    WordsOk(0, y);
    WordsTestZero(y);
    var d, s := FixedCountDescriptor(), Words(0, y);
    hide WfFields, OkMsg, ProtoZeroVal;
    assert EncField(d[0], s[0]) == Some([]);
    assert EncFrom(d, s, 1) == Some([]);
    var none: seq<byte> := [];
    assert none + none == none;
  }

  lemma {:induction false} WordsOk(x: int, y: int)
    requires 0 <= x < TWO_32 && 0 <= y < TWO_32
    ensures WfFields(FixedCountDescriptor()) && OkMsg(FixedCountDescriptor(), Words(x, y))
  {
    var d, inner := FixedCountDescriptor(), WordsDescriptor();
    Pow2Is64();
    hide Pow2;
    var items := [IntVal(x), IntVal(y)];
    forall k | 0 <= k < 2 ensures OkVal(inner[0], items[k]) {
      assert OkLeaf(inner[0], items[k]);
    }
    assert OkSlot(inner[0], FixedRep(items));
    assert OkMsg(inner, [FixedRep(items)]);
    assert OkVal(d[0], MsgVal([FixedRep(items)]));
    assert WfField(inner[0]);
    assert WfFields(inner);
    var s := Words(x, y);
    assert SlotCount(d) == 1 == |s| && SlotOf(d, 0) == 0;
    assert OkSlot(d[0], s[0]);
    forall i | 0 <= i < |d| ensures SlotOf(d, i) < |s| && OkSlot(d[i], s[SlotOf(d, i)]) {
      assert i == 0;
    }
  }

  lemma {:induction false} WordsTestZero(y: int)
    ensures ProtoZeroVal(FixedCountDescriptor()[0], Words(0, y)[0].v)
  {
    var inner, items := WordsDescriptor(), [IntVal(0), IntVal(y)];
    assert LowZero(inner[0], items[0], 4);
    assert CountWordZero(inner[0], items);
    assert ProtoZeroFrom(inner, [FixedRep(items)], 1);
    assert ProtoZeroFrom(inner, [FixedRep(items)], 0);
  }

  /** A singular submessage holding a fixed-count array of two submessages of one word. */
  function PointsDescriptor(): seq<Field>
  {
    [Field(1, Submsg([Field(1, Submsg(PointDescriptor()), Repeated, 0, 0, 4, 2, None)]), Optional, 0, 0, 8, 0, None)]
  }

  function PointDescriptor(): seq<Field>
  {
    [Field(1, Fixed32, Required, 0, 0, 4, 0, None)]
  }

  function Point(x: int): Val
  {
    MsgVal([Plain(IntVal(x))])
  }

  function Points(x: int, y: int): Msg
  {
    [Plain(MsgVal([FixedRep([Point(x), Point(y)])]))]
  }

  /** With submessages for elements the word is the first member of the first of them: the array
      is written exactly if that member is not zero. */
  lemma {:induction false} FirstMemberDecides(x: int, y: int)
    requires 0 <= x < TWO_32 && 0 <= y < TWO_32
    ensures WfFields(PointsDescriptor()) && OkMsg(PointsDescriptor(), Points(x, y))
    ensures EncMsg(PointsDescriptor(), Points(x, y)) == Some([]) <==> x == 0
  {
    var d, s := PointsDescriptor(), Points(x, y);
    PointsWf();
    PointsOk(x, y);
    PointsTest(x, y);
    Encodes(d, s);
    hide WfFields, OkMsg, ProtoZeroVal, EncTagged;
    EncTaggedNonEmpty(d[0], s[0].v);
    assert EncFrom(d, s, 1) == Some([]);
    assert EncMsg(d, s) == Cat(EncField(d[0], s[0]), EncFrom(d, s, 1));
    assert EncField(d[0], s[0]) == if x == 0 then Some([]) else EncTagged(d[0], s[0].v);
    var none: seq<byte> := [];
    assert none + none == none;
  }

  lemma {:induction false} PointsWf()
    ensures WfFields(PointsDescriptor())
  {
    var f := PointsDescriptor()[0].ltype.fields[0];
    var point := PointDescriptor();
    assert WfField(point[0]);
    assert WfFields(point);
    forall p: nat | p < PB_SIZE_BYTES ensures DataByte(f, p) {
      assert DataByte(point[0], p);
      assert MemberByte(point[0], DataOffset(point, 0), p);
    }
    assert WfField(f);
    assert WfFields(PointsDescriptor()[0].ltype.fields);
  }

  lemma {:induction false} PointOk(x: int)
    requires 0 <= x < TWO_32
    ensures OkMsg(PointDescriptor(), Point(x).slots)
  {
    Pow2Is64();
    hide Pow2;
    assert OkLeaf(PointDescriptor()[0], IntVal(x));
  }

  lemma {:induction false} PointsOk(x: int, y: int)
    requires 0 <= x < TWO_32 && 0 <= y < TWO_32
    ensures OkMsg(PointsDescriptor(), Points(x, y))
  {
    var d := PointsDescriptor();
    var inner, items := d[0].ltype.fields, [Point(x), Point(y)];
    PointOk(x);
    PointOk(y);
    forall k | 0 <= k < 2 ensures OkVal(inner[0], items[k]) {
    }
    assert OkSlot(inner[0], FixedRep(items));
    assert OkMsg(inner, [FixedRep(items)]);
    assert OkSlot(d[0], Points(x, y)[0]);
  }

  lemma {:induction false} PointsTest(x: int, y: int)
    requires 0 <= x < TWO_32
    ensures ProtoZeroVal(PointsDescriptor()[0], Points(x, y)[0].v) <==> x == 0
  {
    var d, point := PointsDescriptor(), PointDescriptor();
    var inner, items := d[0].ltype.fields, [Point(x), Point(y)];
    Pow2Is64();
    hide Pow2;
    assert MembersZero(point, [Plain(IntVal(x))], 1, 4);
    assert MembersZero(point, [Plain(IntVal(x))], 0, 4) <==> LowZero(point[0], IntVal(x), 4);
    assert LowZero(inner[0], items[0], 4) <==> x == 0;
    assert CountWordZero(inner[0], items) <==> LowZero(inner[0], items[0], 4);
    assert ProtoZeroFrom(inner, [FixedRep(items)], 1);
    assert ProtoZeroFrom(inner, [FixedRep(items)], 0) <==> CountWordZero(inner[0], items);
  }
}
