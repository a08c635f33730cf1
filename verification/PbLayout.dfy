/** Decoding keeps the layout of the destination: whatever the bytes, an accepted message leaves
    every value in the range of its type and every buffer and array at its size. */
module PbLayout {
  import opened Bits
  import opened PbTypes
  import opened Prelude
  import opened PbVarint
  import opened PbEncode
  import opened PbDecode
  import opened PbWellFormed

  lemma {:induction false} NarrowFits(x: int, size: nat)
    requires IsIntSize(size) && Narrow(x, size) == x
    ensures IntFits(Varint, size, x)
  {
    var p := Pow2(8 * size);
    assert x == x % p || x == x % p - p;
  }

  lemma {:induction false} UNarrowFits(x: int, size: nat)
    requires x % Pow2(8 * size) == x
    ensures IntFits(UVarint, size, x)
  {
  }

  lemma {:induction false} DecLeafLayout(f: Field, dest: Val, b: seq<byte>)
    requires WfLeaf(f) && ShapeLeaf(f, dest) && DecLeaf(f, dest, b).Good?
    ensures ShapeLeaf(f, DecLeaf(f, dest, b).v)
  {
    hide DecVarint, SubString, Pow2, Narrow, ToSigned, UnZigZag;
    var v := DecLeaf(f, dest, b).v;
    match f.ltype
    case Varint => NarrowFits(v.n, f.dataSize);
    case SVarint => NarrowFits(v.n, f.dataSize);
    case UVarint => UNarrowFits(v.n, f.dataSize);
    case Fixed32 => Pow2Is64();
    case Fixed64 => Pow2Is64();
    case _ =>
  }

  lemma {:induction false} DecValLayout(f: Field, dest: Val, b: seq<byte>)
    requires WfField(f) && ShapeVal(f, dest) && DecVal(f, dest, b).Good?
    ensures ShapeVal(f, DecVal(f, dest, b).v)
    decreases |b|, 0
  {
    hide DecLeaf, SubString, SetDefaults;
    match f.ltype
    case Submsg(fields) =>
      SetDefaultsShape(fields, dest.slots);
      DecMsgLayout(fields, if f.htype.Repeated? then SetDefaults(fields, dest.slots) else dest.slots, SubString(b).v);
    case _ => DecLeafLayout(f, dest, b);
  }

  predicate ShapeItems(f: Field, items: seq<Val>)
  {
    |items| == f.arraySize && forall k :: 0 <= k < |items| ==> ShapeVal(f, items[k])
  }

  lemma {:induction false} DecPackedLayout(f: Field, a: Array, body: seq<byte>)
    requires WfField(f) && Packable(f.ltype) && ShapeItems(f, a.items) && DecPacked(f, a, body).Some?
    ensures ShapeItems(f, DecPacked(f, a, body).value.items)
    decreases |body|
  {
    hide DecLeaf;
    if body != [] {
      assert ShapeVal(f, a.items[a.count]);
      DecLeafLayout(f, a.items[a.count], body);
      var d := DecLeaf(f, a.items[a.count], body);
      DecPackedLayout(f, Array(a.count + 1, a.items[a.count := d.v]), d.rest);
    }
  }

  lemma {:induction false} DecArrayLayout(f: Field, a: Array, wt: nat, b: seq<byte>)
    requires WfField(f) && ShapeItems(f, a.items) && DecArray(f, a, wt, b).Good?
    ensures ShapeItems(f, DecArray(f, a, wt, b).v.items)
    decreases |b|, 1
  {
    hide DecPacked, SubString, DecVal, ShapeVal;
    if wt == WT_STRING && Packable(f.ltype) {
      DecPackedLayout(f, a, SubString(b).v);
    } else {
      DecValLayout(f, a.items[a.count], b);
    }
  }

  lemma {:induction false} DecFieldLayout(f: Field, s: Slot, fixedSize: nat, wt: nat, b: seq<byte>)
    requires WfField(f) && ShapeSlot(f, s) && DecField(f, s, fixedSize, wt, b).Good?
    ensures ShapeSlot(f, DecField(f, s, fixedSize, wt, b).v.slot)
    ensures f.htype.Oneof? ==> DecField(f, s, fixedSize, wt, b).v.slot.Union? && DecField(f, s, fixedSize, wt, b).v.slot.which == f.tag
    decreases |b|, 2
  {
    hide DecArray, DecVal, ShapeVal, UnionInit;
    if f.htype.Repeated? {
      assert ShapeItems(f, s.items);
      DecArrayLayout(f, Array(if IsFixedCount(f) then fixedSize else s.count, s.items), wt, b);
    } else if f.htype.Oneof? {
      UnionInitShape(f, s);
      DecValLayout(f, UnionInit(f, s.which, s.v), b);
    } else {
      DecValLayout(f, s.v, b);
    }
  }

  lemma {:induction false} UnionInitShape(f: Field, s: Slot)
    requires WfField(f) && ShapeSlot(f, s) && f.htype.Oneof?
    ensures ShapeVal(f, UnionInit(f, s.which, s.v))
  {
    hide ShapeMsg, ZeroVal, DefaultVal, ShapeLeaf;
    ZeroValShape(f);
    DefaultValShape(f, ZeroVal(f));
  }

  lemma {:induction false} StepFieldLayout(fields: seq<Field>, ls: LoopState, i: nat, wt: nat, b: seq<byte>)
    requires WfFields(fields) && LoopOk(fields, ls) && ShapeMsg(fields, ls.st) && i < |fields|
    requires StepField(fields, ls, i, wt, b).StepOk?
    ensures ShapeMsg(fields, StepField(fields, ls, i, wt, b).ls.st)
    decreases |b|, 3
  {
    hide DecField, Found, WfField, SlotCount;
    var k := SlotOf(fields, i);
    var ls1 := Found(fields, ls, i).value;
    DecFieldLayout(fields[i], ls.st[k], ls1.fixedSize, wt, b);
    var slot := DecField(fields[i], ls.st[k], ls1.fixedSize, wt, b).v.slot;
    SlotReplaced(fields, ls.st, i, slot);
  }

  lemma {:induction false} OtherMember(g: Field, slot: Slot)
    requires g.htype.Oneof? && slot.Union? && slot.which != g.tag
    ensures ShapeSlot(g, slot)
  {
  }

  lemma {:induction false} SlotReplaced(fields: seq<Field>, st: Msg, i: nat, slot: Slot)
    requires DistinctTags(fields) && ShapeMsg(fields, st) && i < |fields| && ShapeSlot(fields[i], slot)
    requires fields[i].htype.Oneof? ==> slot.Union? && slot.which == fields[i].tag
    ensures ShapeMsg(fields, st[SlotOf(fields, i) := slot])
  {
    hide ShapeSlot, SlotOf, SlotCount;
    var st' := st[SlotOf(fields, i) := slot];
    forall j | 0 <= j < |fields| ensures SlotOf(fields, j) < |st'| && ShapeSlot(fields[j], st'[SlotOf(fields, j)]) {
      assert ShapeSlot(fields[j], st[SlotOf(fields, j)]);
      if j != i {
        SlotOfShared(fields, if j < i then j else i, if j < i then i else j);
        assert fields[if j < i then j else i].tag != fields[if j < i then i else j].tag;
        if SlotOf(fields, i) == SlotOf(fields, j) {
          OtherMember(fields[j], slot);
        }
      }
    }
  }

  lemma {:induction false} StepLayout(fields: seq<Field>, ls: LoopState, b: seq<byte>)
    requires WfFields(fields) && LoopOk(fields, ls) && ShapeMsg(fields, ls.st) && b != []
    ensures Step(fields, ls, b).StepOk? ==> ShapeMsg(fields, Step(fields, ls, b).ls.st)
    decreases |b|, 3
  {
    hide Dec32, FindFrom, Skip, StepField, ShapeMsg, WfFields;
    match DecTag(b)
    case Key(tag, wt, rest) =>
      assert Step(fields, ls, b) == StepKey(fields, ls, tag, wt, rest);
      var found := FindFrom(fields, ls.pos, tag);
      if found.Some? && StepField(fields, ls, found.value, wt, rest).StepOk? {
        StepFieldLayout(fields, ls, found.value, wt, rest);
      }
    case _ =>
  }

  lemma {:induction false} LoopLayout(fields: seq<Field>, ls: LoopState, b: seq<byte>)
    requires WfFields(fields) && LoopOk(fields, ls) && ShapeMsg(fields, ls.st)
    ensures Loop(fields, ls, b).LoopEnd? ==> ShapeMsg(fields, Loop(fields, ls, b).ls.st)
    decreases |b|, 4
  {
    hide Step, ShapeMsg, WfFields;
    if b != [] {
      StepLayout(fields, ls, b);
      match Step(fields, ls, b)
      case StepOk(ls', rest) => LoopLayout(fields, ls', rest);
      case _ =>
    }
  }

  lemma {:induction false} DecMsgLayout(fields: seq<Field>, st: Msg, b: seq<byte>)
    requires WfFields(fields) && ShapeMsg(fields, st)
    ensures DecMsg(fields, st, b).Good? ==> ShapeMsg(fields, DecMsg(fields, st, b).v)
    decreases |b|, 5
  {
    hide Loop;
    LoopLayout(fields, Start(st), b);
  }
}
