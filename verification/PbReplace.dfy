/** A field that arrives again: the last value of a scalar, string or byte field wins, required and
    optional submessages merge, a union member starts afresh, and arrays are continued. */
module PbReplace {
  import opened PbTypes
  import opened Prelude
  import opened PbVarint
  import opened PbEncode
  import opened PbDecode
  import opened PbWellFormed
  import opened PbRoundTrip
  import opened PbObserve
  import opened PbLayout
  import opened PbMerge

  /** The slot says that field f is present with the value v. */
  predicate Shows(f: Field, s: Slot, v: Val)
  {
    match f.htype
    case Required => s.Plain? && SameVal(f, v, s.v)
    case Optional => if IsSingular(f) then s.Plain? && SameVal(f, v, s.v) else s.Opt? && s.has && SameVal(f, v, s.v)
    case Repeated => false
    case Oneof => s.Union? && s.which == f.tag && SameVal(f, v, s.v)
  }

  /** What a single field leaves: one slot changed, and its required bit. */
  predicate OneFieldRead(fields: seq<Field>, ls: LoopState, i: nat, slot: Slot, ls1: LoopState)
    requires i < |fields|
  {
    && LoopOk(fields, ls1) && SlotOf(fields, i) < |ls.st|
    && ls1.st == ls.st[SlotOf(fields, i) := slot]
    && ls1.fixed == ls.fixed && ls1.fixedSize == ls.fixedSize
    && ls1.seen == ls.seen + if fields[i].htype.Required? && RequiredBefore(fields, i) < PB_MAX_REQUIRED_FIELDS
                             then {RequiredBefore(fields, i)} else {}
  }

  lemma {:induction false} FoundSingle(fields: seq<Field>, ls: LoopState, i: nat)
    requires LoopOk(fields, ls) && i < |fields| && !fields[i].htype.Repeated?
    ensures var r := Found(fields, ls, i);
            && r.Some? && r.value.fixed == ls.fixed && r.value.fixedSize == ls.fixedSize
            && r.value.seen == ls.seen + if fields[i].htype.Required? && RequiredBefore(fields, i) < PB_MAX_REQUIRED_FIELDS
                                         then {RequiredBefore(fields, i)} else {}
  {
    hide RequiredBefore;
    assert ls.seen + {} == ls.seen;
  }

  /** The slot of a single field that holds v. */
  function Holding(f: Field, v: Val): Slot
    requires !f.htype.Repeated?
  {
    match f.htype
    case Required => Plain(v)
    case Optional => if IsSingular(f) then Plain(v) else Opt(true, v)
    case Oneof => Union(f.tag, v)
  }

  /** What a single field is decoded onto. */
  function Onto(f: Field, s: Slot): Val
    requires ShapeSlot(f, s) && !f.htype.Repeated?
  {
    if f.htype.Oneof? then UnionInit(f, s.which, s.v) else s.v
  }

  /** One key and one value of a single field, on any struct of the right layout. */
  lemma {:induction false} SingleStep(fields: seq<Field>, ls: LoopState, i: nat, wt: nat, body: seq<byte>, v: Val,
                                      rest: seq<byte>)
    returns (ls1: LoopState)
    requires WfFields(fields) && LoopOk(fields, ls) && ShapeMsg(fields, ls.st) && i < |fields| && wt < 8
    requires !fields[i].htype.Repeated?
    requires DecVal(fields[i], Onto(fields[i], ls.st[SlotOf(fields, i)]), body + rest) == Good(v, rest)
    ensures OneFieldRead(fields, ls, i, Holding(fields[i], v), ls1)
    ensures Loop(fields, ls, EncTag(wt, fields[i].tag) + body + rest) == Loop(fields, ls1, rest)
  {
    hide Loop, Step, DecVal, EncVarint, UnionInit, ShapeVal, WfFields, Found;
    var f, k := fields[i], SlotOf(fields, i);
    FoundSingle(fields, ls, i);
    var ls0 := Found(fields, ls, i).value;
    assert DecField(f, ls.st[k], ls0.fixedSize, wt, body + rest) == Good(SlotSize(Holding(f, v), ls0.fixedSize), rest);
    ls1 := ls0.(st := ls.st[k := Holding(f, v)]);
    LoopKeyStep(fields, ls, i, wt, body, rest, ls1);
  }

  // ----- behind any accepted message

  /** a is accepted to its end. */
  ghost predicate Accepted(fields: seq<Field>, st: Msg, a: seq<byte>)
  {
    && WfFields(fields) && ShapeMsg(fields, st)
    && DecMsg(fields, st, a).Good? && Loop(fields, Start(st), a).LoopEnd? && !Loop(fields, Start(st), a).zeroKey
  }

  /** What the loop has come to at the end of a. */
  lemma {:induction false} Behind(fields: seq<Field>, st: Msg, a: seq<byte>, more: seq<byte>) returns (ls: LoopState)
    requires Accepted(fields, st, a)
    ensures LoopOk(fields, ls) && ShapeMsg(fields, ls.st) && ls.st == DecMsg(fields, st, a).v && Accepts(fields, ls)
    ensures Loop(fields, Start(st), a + more) == Loop(fields, ls, more)
  {
    hide Loop, ShapeMsg, WfFields;
    LoopLayout(fields, Start(st), a);
    LoopExtends(fields, Start(st), a, more);
    ls := Loop(fields, Start(st), a).ls;
  }

  lemma {:induction false} StillAccepts(fields: seq<Field>, ls: LoopState, i: nat, slot: Slot, ls1: LoopState)
    requires LoopOk(fields, ls) && Accepts(fields, ls) && i < |fields| && OneFieldRead(fields, ls, i, slot, ls1)
    ensures Accepts(fields, ls1)
  {
    hide RequiredBefore, SlotOf;
  }

  /** One more key and value of a single field is accepted too, and changes its slot only. */
  lemma {:induction false} OneMoreField(fields: seq<Field>, st: Msg, a: seq<byte>, i: nat, wt: nat, body: seq<byte>, v: Val)
    requires Accepted(fields, st, a) && i < |fields| && wt < 8 && !fields[i].htype.Repeated?
    requires SlotOf(fields, i) < |DecMsg(fields, st, a).v|
    requires ShapeSlot(fields[i], DecMsg(fields, st, a).v[SlotOf(fields, i)])
    requires DecVal(fields[i], Onto(fields[i], DecMsg(fields, st, a).v[SlotOf(fields, i)]), body) == Good(v, [])
    ensures DecMsg(fields, st, a + (EncTag(wt, fields[i].tag) + body)) ==
            Good(DecMsg(fields, st, a).v[SlotOf(fields, i) := Holding(fields[i], v)], [])
  {
    hide Loop, EncVarint, DecVal, ShapeMsg, ShapeSlot, WfFields, Accepts, Onto, Accepted;
    var ls := Behind(fields, st, a, EncTag(wt, fields[i].tag) + body);
    assert body + [] == body;
    assert EncTag(wt, fields[i].tag) + body + [] == EncTag(wt, fields[i].tag) + body;
    assert WfFields(fields) by { AcceptedParts(fields, st, a); }
    var ls1 := SingleStep(fields, ls, i, wt, body, v, []);
    StillAccepts(fields, ls, i, Holding(fields[i], v), ls1);
    LoopOfNone(fields, ls1);
  }

  lemma {:induction false} AcceptedParts(fields: seq<Field>, st: Msg, a: seq<byte>)
    requires Accepted(fields, st, a)
    ensures WfFields(fields) && ShapeMsg(fields, st) && ShapeMsg(fields, DecMsg(fields, st, a).v)
  {
    hide ShapeMsg, WfFields;
    DecMsgLayout(fields, st, a);
  }

  lemma {:induction false} LoopOfNone(fields: seq<Field>, ls: LoopState)
    requires LoopOk(fields, ls)
    ensures Loop(fields, ls, []) == LoopEnd(ls, [], false)
  {
  }

  /** The slot of a field in a struct of the right layout. */
  lemma {:induction false} SlotShape(fields: seq<Field>, st: Msg, i: nat)
    requires WfFields(fields) && ShapeMsg(fields, st) && i < |fields|
    ensures SlotOf(fields, i) < |st| && ShapeSlot(fields[i], st[SlotOf(fields, i)]) && WfField(fields[i])
  {
    hide ShapeSlot, WfField;
  }

  lemma {:induction false} OntoShape(f: Field, s: Slot)
    requires WfField(f) && ShapeSlot(f, s) && !f.htype.Repeated?
    ensures ShapeVal(f, Onto(f, s))
  {
    hide ShapeVal;
    if f.htype.Oneof? {
      UnionInitShape(f, s);
    }
  }

  /** Whatever a said about a scalar, string or byte field, the value that comes last is there. */
  lemma {:induction false} LastWins(fields: seq<Field>, st: Msg, a: seq<byte>, i: nat, v: Val) returns (slot: Slot)
    requires Accepted(fields, st, a) && i < |fields| && !fields[i].htype.Repeated? && !fields[i].ltype.Submsg?
    requires OkLeaf(fields[i], v)
    ensures EncTagged(fields[i], v).Some? && SlotOf(fields, i) < |DecMsg(fields, st, a).v|
    ensures DecMsg(fields, st, a + EncTagged(fields[i], v).value) ==
            Good(DecMsg(fields, st, a).v[SlotOf(fields, i) := slot], [])
    ensures Shows(fields[i], slot, v)
  {
    var f, mid := fields[i], DecMsg(fields, st, a).v;
    hide ShapeMsg, WfFields, EncVarint, Accepted, OkLeaf, Shows, Holding, DecLeaf, EncLeaf, LandVal;
    AcceptedParts(fields, st, a);
    SlotShape(fields, mid, i);
    var base := Onto(f, mid[SlotOf(fields, i)]);
    OntoShape(f, mid[SlotOf(fields, i)]);
    LeafBody(f, base, v);
    OneMoreField(fields, st, a, i, WireType(f.ltype), EncLeaf(f, v).value, LandVal(f, base, v));
    slot := Holding(f, LandVal(f, base, v));
    HoldingShows(f, base, v);
  }

  lemma {:induction false} LeafBody(f: Field, base: Val, v: Val)
    requires WfField(f) && !f.ltype.Submsg? && ShapeVal(f, base) && OkLeaf(f, v)
    ensures EncLeaf(f, v).Some? && EncTagged(f, v) == Some(EncTagFor(f) + EncLeaf(f, v).value)
    ensures DecVal(f, base, EncLeaf(f, v).value) == Good(LandVal(f, base, v), [])
  {
    hide DecLeaf, EncLeaf, LandVal, EncVarint;
    LeafRoundTrip(f, base, v, []);
    assert EncLeaf(f, v).value + [] == EncLeaf(f, v).value;
  }

  lemma {:induction false} HoldingShows(f: Field, base: Val, v: Val)
    requires WfField(f) && !f.ltype.Submsg? && !f.htype.Repeated? && ShapeVal(f, base) && OkLeaf(f, v)
    ensures Shows(f, Holding(f, LandVal(f, base, v)), v)
  {
    hide LandVal, SameVal, OkLeaf;
    LeafSame(f, base, v);
  }

  /** A submessage that arrives again is decoded onto what is there; as a union member onto its defaults. */
  lemma {:induction false} SubmessageAgain(fields: seq<Field>, st: Msg, a: seq<byte>, i: nat, body: seq<byte>)
    requires Accepted(fields, st, a) && i < |fields| && !fields[i].htype.Repeated? && fields[i].ltype.Submsg?
    requires |body| < TWO_32 && SlotOf(fields, i) < |DecMsg(fields, st, a).v|
    requires ShapeSlot(fields[i], DecMsg(fields, st, a).v[SlotOf(fields, i)])
    requires var f, slot := fields[i], DecMsg(fields, st, a).v[SlotOf(fields, i)];
             DecMsg(f.ltype.fields, Earlier(f, slot), body).Good?
    ensures var f, slot := fields[i], DecMsg(fields, st, a).v[SlotOf(fields, i)];
            DecMsg(fields, st, a + (EncTag(2, f.tag) + Prefixed(body))) ==
            Good(DecMsg(fields, st, a).v[SlotOf(fields, i) :=
                   Holding(f, MsgVal(DecMsg(f.ltype.fields, Earlier(f, slot), body).v))], [])
  {
    var f, slot := fields[i], DecMsg(fields, st, a).v[SlotOf(fields, i)];
    hide ShapeMsg, WfFields, EncVarint, Accepted, Holding, DecMsg, ShapeVal;
    SubBody(f, slot, body);
    OneMoreField(fields, st, a, i, 2, Prefixed(body), MsgVal(DecMsg(f.ltype.fields, Earlier(f, slot), body).v));
  }

  /** The struct a single submessage is decoded onto. */
  function Earlier(f: Field, s: Slot): Msg
    requires f.ltype.Submsg? && !f.htype.Repeated? && ShapeSlot(f, s)
  {
    if f.htype.Oneof? then SetDefaults(f.ltype.fields, ZeroSlots(f.ltype.fields, SlotCount(f.ltype.fields)))
    else assert ShapeVal(f, s.v); s.v.slots
  }

  lemma {:induction false} SubBody(f: Field, s: Slot, body: seq<byte>)
    requires f.ltype.Submsg? && !f.htype.Repeated? && ShapeSlot(f, s) && |body| < TWO_32
    requires DecMsg(f.ltype.fields, Earlier(f, s), body).Good?
    ensures DecVal(f, Onto(f, s), Prefixed(body)) == Good(MsgVal(DecMsg(f.ltype.fields, Earlier(f, s), body).v), [])
  {
    hide EncVarint, SubString, SetDefaults, ZeroSlots, DecMsg, ShapeMsg;
    SubStringOf(body, []);
    assert Prefixed(body) + [] == Prefixed(body);
    assert Onto(f, s) == MsgVal(Earlier(f, s));
  }

  // ----- arrays

  /** xs behind the elements that are there. */
  function Appended(a: Array, xs: seq<Val>): Array
    requires a.count + |xs| <= |a.items|
  {
    Array(a.count + |xs|, a.items[..a.count] + xs + a.items[a.count + |xs|..])
  }

  lemma {:induction false} AppendedOne(a: Array, x: Val, xs: seq<Val>)
    requires a.count + 1 + |xs| <= |a.items|
    ensures Appended(Array(a.count + 1, a.items[a.count := x]), xs) == Appended(a, [x] + xs)
  {
  }

  predicate ScalarArray(f: Field, a: Array, xs: seq<Val>)
  {
    && WfLeaf(f) && Packable(f.ltype) && |a.items| == f.arraySize && a.count <= f.arraySize
    && (forall k :: 0 <= k < |a.items| ==> ShapeLeaf(f, a.items[k]))
    && (forall k :: 0 <= k < |xs| ==> OkLeaf(f, xs[k]))
  }

  /** A packed chunk continues the array, or is refused when it does not fit. */
  lemma {:induction false} PackedContinues(f: Field, a: Array, xs: seq<Val>, lo: nat)
    requires lo <= |xs| && ScalarArray(f, a, xs)
    ensures EncPacked(f, xs, lo, |xs|).Some?
    ensures DecPacked(f, a, EncPacked(f, xs, lo, |xs|).value) ==
            if a.count + |xs| - lo <= f.arraySize then Some(Appended(a, xs[lo..])) else None
    decreases |xs| - lo
  {
    hide EncLeaf, DecLeaf, LandVal;
    if lo == |xs| {
      assert Appended(a, []) == a;
    } else {
      EncPackedSome(f, xs, lo + 1);
      var rest := EncPacked(f, xs, lo + 1, |xs|).value;
      EncLeafNonEmpty(f, xs[lo]);
      if a.count < f.arraySize {
        LeafRoundTrip(f, a.items[a.count], xs[lo], rest);
        ScalarLands(f, a.items[a.count], xs[lo]);
        var b := Array(a.count + 1, a.items[a.count := xs[lo]]);
        assert ShapeLeaf(f, xs[lo]);
        PackedContinues(f, b, xs, lo + 1);
        assert xs[lo..] == [xs[lo]] + xs[lo + 1..];
        if a.count + |xs| - lo <= f.arraySize {
          AppendedOne(a, xs[lo], xs[lo + 1..]);
        }
      }
    }
  }

  lemma {:induction false} EncPackedSome(f: Field, xs: seq<Val>, lo: nat)
    requires lo <= |xs| && WfLeaf(f) && Packable(f.ltype) && forall k :: 0 <= k < |xs| ==> OkLeaf(f, xs[k])
    ensures EncPacked(f, xs, lo, |xs|).Some?
    decreases |xs| - lo
  {
    hide EncLeaf;
    if lo < |xs| {
      EncodesLeaf(f, xs[lo]);
      EncPackedSome(f, xs, lo + 1);
    }
  }

  lemma {:induction false} EncLeafNonEmpty(f: Field, v: Val)
    requires WfLeaf(f) && Packable(f.ltype) && OkLeaf(f, v)
    ensures EncLeaf(f, v).Some? && EncLeaf(f, v).value != []
  {
    hide EncVarint;
    EncodesLeaf(f, v);
  }

  lemma {:induction false} ScalarLands(f: Field, base: Val, v: Val)
    requires Packable(f.ltype)
    ensures LandVal(f, base, v) == v
  {
  }

  /** A single element, with or without packing. */
  lemma {:induction false} ElementContinues(f: Field, a: Array, wt: nat, x: Val)
    requires ScalarArray(f, a, [x]) && wt != WT_STRING
    ensures EncLeaf(f, x).Some?
    ensures DecArray(f, a, wt, EncLeaf(f, x).value) ==
            if a.count < f.arraySize then Good(Appended(a, [x]), []) else Bad
  {
    hide EncLeaf, DecLeaf, LandVal;
    assert OkLeaf(f, [x][0]);
    EncodesLeaf(f, x);
    if a.count < f.arraySize {
      var base := a.items[a.count];
      LeafRoundTrip(f, base, x, []);
      ScalarLands(f, base, x);
      assert EncLeaf(f, x).value + [] == EncLeaf(f, x).value;
      assert a.items[a.count := x] == a.items[..a.count] + [x] + a.items[a.count + 1..];
    }
  }

  /** A chunk of a packed array: a length and the elements. */
  lemma {:induction false} ChunkContinues(f: Field, a: Array, xs: seq<Val>)
    requires ScalarArray(f, a, xs)
    ensures EncPacked(f, xs, 0, |xs|).Some?
    ensures |EncPacked(f, xs, 0, |xs|).value| < TWO_32 ==>
              DecArray(f, a, WT_STRING, Prefixed(EncPacked(f, xs, 0, |xs|).value)) ==
              if a.count + |xs| <= f.arraySize then Good(Appended(a, xs), []) else Bad
  {
    hide EncVarint, SubString, DecPacked;
    PackedContinues(f, a, xs, 0);
    var body := EncPacked(f, xs, 0, |xs|).value;
    assert xs[0..] == xs;
    if |body| < TWO_32 {
      SubStringOf(body, []);
      assert Prefixed(body) + [] == Prefixed(body);
    }
  }

  /** The key and a chunk or an element for a counted array, behind a message that was accepted. */
  lemma {:induction false} ArrayAgain(fields: seq<Field>, st: Msg, a: seq<byte>, i: nat, wt: nat, body: seq<byte>)
    requires Accepted(fields, st, a) && i < |fields| && wt < 8 && fields[i].htype.Repeated? && !IsFixedCount(fields[i])
    requires var k := SlotOf(fields, i); k < |DecMsg(fields, st, a).v| && DecMsg(fields, st, a).v[k].Rep?
    ensures var k := SlotOf(fields, i);
            var slot := DecMsg(fields, st, a).v[k];
            match DecArray(fields[i], Array(slot.count, slot.items), wt, body)
            case Bad => DecMsg(fields, st, a + (EncTag(wt, fields[i].tag) + body)) == Bad
            case Good(r, rest) => rest == [] ==>
              DecMsg(fields, st, a + (EncTag(wt, fields[i].tag) + body)) ==
              Good(DecMsg(fields, st, a).v[k := Rep(r.count, r.items)], [])
  {
    var slot := DecMsg(fields, st, a).v[SlotOf(fields, i)];
    AcceptedParts(fields, st, a);
    var ls := Behind(fields, st, a, EncTag(wt, fields[i].tag) + body);
    var d := DecArray(fields[i], Array(slot.count, slot.items), wt, body);
    hide Loop, EncVarint, DecArray, ShapeMsg, WfFields, Accepts, Accepted;
    KeyStep(fields, ls, i, wt, body);
    CountedStep(fields, ls, i, wt, body);
    KeyNonEmpty(wt, fields[i].tag, body);
    LoopOne(fields, ls, EncTag(wt, fields[i].tag) + body);
    if d.Good? && d.rest == [] {
      var ls1 := StepField(fields, ls, i, wt, body).ls;
      LoopOfNone(fields, ls1);
      SameAccepts(fields, ls, ls1);
    }
  }

  lemma {:induction false} KeyNonEmpty(wt: nat, tag: nat, body: seq<byte>)
    ensures EncTag(wt, tag) + body != []
  {
    hide EncVarint;
  }

  lemma {:induction false} LoopOne(fields: seq<Field>, ls: LoopState, b: seq<byte>)
    requires LoopOk(fields, ls) && b != []
    ensures match Step(fields, ls, b)
            case StepBad => Loop(fields, ls, b) == LoopBad
            case StepEof(rest) => true
            case StepOk(ls1, rest) => Loop(fields, ls, b) == Loop(fields, ls1, rest)
  {
    hide Step;
  }

  lemma {:induction false} SameAccepts(fields: seq<Field>, ls: LoopState, ls1: LoopState)
    requires LoopOk(fields, ls) && LoopOk(fields, ls1) && Accepts(fields, ls)
    requires ls1.fixed == ls.fixed && ls1.fixedSize == ls.fixedSize && ls1.seen == ls.seen
    ensures Accepts(fields, ls1)
  {
    hide RequiredSeen;
  }

  lemma {:induction false} CountedStep(fields: seq<Field>, ls: LoopState, i: nat, wt: nat, b: seq<byte>)
    requires LoopOk(fields, ls) && i < |fields| && fields[i].htype.Repeated? && !IsFixedCount(fields[i])
    requires SlotOf(fields, i) < |ls.st| && ls.st[SlotOf(fields, i)].Rep?
    ensures var k := SlotOf(fields, i);
            match DecArray(fields[i], Array(ls.st[k].count, ls.st[k].items), wt, b)
            case Bad => StepField(fields, ls, i, wt, b) == StepBad
            case Good(r, rest) =>
              var s := StepField(fields, ls, i, wt, b);
              && s.StepOk? && s.rest == rest && s.ls.st == ls.st[k := Rep(r.count, r.items)]
              && s.ls.fixed == ls.fixed && s.ls.fixedSize == ls.fixedSize && s.ls.seen == ls.seen
  {
    hide DecArray;
  }

  /** Field i is a counted array of scalars, and xs may go behind what a has put into it. */
  ghost predicate CanContinue(fields: seq<Field>, st: Msg, a: seq<byte>, i: nat, xs: seq<Val>)
  {
    && Accepted(fields, st, a) && i < |fields| && fields[i].htype.Repeated? && !IsFixedCount(fields[i])
    && Packable(fields[i].ltype) && (forall k :: 0 <= k < |xs| ==> OkLeaf(fields[i], xs[k]))
    && SlotOf(fields, i) < |DecMsg(fields, st, a).v|
    && var slot := DecMsg(fields, st, a).v[SlotOf(fields, i)]; slot.Rep? && slot.count <= fields[i].arraySize
  }

  lemma {:induction false} ContinuesScalars(fields: seq<Field>, st: Msg, a: seq<byte>, i: nat, xs: seq<Val>)
    requires CanContinue(fields, st, a, i, xs)
    ensures var slot := DecMsg(fields, st, a).v[SlotOf(fields, i)];
            ScalarArray(fields[i], Array(slot.count, slot.items), xs)
  {
    var f, mid, k := fields[i], DecMsg(fields, st, a).v, SlotOf(fields, i);
    hide ShapeMsg, WfFields, Accepted, DecMsg;
    AcceptedParts(fields, st, a);
    SlotShape(fields, mid, i);
    forall j | 0 <= j < |mid[k].items| ensures ShapeLeaf(f, mid[k].items[j]) {
      assert ShapeVal(f, mid[k].items[j]);
    }
  }

  /** The array a has left in field i. */
  function ArrayOf(fields: seq<Field>, st: Msg, a: seq<byte>, i: nat): Array
    requires DecMsg(fields, st, a).Good? && i < |fields| && SlotOf(fields, i) < |DecMsg(fields, st, a).v|
    requires DecMsg(fields, st, a).v[SlotOf(fields, i)].Rep?
  {
    var slot := DecMsg(fields, st, a).v[SlotOf(fields, i)];
    Array(slot.count, slot.items)
  }

  /** A packed chunk goes behind the elements that are there; too many are refused. */
  lemma {:induction false} ChunkAgain(fields: seq<Field>, st: Msg, a: seq<byte>, i: nat, xs: seq<Val>)
    requires CanContinue(fields, st, a, i, xs)
    ensures EncPacked(fields[i], xs, 0, |xs|).Some?
    ensures var f, arr, chunk := fields[i], ArrayOf(fields, st, a, i), EncPacked(fields[i], xs, 0, |xs|).value;
            && |arr.items| == f.arraySize
            && (|chunk| < TWO_32 ==>
                  var d := DecMsg(fields, st, a + (EncTag(WT_STRING, f.tag) + Prefixed(chunk)));
                  if arr.count + |xs| > f.arraySize then d == Bad
                  else var r := Appended(arr, xs);
                       d == Good(DecMsg(fields, st, a).v[SlotOf(fields, i) := Rep(r.count, r.items)], []))
  {
    ContinuesScalars(fields, st, a, i, xs);
    hide Accepted, DecArray, EncPacked, EncVarint, DecMsg, EncTag, Prefixed, SlotOf, IsFixedCount, Appended;
    var arr := ArrayOf(fields, st, a, i);
    ChunkContinues(fields[i], arr, xs);
    ArrayAgain(fields, st, a, i, WT_STRING, Prefixed(EncPacked(fields[i], xs, 0, |xs|).value));
  }

  /** So does one element with a key of its own, although the encoder always packs. */
  lemma {:induction false} ElementAgain(fields: seq<Field>, st: Msg, a: seq<byte>, i: nat, x: Val)
    requires CanContinue(fields, st, a, i, [x])
    ensures EncTagged(fields[i], x).Some?
    ensures var f, arr := fields[i], ArrayOf(fields, st, a, i);
            && |arr.items| == f.arraySize
            && DecMsg(fields, st, a + EncTagged(f, x).value) ==
               if arr.count >= f.arraySize then Bad
               else Good(DecMsg(fields, st, a).v[SlotOf(fields, i) := Rep(arr.count + 1, arr.items[arr.count := x])], [])
  {
    var f, mid, k := fields[i], DecMsg(fields, st, a).v, SlotOf(fields, i);
    ContinuesScalars(fields, st, a, i, [x]);
    hide Accepted, DecArray, EncVarint, DecMsg, EncLeaf;
    var arr := Array(mid[k].count, mid[k].items);
    ElementContinues(f, arr, WireType(f.ltype), x);
    ArrayAgain(fields, st, a, i, WireType(f.ltype), EncLeaf(f, x).value);
    if arr.count < f.arraySize {
      assert mid[k].items[arr.count := x] == Appended(arr, [x]).items;
    }
  }
}
