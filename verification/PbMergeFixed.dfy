/** The merge law for all descriptors: exactly which fixed-count arrays stand in its way. */
module PbMergeFixed {
  import opened Prelude
  import opened PbTypes
  import opened PbVarint
  import opened PbEncode
  import opened PbDecode
  import opened PbWellFormed
  import opened PbMerge

  /** A fixed-count array has room for something. */
  predicate ArraysHold(fields: seq<Field>) {
    forall i :: 0 <= i < |fields| && IsFixedCount(fields[i]) ==> fields[i].arraySize > 0
  }

  /** What the key in front of b finds. */
  datatype Hit = Miss | Hit(i: nat, wt: nat, rest: seq<byte>)

  function HitOf(fields: seq<Field>, ls: LoopState, b: seq<byte>): (h: Hit)
    requires LoopOk(fields, ls) && b != []
    ensures h.Hit? ==> h.i < |fields|
  {
    match DecTag(b)
    case Key(tag, wt, rest) =>
      (match FindFrom(fields, ls.pos, tag)
       case Some(i) => Hit(i, wt, rest)
       case None => Miss)
    case _ => Miss
  }

  /** The fixed-count array whose key comes first in what the loop reads. */
  function FirstFixed(fields: seq<Field>, ls: LoopState, b: seq<byte>): (r: Option<nat>)
    requires LoopOk(fields, ls)
    ensures r.Some? ==> r.value < |fields| && IsFixedCount(fields[r.value])
    decreases |b|
  {
    if b == [] then None
    else
      var h := HitOf(fields, ls, b);
      if h.Hit? && IsFixedCount(fields[h.i]) then Some(h.i)
      else match Step(fields, ls, b)
        case StepOk(ls', rest) => FirstFixed(fields, ls', rest)
        case _ => None
  }

  /** Same struct; the second loop has seen more. */
  predicate Alike(fields: seq<Field>, ls0: LoopState, ls: LoopState) {
    LoopOk(fields, ls0) && LoopOk(fields, ls) && ls.st == ls0.st && ls0.seen <= ls.seen
  }

  /** Both count the same array, and have come equally far. */
  predicate Together(fields: seq<Field>, ls0: LoopState, ls: LoopState) {
    Alike(fields, ls0, ls) && ls.fixed == ls0.fixed && ls.fixedSize == ls0.fixedSize
  }

  /** The first loop has met no fixed-count array yet, the second has completed its last one. */
  predicate Apart(fields: seq<Field>, ls0: LoopState, ls: LoopState) {
    Alike(fields, ls0, ls) && ls0.fixed == None && FixedComplete(fields, ls)
  }

  /** Both count array i, which is full for the second loop and not for the first. */
  predicate Doomed(fields: seq<Field>, ls0: LoopState, ls: LoopState, i: nat) {
    && Alike(fields, ls0, ls) && i < |fields| && ls0.fixed == Some(i) == ls.fixed
    && ls0.fixedSize < fields[i].arraySize == ls.fixedSize
  }

  /** Only a fixed-count array looks at the running count. */
  lemma {:induction false} CountIgnored(f: Field, s: Slot, x: nat, y: nat, wt: nat, b: seq<byte>)
    requires !IsFixedCount(f)
    ensures match DecField(f, s, x, wt, b)
            case Bad => DecField(f, s, y, wt, b) == Bad
            case Good(r, rest) => r.fixedSize == x && DecField(f, s, y, wt, b) == Good(SlotSize(r.slot, y), rest)
  {
    hide DecVal, DecArray;
  }

  /** A full array takes nothing more; another that takes something gets fuller. */
  lemma {:induction false} FullTakesNothing(f: Field, a: Array, full: nat, wt: nat, b: seq<byte>)
    requires full >= f.arraySize && a.count <= f.arraySize
    requires DecArray(f, a, wt, b).Good?
    ensures var d := DecArray(f, a, wt, b);
            && d.v.count >= a.count
            && DecArray(f, Array(full, a.items), wt, b) ==
               if d.v.count == a.count then Good(Array(full, d.v.items), d.rest) else Bad
  {
    hide DecVal, SubString, DecLeaf;
    if wt == WT_STRING && Packable(f.ltype) {
      var body := SubString(b).v;
      PackedCount(f, a, body);
      if body != [] {
        assert DecPacked(f, Array(full, a.items), body) == None;
      }
    }
  }

  lemma {:induction false} PackedCount(f: Field, a: Array, body: seq<byte>)
    requires DecPacked(f, a, body).Some?
    ensures var r := DecPacked(f, a, body).value;
            if body == [] then r == a else r.count > a.count
    decreases |body|
  {
    hide DecLeaf;
    if body != [] {
      var d := DecLeaf(f, a.items[a.count], body);
      PackedCount(f, Array(a.count + 1, a.items[a.count := d.v]), d.rest);
    }
  }

  /** One field, found by both loops. */
  datatype Pair = Pair(r0: StepRes, r: StepRes)

  function Both(fields: seq<Field>, ls0: LoopState, ls: LoopState, i: nat, wt: nat, b: seq<byte>): Pair
    requires LoopOk(fields, ls0) && LoopOk(fields, ls) && i < |fields|
  {
    Pair(StepField(fields, ls0, i, wt, b), StepField(fields, ls, i, wt, b))
  }

  predicate SameOutcome(r0: StepRes, r: StepRes) {
    match r0
    case StepBad => r == StepBad
    case StepEof(rest) => r == StepEof(rest)
    case StepOk(_, rest) => r.StepOk? && r.rest == rest
  }

  lemma {:induction false} FieldTogether(fields: seq<Field>, ls0: LoopState, ls: LoopState, i: nat, wt: nat,
                                         b: seq<byte>)
    requires Together(fields, ls0, ls) && i < |fields|
    ensures var p := Both(fields, ls0, ls, i, wt, b);
            SameOutcome(p.r0, p.r) && (p.r0.StepOk? ==> Together(fields, p.r0.ls, p.r.ls))
  {
    hide DecField, RequiredBefore, SlotOf, IsFixedCount;
  }

  lemma {:induction false} PlainFieldApart(fields: seq<Field>, ls0: LoopState, ls: LoopState, i: nat, wt: nat,
                                           b: seq<byte>)
    requires Alike(fields, ls0, ls) && i < |fields| && !IsFixedCount(fields[i])
    ensures var p := Both(fields, ls0, ls, i, wt, b);
            && SameOutcome(p.r0, p.r)
            && (p.r0.StepOk? ==>
                  && Alike(fields, p.r0.ls, p.r.ls)
                  && p.r0.ls.fixed == ls0.fixed && p.r0.ls.fixedSize == ls0.fixedSize
                  && p.r.ls.fixed == ls.fixed && p.r.ls.fixedSize == ls.fixedSize)
  {
    hide DecField, RequiredBefore, SlotOf;
    var k := SlotOf(fields, i);
    if k < |ls.st| {
      CountIgnored(fields[i], ls.st[k], ls0.fixedSize, ls.fixedSize, wt, b);
    }
  }

  /** Another array than the last one starts for both loops at 0. */
  lemma {:induction false} NewArray(fields: seq<Field>, ls0: LoopState, ls: LoopState, i: nat, wt: nat, b: seq<byte>)
    requires Apart(fields, ls0, ls) && i < |fields| && IsFixedCount(fields[i]) && ls.fixed != Some(i)
    ensures var p := Both(fields, ls0, ls, i, wt, b);
            SameOutcome(p.r0, p.r) && (p.r0.StepOk? ==> Together(fields, p.r0.ls, p.r.ls))
  {
    hide DecField, RequiredBefore, SlotOf, IsFixedCount;
  }

  /** The array that is full for the second loop takes nothing: the first stays short, or the second fails. */
  lemma {:induction false} FullArray(fields: seq<Field>, ls0: LoopState, ls: LoopState, i: nat, wt: nat, b: seq<byte>)
    requires i < |fields| && IsFixedCount(fields[i]) && fields[i].arraySize > 0
    requires Doomed(fields, ls0, ls, i) || (Apart(fields, ls0, ls) && ls.fixed == Some(i))
    ensures var p := Both(fields, ls0, ls, i, wt, b);
            p.r0.StepOk? ==>
              || p.r == StepBad
              || (p.r.StepOk? && p.r.rest == p.r0.rest && Doomed(fields, p.r0.ls, p.r.ls, i))
  {
    hide DecArray, RequiredBefore, SlotOf;
    var f, k := fields[i], SlotOf(fields, i);
    var f0, f1 := Found(fields, ls0, i), Found(fields, ls, i);
    assert f0.Some? && f1.Some? && f0.value.fixed == Some(i) == f1.value.fixed;
    var c, full := f0.value.fixedSize, f1.value.fixedSize;
    assert c < f.arraySize == full;
    if k < |ls.st| && ls.st[k].FixedRep? && DecArray(f, Array(c, ls.st[k].items), wt, b).Good? {
      var items := ls.st[k].items;
      FullTakesNothing(f, Array(c, items), full, wt, b);
      var d0, d := DecArray(f, Array(c, items), wt, b), DecArray(f, Array(full, items), wt, b);
      assert DecField(f, ls.st[k], c, wt, b) == Good(SlotSize(FixedRep(d0.v.items), d0.v.count), d0.rest);
      if d0.v.count == c {
        assert DecField(f, ls.st[k], full, wt, b) == Good(SlotSize(FixedRep(d0.v.items), full), d0.rest);
      } else {
        assert DecField(f, ls.st[k], full, wt, b) == Bad;
      }
    } else if k < |ls.st| {
      assert DecField(f, ls.st[k], c, wt, b) == Bad;
    }
  }

  // ----- the loops in step

  /** With distinct tags both loops find the same field, wherever their iterators stand. */
  lemma {:induction false} StepHits(fields: seq<Field>, ls0: LoopState, ls: LoopState, b: seq<byte>)
    requires DistinctTags(fields) && LoopOk(fields, ls0) && LoopOk(fields, ls) && b != []
    ensures HitOf(fields, ls, b) == HitOf(fields, ls0, b)
    ensures var h, r0, r := HitOf(fields, ls0, b), Step(fields, ls0, b), Step(fields, ls, b);
            if h.Hit? then
              r0 == StepField(fields, ls0, h.i, h.wt, h.rest) && r == StepField(fields, ls, h.i, h.wt, h.rest)
            else SameOutcome(r0, r) && (r0.StepOk? ==> r0.ls == ls0 && r.ls == ls)
  {
    hide FindFrom, Skip, StepField, Dec32, DistinctTags;
    match DecTag(b)
    case Key(tag, wt, rest) => FindAnywhere(fields, ls0.pos, ls.pos, tag);
    case _ =>
  }

  lemma {:induction false} LoopTogether(fields: seq<Field>, ls0: LoopState, ls: LoopState, b: seq<byte>)
    requires DistinctTags(fields) && Together(fields, ls0, ls)
    ensures match Loop(fields, ls0, b)
            case LoopBad => Loop(fields, ls, b) == LoopBad
            case LoopEnd(r0, rest, z) =>
              var r := Loop(fields, ls, b);
              r.LoopEnd? && r.rest == rest && r.zeroKey == z && Together(fields, r0, r.ls)
    decreases |b|
  {
    hide Step, StepField, HitOf, DistinctTags;
    if b != [] {
      StepHits(fields, ls0, ls, b);
      var h := HitOf(fields, ls0, b);
      if h.Hit? {
        FieldTogether(fields, ls0, ls, h.i, h.wt, h.rest);
      }
      match Step(fields, ls0, b)
      case StepOk(r0, rest) => LoopTogether(fields, r0, Step(fields, ls, b).ls, rest);
      case _ =>
    }
  }

  /** The first loop cannot complete the array unless the second fails. */
  lemma {:induction false} LoopDoomed(fields: seq<Field>, ls0: LoopState, ls: LoopState, i: nat, b: seq<byte>)
    requires DistinctTags(fields) && ArraysHold(fields) && Doomed(fields, ls0, ls, i)
    ensures var r0 := Loop(fields, ls0, b);
            r0.LoopEnd? && FixedComplete(fields, r0.ls) ==> Loop(fields, ls, b) == LoopBad
    decreases |b|
  {
    hide Step, StepField, HitOf, DistinctTags, IsFixedCount;
    if b != [] {
      StepHits(fields, ls0, ls, b);
      var h := HitOf(fields, ls0, b);
      if h.Hit? {
        if !IsFixedCount(fields[h.i]) {
          PlainFieldApart(fields, ls0, ls, h.i, h.wt, h.rest);
        } else if h.i == i {
          FullArray(fields, ls0, ls, i, h.wt, h.rest);
        } else {
          OtherArrayRefused(fields, ls0, h.i, h.wt, h.rest);
        }
      }
      if Step(fields, ls0, b).StepOk? && Step(fields, ls, b).StepOk? {
        LoopDoomed(fields, Step(fields, ls0, b).ls, Step(fields, ls, b).ls, i, Step(fields, ls0, b).rest);
      }
    }
  }

  lemma {:induction false} OtherArrayRefused(fields: seq<Field>, ls: LoopState, i: nat, wt: nat, b: seq<byte>)
    requires LoopOk(fields, ls) && i < |fields| && IsFixedCount(fields[i])
    requires !FixedComplete(fields, ls) && ls.fixed != Some(i)
    ensures StepField(fields, ls, i, wt, b) == StepBad
  {
    hide DecField;
  }

  /** A loop that starts afresh on b, and one that comes to b with a complete array. */
  lemma {:induction false} LoopApart(fields: seq<Field>, ls0: LoopState, ls: LoopState, b: seq<byte>)
    requires DistinctTags(fields) && ArraysHold(fields) && Apart(fields, ls0, ls)
    ensures var r0, r := Loop(fields, ls0, b), Loop(fields, ls, b);
            if ls.fixed.Some? && FirstFixed(fields, ls0, b) == ls.fixed then
              r0.LoopEnd? && FixedComplete(fields, r0.ls) ==> r == LoopBad
            else match r0
              case LoopBad => r == LoopBad
              case LoopEnd(s0, rest, z) =>
                && r.LoopEnd? && r.rest == rest && Alike(fields, s0, r.ls)
                && (FixedComplete(fields, s0) ==> FixedComplete(fields, r.ls))
    decreases |b|
  {
    hide Step, StepField, HitOf, DistinctTags, IsFixedCount;
    if b != [] {
      StepHits(fields, ls0, ls, b);
      var h := HitOf(fields, ls0, b);
      var r0, r := Step(fields, ls0, b), Step(fields, ls, b);
      if h.Hit? && IsFixedCount(fields[h.i]) {
        if ls.fixed == Some(h.i) {
          FullArray(fields, ls0, ls, h.i, h.wt, h.rest);
          if r0.StepOk? && r.StepOk? {
            LoopDoomed(fields, r0.ls, r.ls, h.i, r0.rest);
          }
        } else {
          NewArray(fields, ls0, ls, h.i, h.wt, h.rest);
          if r0.StepOk? {
            LoopTogether(fields, r0.ls, r.ls, r0.rest);
          }
        }
      } else {
        if h.Hit? {
          PlainFieldApart(fields, ls0, ls, h.i, h.wt, h.rest);
        }
        if r0.StepOk? {
          LoopApart(fields, r0.ls, r.ls, r0.rest);
        }
      }
    }
  }

  /** a leaves off with a complete fixed-count array, and it is the first that b sends. */
  predicate Collides(fields: seq<Field>, st: Msg, a: seq<byte>, b: seq<byte>)
    requires Loop(fields, Start(st), a).LoopEnd?
  {
    var ls := Loop(fields, Start(st), a).ls;
    ls.fixed.Some? && FirstFixed(fields, Start(ls.st), b) == ls.fixed
  }

  /** Without a zero key the merge law fails exactly in a collision, and then the whole is refused. */
  lemma {:induction false} MergeExact(fields: seq<Field>, st: Msg, a: seq<byte>, b: seq<byte>)
    requires DistinctTags(fields) && ArraysHold(fields)
    requires Loop(fields, Start(st), a).LoopEnd? && !Loop(fields, Start(st), a).zeroKey
    requires DecMsg(fields, st, a).Good? && DecMsg(fields, DecMsg(fields, st, a).v, b).Good?
    ensures DecMsg(fields, st, a + b) ==
            if Collides(fields, st, a, b) then Bad else DecMsg(fields, DecMsg(fields, st, a).v, b)
  {
    hide Loop, FirstFixed;
    LoopExtends(fields, Start(st), a, b);
    var ls := Loop(fields, Start(st), a).ls;
    LoopApart(fields, Start(ls.st), ls, b);
  }

  /** Exactly when decoding a followed by b is decoding a and then b: no array is sent again across
      the join, and nothing is left at or behind a zero key of a. */
  lemma {:induction false} MergeIff(fields: seq<Field>, st: Msg, a: seq<byte>, b: seq<byte>)
    requires DistinctTags(fields) && ArraysHold(fields)
    requires DecMsg(fields, st, a).Good? && DecMsg(fields, DecMsg(fields, st, a).v, b).Good?
    ensures Loop(fields, Start(st), a).LoopEnd?
    ensures DecMsg(fields, st, a + b) == DecMsg(fields, DecMsg(fields, st, a).v, b) <==>
            if Loop(fields, Start(st), a).zeroKey then DecMsg(fields, st, a).rest == [] && b == []
            else !Collides(fields, st, a, b)
  {
    DecMsgComplete(fields, st, a);
    var mid := DecMsg(fields, st, a).v;
    if Loop(fields, Start(st), a).zeroKey {
      ZeroKeyStops(fields, st, a, b);
      if b == [] {
        assert Loop(fields, Start(mid), b) == LoopEnd(Start(mid), b, false);
      } else {
        LoopConsumes(fields, Start(mid), b);
        hide Loop;
        assert |DecMsg(fields, mid, b).rest| < |b|;
      }
    } else {
      hide Loop, DecMsg;
      MergeExact(fields, st, a, b);
    }
  }

  /** A fixed-count array of one word. */
  function OneWordDescriptor(): seq<Field>
  {
    [Field(1, Fixed32, Repeated, 0, 0, 4, 1, None)]
  }

  function OneWord(x: int): Msg
  {
    [FixedRep([IntVal(x)])]
  }

  function WordMessage(x: byte): seq<byte>
  {
    [13, x, 0, 0, 0]
  }

  lemma {:induction false} OneWordStep(old_: int, x: byte)
    ensures Step(OneWordDescriptor(), Start(OneWord(old_)), WordMessage(x)) == StepOk(LS(OneWord(x), 0, {}, Some(0), 1), [])
    ensures HitOf(OneWordDescriptor(), Start(OneWord(old_)), WordMessage(x)) == Hit(0, 5, WordMessage(x)[1..])
  {
    var d, st, b := OneWordDescriptor(), OneWord(old_), WordMessage(x);
    var four: seq<byte> := b[1..];
    assert Dec32(b) == Good(13, four);
    hide Dec32;
    assert FindFrom(d, 0, 1) == Some(0) by {
      assert FindIn(d, 0, 1, 1) == Some(0);
    }
    assert FromLe32(four[..4]) == x as int;
    assert four[4..] == [];
    var items := [IntVal(old_)];
    assert items[0 := IntVal(x as int)] == [IntVal(x as int)];
    assert DecVal(d[0], IntVal(old_), four) == Good(IntVal(x as int), []);
    assert DecArray(d[0], Array(0, items), 5, four) == Good(Array(1, [IntVal(x as int)]), []);
    assert st[0 := FixedRep([IntVal(x as int)])] == OneWord(x as int);
    assert StepField(d, Start(st), 0, 5, four) == StepOk(LS(OneWord(x as int), 0, {}, Some(0), 1), []);
  }

  /** A concrete collision: each message is accepted, the two together are refused. */
  lemma {:induction false} CollisionExample(x: byte, y: byte)
    ensures var d, st := OneWordDescriptor(), OneWord(0);
            && DecMsg(d, st, WordMessage(x)) == Good(OneWord(x as int), [])
            && DecMsg(d, OneWord(x as int), WordMessage(y)) == Good(OneWord(y as int), [])
            && DecMsg(d, st, WordMessage(x) + WordMessage(y)) == Bad
  {
    var d, st, none: seq<byte> := OneWordDescriptor(), OneWord(0), [];
    OneWordStep(0, x);
    OneWordStep(x as int, y);
    assert RequiredBefore(d, 1) == 0 && RequiredSeen(d, {});
    hide Step, RequiredSeen, HitOf;
    var after := LS(OneWord(x as int), 0, {}, Some(0), 1);
    var behind := LS(OneWord(y as int), 0, {}, Some(0), 1);
    assert Loop(d, after, none) == LoopEnd(after, none, false);
    assert Loop(d, behind, none) == LoopEnd(behind, none, false);
    assert Loop(d, Start(st), WordMessage(x)) == Loop(d, after, none);
    assert Loop(d, Start(OneWord(x as int)), WordMessage(y)) == Loop(d, behind, none);
    MergeExact(d, st, WordMessage(x), WordMessage(y));
  }
}
