/** Concatenated encodings and unknown fields: what the field loop does when bytes are put
    behind, or in between, the fields it already accepts. */
module PbMerge {
  import opened Bits
  import opened PbTypes
  import opened Prelude
  import opened PbVarint
  import opened PbEncode
  import opened PbDecode
  import opened PbWellFormed
  import opened PbRoundTrip

  // ----- readers take no notice of what follows

  lemma {:induction false} VarintLenExtends(b: seq<byte>, c: seq<byte>)
    requires VarintLen(b).Some?
    ensures VarintLen(b + c) == VarintLen(b)
  {
    assert (b + c)[0] == b[0];
    if b[0] >= 128 {
      assert (b + c)[1..] == b[1..] + c;
      VarintLenExtends(b[1..], c);
    }
  }

  lemma {:induction false} DecVarintExtends(b: seq<byte>, c: seq<byte>)
    requires DecVarint(b).Good?
    ensures DecVarint(b + c) == Good(DecVarint(b).v, DecVarint(b).rest + c)
  {
    VarintLenExtends(b, c);
    var n := VarintLen(b).value;
    assert (b + c)[..n] == b[..n];
    assert (b + c)[n..] == b[n..] + c;
  }

  lemma {:induction false} Dec32FromExtends(b: seq<byte>, bitpos: nat, result: nat, c: seq<byte>)
    requires bitpos < 256 && result < TWO_32
    requires Dec32From(b, bitpos, result).Good?
    ensures Dec32From(b + c, bitpos, result) ==
            Good(Dec32From(b, bitpos, result).v, Dec32From(b, bitpos, result).rest + c)
  {
    hide OrGroup, BadSignExtension;
    assert (b + c)[0] == b[0];
    assert (b + c)[1..] == b[1..] + c;
    if b[0] >= 128 {
      Dec32FromExtends(b[1..], (bitpos + 7) % 256, if bitpos >= 32 then result else OrGroup(result, b[0], bitpos), c);
    }
  }

  lemma {:induction false} Dec32Extends(b: seq<byte>, c: seq<byte>)
    requires Dec32(b).Good?
    ensures Dec32(b + c) == Good(Dec32(b).v, Dec32(b).rest + c)
  {
    hide Dec32From;
    assert (b + c)[0] == b[0];
    assert (b + c)[1..] == b[1..] + c;
    if b[0] >= 128 {
      Dec32FromExtends(b[1..], 7, b[0] % 128, c);
    }
  }

  lemma {:induction false} SubStringExtends(b: seq<byte>, c: seq<byte>)
    requires SubString(b).Good?
    ensures SubString(b + c) == Good(SubString(b).v, SubString(b).rest + c)
  {
    hide Dec32;
    Dec32Extends(b, c);
    var n, r := Dec32(b).v, Dec32(b).rest;
    assert (r + c)[..n] == r[..n];
    assert (r + c)[n..] == r[n..] + c;
  }

  lemma {:induction false} SkipExtends(wt: nat, b: seq<byte>, c: seq<byte>)
    requires Skip(wt, b).Good?
    ensures Skip(wt, b + c) == Good((), Skip(wt, b).rest + c)
  {
    hide SubString, VarintLen;
    if wt == WT_VARINT {
      VarintLenExtends(b, c);
      assert (b + c)[VarintLen(b).value..] == b[VarintLen(b).value..] + c;
    } else if wt == WT_STRING {
      SubStringExtends(b, c);
    } else if wt == WT_64BIT {
      assert (b + c)[8..] == b[8..] + c;
    } else {
      assert (b + c)[4..] == b[4..] + c;
    }
  }

  lemma {:induction false} DecLeafExtends(f: Field, old_: Val, b: seq<byte>, c: seq<byte>)
    requires DecLeaf(f, old_, b).Good?
    ensures DecLeaf(f, old_, b + c) == Good(DecLeaf(f, old_, b).v, DecLeaf(f, old_, b).rest + c)
  {
    hide SubString, DecVarint, Overwrite, Narrow, ToSigned, Pow2, UnZigZag, FromLe32, FromLe64;
    if f.ltype.Varint? || f.ltype.UVarint? || f.ltype.SVarint? {
      DecVarintExtends(b, c);
    } else if f.ltype.Fixed32? {
      assert (b + c)[..4] == b[..4] && (b + c)[4..] == b[4..] + c;
    } else if f.ltype.Fixed64? {
      assert (b + c)[..8] == b[..8] && (b + c)[8..] == b[8..] + c;
    } else {
      SubStringExtends(b, c);
    }
  }

  lemma {:induction false} DecValExtends(f: Field, old_: Val, b: seq<byte>, c: seq<byte>)
    requires DecVal(f, old_, b).Good?
    ensures DecVal(f, old_, b + c) == Good(DecVal(f, old_, b).v, DecVal(f, old_, b).rest + c)
  {
    hide SubString, DecLeaf, DecMsg, SetDefaults;
    if f.ltype.Submsg? {
      SubStringExtends(b, c);
    } else {
      DecLeafExtends(f, old_, b, c);
    }
  }

  lemma {:induction false} DecArrayExtends(f: Field, a: Array, wt: nat, b: seq<byte>, c: seq<byte>)
    requires DecArray(f, a, wt, b).Good?
    ensures DecArray(f, a, wt, b + c) == Good(DecArray(f, a, wt, b).v, DecArray(f, a, wt, b).rest + c)
  {
    hide SubString, DecPacked, DecVal;
    if wt == WT_STRING && Packable(f.ltype) {
      SubStringExtends(b, c);
    } else {
      DecValExtends(f, a.items[a.count], b, c);
    }
  }

  lemma {:induction false} DecFieldExtends(f: Field, s: Slot, fixedSize: nat, wt: nat, b: seq<byte>, c: seq<byte>)
    requires DecField(f, s, fixedSize, wt, b).Good?
    ensures DecField(f, s, fixedSize, wt, b + c) ==
            Good(DecField(f, s, fixedSize, wt, b).v, DecField(f, s, fixedSize, wt, b).rest + c)
  {
    hide DecArray, DecVal, UnionInit;
    if f.htype.Repeated? {
      if IsFixedCount(f) {
        DecArrayExtends(f, Array(fixedSize, s.items), wt, b, c);
      } else {
        DecArrayExtends(f, Array(s.count, s.items), wt, b, c);
      }
    } else if f.htype.Oneof? {
      DecValExtends(f, UnionInit(f, s.which, s.v), b, c);
    } else {
      DecValExtends(f, s.v, b, c);
    }
  }

  // ----- the loop goes on behind what it has accepted

  lemma {:induction false} StepExtends(fields: seq<Field>, ls: LoopState, b: seq<byte>, c: seq<byte>)
    requires LoopOk(fields, ls) && b != []
    ensures match Step(fields, ls, b)
            case StepBad => true
            case StepEof(rest) => Step(fields, ls, b + c) == StepEof(rest + c)
            case StepOk(ls', rest) => Step(fields, ls, b + c) == StepOk(ls', rest + c)
  {
    hide Dec32, FindFrom, StepField, Skip;
    if Dec32(b).Good? {
      Dec32Extends(b, c);
      match DecTag(b)
      case Key(tag, wt, rest) => StepKeyExtends(fields, ls, tag, wt, rest, c);
      case _ =>
    }
  }

  lemma {:induction false} StepKeyExtends(fields: seq<Field>, ls: LoopState, tag: nat, wt: nat, b: seq<byte>,
                                          c: seq<byte>)
    requires LoopOk(fields, ls)
    ensures StepKey(fields, ls, tag, wt, b).StepOk? ==>
              StepKey(fields, ls, tag, wt, b + c) ==
              StepOk(StepKey(fields, ls, tag, wt, b).ls, StepKey(fields, ls, tag, wt, b).rest + c)
  {
    hide FindFrom, Skip, DecField, Found;
    if StepKey(fields, ls, tag, wt, b).StepOk? {
      match FindFrom(fields, ls.pos, tag)
      case None => SkipExtends(wt, b, c);
      case Some(i) =>
        assert StepField(fields, ls, i, wt, b).StepOk?;
        DecFieldExtends(fields[i], ls.st[SlotOf(fields, i)], Found(fields, ls, i).value.fixedSize, wt, b, c);
    }
  }

  /** Bytes the loop reads to their end can be continued; at a zero key it stops for good. */
  lemma {:induction false} LoopExtends(fields: seq<Field>, ls: LoopState, a: seq<byte>, b: seq<byte>)
    requires LoopOk(fields, ls) && Loop(fields, ls, a).LoopEnd?
    ensures var r := Loop(fields, ls, a);
            if r.zeroKey then Loop(fields, ls, a + b) == LoopEnd(r.ls, r.rest + b, true)
            else r.rest == [] && Loop(fields, ls, a + b) == Loop(fields, r.ls, b)
    decreases |a|
  {
    hide Step;
    if a == [] {
      assert a + b == b;
    } else {
      StepExtends(fields, ls, a, b);
      match Step(fields, ls, a)
      case StepOk(ls', rest) => LoopExtends(fields, ls', rest, b);
      case _ =>
    }
  }

  // ----- the merge law

  predicate NoFixedCount(fields: seq<Field>)
  {
    forall i :: 0 <= i < |fields| ==> !IsFixedCount(fields[i])
  }

  /** The loop variables `ls` have come further than `ls0`: same struct, more fields seen, and an
      iterator that stands anywhere. */
  predicate Ahead(fields: seq<Field>, ls0: LoopState, ls: LoopState)
  {
    LoopOk(fields, ls0) && LoopOk(fields, ls) && ls.st == ls0.st && ls0.seen <= ls.seen &&
    ls.fixed.None? && ls0.fixed.None? && ls.fixedSize == ls0.fixedSize
  }

  /** With distinct tags a search does not depend on where the iterator stands. */
  lemma {:induction false} FindAnywhere(fields: seq<Field>, p: nat, q: nat, tag: nat)
    requires DistinctTags(fields) && p <= |fields| && q <= |fields|
    ensures FindFrom(fields, p, tag) == FindFrom(fields, q, tag)
  {
    match FindFrom(fields, p, tag)
    case Some(i) => FindUnique(fields, q, i);
    case None =>
  }

  lemma {:induction false} StepFieldAhead(fields: seq<Field>, ls0: LoopState, ls: LoopState, i: nat, wt: nat,
                                          b: seq<byte>)
    requires NoFixedCount(fields) && Ahead(fields, ls0, ls) && i < |fields|
    ensures match StepField(fields, ls0, i, wt, b)
            case StepOk(r0, rest) =>
              var r := StepField(fields, ls, i, wt, b);
              r.StepOk? && r.rest == rest && Ahead(fields, r0, r.ls)
            case _ => StepField(fields, ls, i, wt, b) == StepBad
  {
    hide DecField, RequiredBefore, SlotOf;
  }

  lemma {:induction false} StepAhead(fields: seq<Field>, ls0: LoopState, ls: LoopState, b: seq<byte>)
    requires DistinctTags(fields) && NoFixedCount(fields) && Ahead(fields, ls0, ls) && b != []
    ensures match Step(fields, ls0, b)
            case StepBad => Step(fields, ls, b) == StepBad
            case StepEof(rest) => Step(fields, ls, b) == StepEof(rest)
            case StepOk(r0, rest) =>
              var r := Step(fields, ls, b);
              r.StepOk? && r.rest == rest && Ahead(fields, r0, r.ls)
  {
    hide FindFrom, Skip, StepField, Dec32, NoFixedCount, DistinctTags;
    match DecTag(b)
    case Key(tag, wt, rest) =>
      assert Step(fields, ls0, b) == StepKey(fields, ls0, tag, wt, rest);
      assert Step(fields, ls, b) == StepKey(fields, ls, tag, wt, rest);
      FindAnywhere(fields, ls0.pos, ls.pos, tag);
      var found := FindFrom(fields, ls0.pos, tag);
      if found.Some? {
        StepFieldAhead(fields, ls0, ls, found.value, wt, rest);
      }
    case _ =>
  }

  lemma {:induction false} LoopAhead(fields: seq<Field>, ls0: LoopState, ls: LoopState, b: seq<byte>)
    requires DistinctTags(fields) && NoFixedCount(fields) && Ahead(fields, ls0, ls)
    ensures match Loop(fields, ls0, b)
            case LoopBad => Loop(fields, ls, b) == LoopBad
            case LoopEnd(r0, rest, z) =>
              var r := Loop(fields, ls, b);
              r.LoopEnd? && r.rest == rest && r.zeroKey == z && Ahead(fields, r0, r.ls)
    decreases |b|
  {
    hide Step;
    if b != [] {
      StepAhead(fields, ls0, ls, b);
      match Step(fields, ls0, b)
      case StepOk(r0, rest) => LoopAhead(fields, r0, Step(fields, ls, b).ls, rest);
      case _ =>
    }
  }

  lemma {:induction false} StepNoFixed(fields: seq<Field>, ls: LoopState, b: seq<byte>)
    requires NoFixedCount(fields) && LoopOk(fields, ls) && ls.fixed.None? && ls.fixedSize == 0 && b != []
    ensures var r := Step(fields, ls, b); r.StepOk? ==> r.ls.fixed.None? && r.ls.fixedSize == 0
  {
    hide FindFrom, Skip, Dec32, StepField;
    match DecTag(b)
    case Key(tag, wt, rest) =>
      var found := FindFrom(fields, ls.pos, tag);
      if found.Some? {
        StepFieldNoFixed(fields, ls, found.value, wt, rest);
      }
    case _ =>
  }

  lemma {:induction false} StepFieldNoFixed(fields: seq<Field>, ls: LoopState, i: nat, wt: nat, b: seq<byte>)
    requires NoFixedCount(fields) && LoopOk(fields, ls) && ls.fixed.None? && ls.fixedSize == 0 && i < |fields|
    ensures var r := StepField(fields, ls, i, wt, b); r.StepOk? ==> r.ls.fixed.None? && r.ls.fixedSize == 0
  {
    hide DecVal, DecArray, RequiredBefore, SlotOf;
  }

  lemma {:induction false} NoFixedTracked(fields: seq<Field>, ls: LoopState, b: seq<byte>)
    requires NoFixedCount(fields) && LoopOk(fields, ls) && ls.fixed.None? && ls.fixedSize == 0
    ensures Loop(fields, ls, b).LoopEnd? ==> Loop(fields, ls, b).ls.fixed.None? && Loop(fields, ls, b).ls.fixedSize == 0
    decreases |b|
  {
    hide Step;
    if b != [] {
      StepNoFixed(fields, ls, b);
      match Step(fields, ls, b)
      case StepOk(ls', rest) => NoFixedTracked(fields, ls', rest);
      case _ =>
    }
  }

  /** Decoding a and then b into the same struct is decoding a followed by b, although the one
      loop carries its iterator position and its seen set across the join. */
  lemma {:induction false} MergeLaw(fields: seq<Field>, st: Msg, a: seq<byte>, b: seq<byte>)
    requires DistinctTags(fields) && NoFixedCount(fields)
    requires Loop(fields, Start(st), a).LoopEnd? && !Loop(fields, Start(st), a).zeroKey
    requires DecMsg(fields, st, a).Good? && DecMsg(fields, DecMsg(fields, st, a).v, b).Good?
    ensures DecMsg(fields, st, a + b) == DecMsg(fields, DecMsg(fields, st, a).v, b)
  {
    hide Loop;
    LoopExtends(fields, Start(st), a, b);
    NoFixedTracked(fields, Start(st), a);
    var ls := Loop(fields, Start(st), a).ls;
    LoopAhead(fields, Start(ls.st), ls, b);
  }

  /** Without the zero-key condition: what follows a zero key is not read. */
  lemma {:induction false} ZeroKeyStops(fields: seq<Field>, st: Msg, a: seq<byte>, b: seq<byte>)
    requires DecMsg(fields, st, a).Good? && Loop(fields, Start(st), a).zeroKey
    ensures DecMsg(fields, st, a + b) == Good(DecMsg(fields, st, a).v, DecMsg(fields, st, a).rest + b)
  {
    hide Loop;
    LoopExtends(fields, Start(st), a, b);
  }

  lemma {:induction false} LoopConsumes(fields: seq<Field>, ls: LoopState, b: seq<byte>)
    requires LoopOk(fields, ls) && b != []
    ensures Loop(fields, ls, b).LoopEnd? ==> |Loop(fields, ls, b).rest| < |b|
  {
    hide Step;
  }

  /** One optional word. */
  function WordDescriptor(): seq<Field>
  {
    [Field(1, Fixed32, Optional, 0, 0, 4, 0, None)]
  }

  function Word(x: int): Msg
  {
    [Plain(IntVal(x))]
  }

  /** A concrete zero key: [0] and the field with value 1 are both accepted, together they leave
      the struct as it was. */
  lemma {:induction false} ZeroKeyExample(x: int)
    ensures var d, st, b := WordDescriptor(), Word(x), [13, 1, 0, 0, 0];
            && DecMsg(d, st, [0]) == Good(st, [])
            && DecMsg(d, st, b) == Good(Word(1), [])
            && DecMsg(d, st, [0] + b) == Good(st, b)
  {
    var d, st, b: seq<byte>, none: seq<byte> := WordDescriptor(), Word(x), [13, 1, 0, 0, 0], [];
    var zero: seq<byte> := [0];
    assert Dec32(zero) == Good(0, []) && Dec32(b) == Good(13, [1, 0, 0, 0]);
    assert RequiredBefore(d, 1) == 0 && RequiredSeen(d, {});
    hide Dec32, RequiredSeen;
    assert Step(d, Start(st), zero) == StepEof(none);
    assert Loop(d, Start(st), zero) == LoopEnd(Start(st), none, true);
    WordStep(x);
    assert Loop(d, Start(Word(1)), none) == LoopEnd(Start(Word(1)), none, false);
    assert Loop(d, Start(st), b) == Loop(d, Start(Word(1)), none);
    ZeroKeyStops(d, st, zero, b);
  }

  lemma {:induction false} WordStep(x: int)
    ensures Step(WordDescriptor(), Start(Word(x)), [13, 1, 0, 0, 0]) == StepOk(Start(Word(1)), [])
  {
    var d, st, b: seq<byte> := WordDescriptor(), Word(x), [13, 1, 0, 0, 0];
    var four: seq<byte> := b[1..];
    assert Dec32(b) == Good(13, four);
    hide Dec32;
    assert FindFrom(d, 0, 1) == Some(0) by {
      assert FindIn(d, 0, 1, 1) == Some(0);
    }
    assert FromLe32(four[..4]) == 1;
    assert four[4..] == [];
    assert DecLeaf(d[0], IntVal(x), four) == Good(IntVal(1), []);
    assert DecField(d[0], Plain(IntVal(x)), 0, 5, four) == Good(SlotSize(Plain(IntVal(1)), 0), []);
    assert st[0 := Plain(IntVal(1))] == Word(1);
    assert StepField(d, Start(st), 0, 5, four) == StepOk(Start(Word(1)), []);
  }

  /** Without the fixed-count condition: the count goes on across the join, so that one more
      element of a complete fixed-count array is refused. */
  lemma {:induction false} FixedCountDoesNotMerge(fields: seq<Field>, st: Msg, a: seq<byte>, i: nat, wt: nat,
                                                  b: seq<byte>)
    requires WfFields(fields) && i < |fields| && wt < 8 && !(wt == WT_STRING && Packable(fields[i].ltype))
    requires DecMsg(fields, st, a).Good? && !Loop(fields, Start(st), a).zeroKey
    requires Loop(fields, Start(st), a).ls.fixed == Some(i)
    ensures DecMsg(fields, st, a + (EncTag(wt, fields[i].tag) + b)) == Bad
  {
    var ls := Loop(fields, Start(st), a).ls;
    var more := EncTag(wt, fields[i].tag) + b;
    hide EncVarint, Dec32, DecMsg;
    LoopExtends(fields, Start(st), a, more);
    KeyStep(fields, ls, i, wt, b);
    DecMsgComplete(fields, st, a);
    CompleteRefuses(fields, ls, i, wt, b);
    DecMsgBad(fields, st, a + more);
  }

  lemma {:induction false} CompleteRefuses(fields: seq<Field>, ls: LoopState, i: nat, wt: nat, b: seq<byte>)
    requires i < |fields| && LoopOk(fields, ls) && FixedComplete(fields, ls) && ls.fixed == Some(i)
    requires !(wt == WT_STRING && Packable(fields[i].ltype))
    ensures StepField(fields, ls, i, wt, b) == StepBad
  {
    hide DecVal;
    var f, k := fields[i], SlotOf(fields, i);
    if k < |ls.st| && ls.st[k].FixedRep? {
      assert DecArray(f, Array(ls.fixedSize, ls.st[k].items), wt, b) == Bad;
      assert DecField(f, ls.st[k], ls.fixedSize, wt, b) == Bad;
    }
  }

  lemma {:induction false} DecMsgComplete(fields: seq<Field>, st: Msg, a: seq<byte>)
    requires DecMsg(fields, st, a).Good?
    ensures Loop(fields, Start(st), a).LoopEnd? && FixedComplete(fields, Loop(fields, Start(st), a).ls)
  {
    hide Loop;
  }

  lemma {:induction false} DecMsgBad(fields: seq<Field>, st: Msg, a: seq<byte>)
    requires Loop(fields, Start(st), a).LoopBad?
    ensures DecMsg(fields, st, a) == Bad
  {
    hide Loop;
  }

  // ----- unknown fields

  /** A key whose tag is not in the descriptor, with a payload that can be skipped. */
  predicate UnknownField(fields: seq<Field>, u: seq<byte>)
  {
    u != [] && DecTag(u).Key? && Skip(DecTag(u).wt, DecTag(u).rest) == Good((), []) &&
    forall i :: 0 <= i < |fields| ==> fields[i].tag != DecTag(u).tag
  }

  /** The loop skips exactly an unknown field, and its iterator comes back to where it was. */
  lemma {:induction false} UnknownSkipped(fields: seq<Field>, ls: LoopState, u: seq<byte>, q: seq<byte>)
    requires LoopOk(fields, ls) && UnknownField(fields, u) && (fields != [] || DecTag(u).tag != 0)
    ensures Loop(fields, ls, u + q) == Loop(fields, ls, q)
  {
    hide Dec32, Skip;
    Dec32Extends(u, q);
    SkipExtends(DecTag(u).wt, DecTag(u).rest, q);
    assert Step(fields, ls, u + q) == StepOk(ls, [] + q);
    assert [] + q == q;
  }

  /** Inserting an unknown field at any field boundary changes nothing, whether or not the rest
      of the message is accepted. */
  lemma {:induction false} UnknownTransparent(fields: seq<Field>, st: Msg, p: seq<byte>, u: seq<byte>, q: seq<byte>)
    requires Loop(fields, Start(st), p).LoopEnd? && !Loop(fields, Start(st), p).zeroKey
    requires UnknownField(fields, u) && (fields != [] || DecTag(u).tag != 0)
    ensures DecMsg(fields, st, p + u + q) == DecMsg(fields, st, p + q)
  {
    hide Loop, UnknownField;
    LoopExtends(fields, Start(st), p, u + q);
    LoopExtends(fields, Start(st), p, q);
    UnknownSkipped(fields, Loop(fields, Start(st), p).ls, u, q);
    assert p + u + q == p + (u + q);
  }

  /** The one exception: tag 0 finds the terminator of an empty descriptor, and the message is refused. */
  lemma {:induction false} EmptyDescriptorTagZero(st: Msg, p: seq<byte>, u: seq<byte>, q: seq<byte>)
    requires Loop([], Start(st), p).LoopEnd? && !Loop([], Start(st), p).zeroKey
    requires UnknownField([], u) && DecTag(u).tag == 0
    ensures DecMsg([], st, p + u + q) == Bad
  {
    var ls := Loop([], Start(st), p).ls;
    assert Loop([], ls, u + q) == LoopBad by {
      hide Dec32;
      Dec32Extends(u, q);
      assert Step([], ls, u + q) == StepBad;
    }
    hide Loop, UnknownField;
    LoopExtends([], Start(st), p, u + q);
    assert p + u + q == p + (u + q);
  }
}
