/**
 * Reference counts: the compare-and-swap loops of refcount_c11.c under every
 * interleaving, against the locked counter of refcount_lock.c.
 */
module Refcount {
  import opened Prelude

  /** CRYPTO_REFCOUNT_MAX */
  const MAX: nat := 0xffff_ffff

  datatype Op = Inc | Dec

  /** What an operation gives back: abort(), or the return value (an increment returns nothing, written false). */
  datatype Outcome = Abort | Ret(zero: bool)

  // ----- refcount_lock.c

  function LockedValue(v: nat, op: Op): nat {
    match op
    case Inc => if v < MAX then v + 1 else v
    case Dec => if v == 0 || v >= MAX then v else v - 1
  }

  function LockedOutcome(v: nat, op: Op): Outcome {
    match op
    case Inc => Ret(false)
    case Dec => if v == 0 then Abort else Ret(LockedValue(v, op) == 0)
  }

  class LockedCounter {
    var count: nat

    constructor (v: nat)
      ensures count == v
    {
      count := v;
    }

    method Increment()
      modifies this
      ensures count == LockedValue(old(count), Inc)
      ensures count == if old(count) < 0xffff_ffff then old(count) + 1 else old(count)
    {
      if count < MAX {
        count := count + 1;
      }
    }

    /** abort() is the outcome None. */
    method DecAndTestZero() returns (ret: Option<bool>)
      modifies this
      ensures count == LockedValue(old(count), Dec)
      ensures count == if 0 < old(count) < 0xffff_ffff then old(count) - 1 else old(count)
      ensures if old(count) == 0 then ret == None else ret == Some(old(count) == 1)
      ensures ret == (if LockedOutcome(old(count), Dec) == Abort then None else Some(LockedOutcome(old(count), Dec).zero))
    {
      if count == 0 {
        return None;
      }
      if count < MAX {
        count := count - 1;
      }
      ret := Some(count == 0);
    }
  }

  /** The locked counter after a sequence of operations. */
  function Value(v0: nat, ops: seq<Op>): nat {
    if ops == [] then v0 else LockedValue(Value(v0, ops[..|ops| - 1]), ops[|ops| - 1])
  }

  /** The outcome of operation k of the sequence. */
  function OutcomeAt(v0: nat, ops: seq<Op>, k: nat): Outcome
    requires k < |ops|
  {
    LockedOutcome(Value(v0, ops[..k]), ops[k])
  }

  // ----- refcount_c11.c

  /** Where an operation stands: not begun, in its loop with a local expected value, or over. */
  datatype Phase = Waiting | Looping(expected: nat) | Over(outcome: Outcome)

  datatype Call = Call(op: Op, phase: Phase)

  /** One atomic action of call id: the initial load, or one turn of its loop, whose weak exchange may fail for no reason. */
  datatype Event = Load(id: nat) | Turn(id: nat, spurious: bool)

  /** The cell, the calls, and the calls in the order in which they took effect. */
  datatype Shared = Shared(cell: nat, calls: seq<Call>, order: seq<nat>)

  /** The call reads the cell; a decrement that reads 0 is bound to abort, and takes effect here. */
  function Read(s: Shared, id: nat): Shared
    requires id < |s.calls|
  {
    var c := s.calls[id];
    Shared(s.cell, s.calls[id := c.(phase := Looping(s.cell))],
           if c.op == Dec && s.cell == 0 then s.order + [id] else s.order)
  }

  function Finish(s: Shared, id: nat, cell: nat, o: Outcome): Shared
    requires id < |s.calls|
  {
    Shared(cell, s.calls[id := s.calls[id].(phase := Over(o))], s.order + [id])
  }

  function OnEvent(s: Shared, e: Event): Shared {
    if e.id >= |s.calls| then s
    else
      var c := s.calls[e.id];
      match e
      case Load(id) => if c.phase == Waiting then Read(s, id) else s
      case Turn(id, spurious) =>
        if !c.phase.Looping? then s
        else
          var x := c.phase.expected;
          if c.op == Inc then
            if x == MAX then Finish(s, id, s.cell, Ret(false))
            else if s.cell == x && !spurious then Finish(s, id, x + 1, Ret(false))
            else Read(s, id)
          else if x == 0 then s.(calls := s.calls[id := c.(phase := Over(Abort))])
          else if x == MAX then Finish(s, id, s.cell, Ret(false))
          else if s.cell == x && !spurious then Finish(s, id, x - 1, Ret(x - 1 == 0))
          else Read(s, id)
  }

  function Fresh(ops: seq<Op>): seq<Call> {
    seq(|ops|, i requires 0 <= i < |ops| => Call(ops[i], Waiting))
  }

  function Run(v0: nat, ops: seq<Op>, es: seq<Event>): Shared {
    if es == [] then Shared(v0, Fresh(ops), []) else OnEvent(Run(v0, ops, es[..|es| - 1]), es[|es| - 1])
  }

  /** The operations in the order in which they took effect. */
  function OpsOf(ops: seq<Op>, order: seq<nat>): (r: seq<Op>)
    requires forall k :: 0 <= k < |order| ==> order[k] < |ops|
    ensures |r| == |order|
  {
    seq(|order|, k requires 0 <= k < |order| => ops[order[k]])
  }

  /** The call has taken effect. */
  predicate Effective(c: Call) {
    c.phase.Over? || (c.op == Dec && c.phase == Looping(0))
  }

  /** The outcome a call has, or is bound to have. */
  function OutcomeOf(c: Call): Outcome
    requires Effective(c)
  {
    if c.phase.Over? then c.phase.outcome else Abort
  }

  ghost predicate Distinct(order: seq<nat>) {
    forall i, j :: 0 <= i < j < |order| ==> order[i] != order[j]
  }

  ghost predicate Linear(v0: nat, ops: seq<Op>, s: Shared) {
    && s.cell <= MAX
    && |s.calls| == |ops|
    && (forall i :: 0 <= i < |ops| ==> s.calls[i].op == ops[i])
    && (forall k :: 0 <= k < |s.order| ==> s.order[k] < |ops|)
    && Distinct(s.order)
    && (forall i :: 0 <= i < |ops| ==> (i in s.order <==> Effective(s.calls[i])))
    && (forall i :: 0 <= i < |ops| && s.calls[i].phase == Looping(MAX) ==> s.cell == MAX)
    && (forall i :: 0 <= i < |ops| && s.calls[i].phase.Looping? ==> s.calls[i].phase.expected <= MAX)
    && Value(v0, OpsOf(ops, s.order)) == s.cell
    && forall k :: 0 <= k < |s.order| ==>
         Effective(s.calls[s.order[k]]) && OutcomeOf(s.calls[s.order[k]]) == OutcomeAt(v0, OpsOf(ops, s.order), k)
  }

  /** Call id takes effect last, on the cell as it is: the locked counter does the same. */
  lemma {:induction false} TakesEffect(v0: nat, ops: seq<Op>, s: Shared, id: nat, t: Shared)
    requires Linear(v0, ops, s) && id < |ops| && !Effective(s.calls[id])
    requires t.order == s.order + [id] && |t.calls| == |ops| && t.cell == LockedValue(s.cell, ops[id]) <= MAX
    requires t.calls[id].op == ops[id] && Effective(t.calls[id]) && OutcomeOf(t.calls[id]) == LockedOutcome(s.cell, ops[id])
    requires t.calls[id].phase.Looping? ==> t.calls[id].phase.expected == 0
    requires forall i :: 0 <= i < |ops| && i != id ==> t.calls[i] == s.calls[i]
    requires s.cell == MAX ==> t.cell == MAX
    ensures Linear(v0, ops, t)
  {
    hide LockedValue, LockedOutcome, OutcomeOf, Effective, OpsOf, Value, OutcomeAt, Distinct;
    assert id !in s.order;
    DistinctSnoc(s.order, id);
    forall k | 0 <= k < |t.order|
      ensures Effective(t.calls[t.order[k]]) && OutcomeOf(t.calls[t.order[k]]) == OutcomeAt(v0, OpsOf(ops, t.order), k)
    {
      OneMore(v0, ops, s.order, id, k);
      if k < |s.order| {
        assert t.order[k] == s.order[k] && s.order[k] in s.order;
      }
    }
    OneMore(v0, ops, s.order, id, |s.order|);
    forall i | 0 <= i < |ops| ensures i in t.order <==> Effective(t.calls[i]) {
      assert i in t.order <==> i in s.order || i == id;
    }
  }

  lemma {:induction false} DistinctSnoc(order: seq<nat>, id: nat)
    requires Distinct(order) && id !in order
    ensures Distinct(order + [id])
  {
  }

  /** One more operation leaves the outcomes of the others as they were. */
  lemma {:induction false} OneMore(v0: nat, ops: seq<Op>, order: seq<nat>, id: nat, k: nat)
    requires (forall j :: 0 <= j < |order| ==> order[j] < |ops|) && id < |ops| && k <= |order|
    ensures var before, after := OpsOf(ops, order), OpsOf(ops, order + [id]);
            && Value(v0, after) == LockedValue(Value(v0, before), ops[id])
            && OutcomeAt(v0, after, k) ==
               if k < |order| then OutcomeAt(v0, before, k) else LockedOutcome(Value(v0, before), ops[id])
  {
    hide LockedValue, LockedOutcome;
    var before, after := OpsOf(ops, order), OpsOf(ops, order + [id]);
    assert after == before + [ops[id]];
    assert after[..|after| - 1] == before;
    assert after[..k] == before[..k];
    assert k == |order| ==> before[..k] == before;
  }

  lemma {:induction false} StepLinear(v0: nat, ops: seq<Op>, s: Shared, e: Event)
    requires Linear(v0, ops, s)
    ensures Linear(v0, ops, OnEvent(s, e))
  {
    hide Value, OutcomeAt, OpsOf, Distinct;
    var t := OnEvent(s, e);
    if t.order != s.order {
      TakesEffect(v0, ops, s, e.id, t);
    }
  }

  lemma {:induction false} StartLinear(v0: nat, ops: seq<Op>)
    requires v0 <= MAX
    ensures Linear(v0, ops, Shared(v0, Fresh(ops), []))
  {
    assert OpsOf(ops, []) == [];
  }

  /**
   * Every interleaving, with any spurious failures: the cell holds what the locked counter holds after the
   * effective calls in the order of their effects, and each of them has the outcome it has there.
   */
  lemma {:induction false} Linearizable(v0: nat, ops: seq<Op>, es: seq<Event>)
    requires v0 <= MAX
    ensures Linear(v0, ops, Run(v0, ops, es))
    decreases |es|
  {
    hide Linear, OnEvent;
    if es == [] {
      StartLinear(v0, ops);
    } else {
      Linearizable(v0, ops, es[..|es| - 1]);
      StepLinear(v0, ops, Run(v0, ops, es[..|es| - 1]), es[|es| - 1]);
    }
  }

  /** The order of effects only grows, so a call that is over precedes every call that has not begun. */
  lemma {:induction false} OrderGrows(s: Shared, e: Event)
    ensures s.order <= OnEvent(s, e).order
  {
  }

  /** A count that has reached the maximum never changes again. */
  lemma {:induction false} Saturated(v0: nat, ops: seq<Op>, es: seq<Event>, more: seq<Event>)
    requires Run(v0, ops, es).cell == MAX
    ensures Run(v0, ops, es + more).cell == MAX
    decreases |more|
  {
    hide OnEvent;
    if more == [] {
      assert es + more == es;
    } else {
      var all := es + more;
      assert all[..|all| - 1] == es + more[..|more| - 1];
      Saturated(v0, ops, es, more[..|more| - 1]);
      SaturatedStep(Run(v0, ops, all[..|all| - 1]), all[|all| - 1]);
    }
  }

  lemma {:induction false} SaturatedStep(s: Shared, e: Event)
    requires s.cell == MAX
    ensures OnEvent(s, e).cell == MAX
  {
  }

  // ----- counting

  function Count(ops: seq<Op>, op: Op): nat {
    if ops == [] then 0 else Count(ops[..|ops| - 1], op) + if ops[|ops| - 1] == op then 1 else 0
  }

  /** Decrements that return 1. */
  function Zeros(v0: nat, ops: seq<Op>): nat {
    if ops == [] then 0
    else
      var pre := ops[..|ops| - 1];
      Zeros(v0, pre) + if LockedOutcome(Value(v0, pre), ops[|ops| - 1]) == Ret(true) then 1 else 0
  }

  /** Increments of a count that is 0: uses after the last reference is gone. */
  function FromZero(v0: nat, ops: seq<Op>): nat {
    if ops == [] then 0
    else
      var pre := ops[..|ops| - 1];
      FromZero(v0, pre) + if Value(v0, pre) == 0 && ops[|ops| - 1] == Inc then 1 else 0
  }

  /** Nothing saturates and no decrement finds 0. */
  ghost predicate Regular(v0: nat, ops: seq<Op>) {
    forall k :: 0 <= k < |ops| ==> Value(v0, ops[..k]) < MAX && OutcomeAt(v0, ops, k) != Abort
  }

  lemma {:induction false} RegularPrefix(v0: nat, ops: seq<Op>)
    requires Regular(v0, ops) && ops != []
    ensures var pre := ops[..|ops| - 1];
            Regular(v0, pre) && Value(v0, pre) < MAX && LockedOutcome(Value(v0, pre), ops[|ops| - 1]) != Abort
  {
    hide Value, LockedOutcome;
    var pre := ops[..|ops| - 1];
    forall k | 0 <= k < |pre| ensures Value(v0, pre[..k]) < MAX && OutcomeAt(v0, pre, k) != Abort {
      assert pre[..k] == ops[..k];
      assert OutcomeAt(v0, ops, k) != Abort;
    }
    assert OutcomeAt(v0, ops, |ops| - 1) != Abort;
  }

  /** The count is what was added less what was taken away, and each arrival at 0 but the last was left by an increment. */
  lemma {:induction false} Balance(v0: nat, ops: seq<Op>)
    requires Regular(v0, ops)
    ensures Value(v0, ops) == v0 + Count(ops, Inc) - Count(ops, Dec)
    ensures Zeros(v0, ops) + (if v0 == 0 then 1 else 0) == FromZero(v0, ops) + if Value(v0, ops) == 0 then 1 else 0
  {
    hide Regular;
    if ops != [] {
      RegularPrefix(v0, ops);
      Balance(v0, ops[..|ops| - 1]);
    }
  }

  ghost function Those(ops: seq<Op>, order: seq<nat>, op: Op): set<nat>
    requires forall k :: 0 <= k < |order| ==> order[k] < |ops|
  {
    set i | i in order && ops[i] == op
  }

  lemma {:induction false} ThoseSnoc(ops: seq<Op>, order: seq<nat>, last: nat, op: Op)
    requires (forall k :: 0 <= k < |order| ==> order[k] < |ops|) && last < |ops| && last !in order
    ensures |Those(ops, order + [last], op)| == |Those(ops, order, op)| + if ops[last] == op then 1 else 0
  {
    if ops[last] == op {
      assert Those(ops, order + [last], op) == Those(ops, order, op) + {last};
    } else {
      assert Those(ops, order + [last], op) == Those(ops, order, op);
    }
  }

  lemma {:induction false} OpsSnoc(ops: seq<Op>, order: seq<nat>, last: nat)
    requires (forall k :: 0 <= k < |order| ==> order[k] < |ops|) && last < |ops|
    ensures OpsOf(ops, order + [last]) == OpsOf(ops, order) + [ops[last]]
  {
  }

  lemma {:induction false} CountSnoc(ops: seq<Op>, x: Op, op: Op)
    ensures Count(ops + [x], op) == Count(ops, op) + if x == op then 1 else 0
  {
    assert (ops + [x])[..|ops|] == ops;
  }

  lemma {:induction false} CountNone(ops: seq<Op>, op: Op)
    ensures Count(OpsOf(ops, []), op) == 0 == |Those(ops, [], op)|
  {
    assert Those(ops, [], op) == {};
  }

  lemma {:induction false} CountThose(ops: seq<Op>, order: seq<nat>, op: Op)
    requires (forall k :: 0 <= k < |order| ==> order[k] < |ops|) && Distinct(order)
    ensures Count(OpsOf(ops, order), op) == |Those(ops, order, op)|
  {
    hide OpsOf, Those, Count;
    if order == [] {
      CountNone(ops, op);
    } else {
      var pre, last := order[..|order| - 1], order[|order| - 1];
      assert order == pre + [last] && last !in pre;
      CountThose(ops, pre, op);
      OpsSnoc(ops, pre, last);
      CountSnoc(OpsOf(ops, pre), ops[last], op);
      ThoseSnoc(ops, pre, last, op);
    }
  }

  function Upto(n: nat): (r: seq<nat>)
    ensures |r| == n && forall k :: 0 <= k < n ==> r[k] == k
  {
    seq(n, k => k)
  }

  /** All calls have taken effect: the order holds each operation once. */
  lemma {:induction false} CountAll(ops: seq<Op>, order: seq<nat>, op: Op)
    requires (forall k :: 0 <= k < |order| ==> order[k] < |ops|) && Distinct(order)
    requires forall i :: 0 <= i < |ops| ==> i in order
    ensures Count(OpsOf(ops, order), op) == Count(ops, op)
  {
    CountThose(ops, order, op);
    CountThose(ops, Upto(|ops|), op);
    assert OpsOf(ops, Upto(|ops|)) == ops;
    forall i ensures i in Those(ops, order, op) <==> i in Those(ops, Upto(|ops|), op) {
      if 0 <= i < |ops| {
        assert Upto(|ops|)[i] == i;
      }
    }
    assert Those(ops, order, op) == Those(ops, Upto(|ops|), op);
  }

  /** The calls that returned 1. */
  ghost function Last(s: Shared): set<nat> {
    set i: nat | i < |s.calls| && s.calls[i].phase == Over(Ret(true))
  }

  ghost function LastAmong(s: Shared, order: seq<nat>): set<nat> {
    set i | i in order && i < |s.calls| && s.calls[i].phase == Over(Ret(true))
  }

  lemma {:induction false} LastSnoc(s: Shared, order: seq<nat>, last: nat)
    requires last < |s.calls| && last !in order
    ensures |LastAmong(s, order + [last])| == |LastAmong(s, order)| + if s.calls[last].phase == Over(Ret(true)) then 1 else 0
  {
    if s.calls[last].phase == Over(Ret(true)) {
      assert LastAmong(s, order + [last]) == LastAmong(s, order) + {last};
    } else {
      assert LastAmong(s, order + [last]) == LastAmong(s, order);
    }
  }

  lemma {:induction false} ZerosSnoc(v0: nat, ops: seq<Op>, x: Op)
    ensures Zeros(v0, ops + [x]) == Zeros(v0, ops) + if LockedOutcome(Value(v0, ops), x) == Ret(true) then 1 else 0
  {
    hide LockedOutcome, Value;
    assert (ops + [x])[..|ops|] == ops;
  }

  lemma {:induction false} EarlierDiffer(order: seq<nat>, k: nat)
    requires Distinct(order) && k < |order|
    ensures order[k] !in order[..k]
  {
  }

  lemma {:induction false} ZerosNone(v0: nat, ops: seq<Op>, s: Shared)
    ensures Zeros(v0, OpsOf(ops, s.order[..0])) == 0 == |LastAmong(s, s.order[..0])|
  {
    assert LastAmong(s, s.order[..0]) == {};
  }

  lemma {:induction false} OpsPrefix(ops: seq<Op>, order: seq<nat>, k: nat)
    requires (forall j :: 0 <= j < |order| ==> order[j] < |ops|) && k < |order|
    ensures OpsOf(ops, order)[..k] == OpsOf(ops, order[..k]) && OpsOf(ops, order)[k] == ops[order[k]]
  {
  }

  lemma {:induction false} ZerosAreCalls(v0: nat, ops: seq<Op>, s: Shared, n: nat)
    requires n <= |s.order| && |s.calls| == |ops|
    requires forall k :: 0 <= k < |s.order| ==> s.order[k] < |ops|
    requires Distinct(s.order)
    requires forall k :: 0 <= k < |s.order| ==> s.calls[s.order[k]].phase == Over(OutcomeAt(v0, OpsOf(ops, s.order), k))
    ensures Zeros(v0, OpsOf(ops, s.order[..n])) == |LastAmong(s, s.order[..n])|
  {
    hide Value, LockedOutcome, LastAmong, Zeros, OpsOf, Distinct;
    if n == 0 {
      ZerosNone(v0, ops, s);
    } else {
      ZerosAreCalls(v0, ops, s, n - 1);
      var pre, last := s.order[..n - 1], s.order[n - 1];
      assert s.order[..n] == pre + [last];
      EarlierDiffer(s.order, n - 1);
      OpsSnoc(ops, pre, last);
      ZerosSnoc(v0, OpsOf(ops, pre), ops[last]);
      LastSnoc(s, pre, last);
      OpsPrefix(ops, s.order, n - 1);
    }
  }

  ghost predicate Finished(s: Shared) {
    forall i :: 0 <= i < |s.calls| ==> s.calls[i].phase.Over?
  }

  ghost predicate RegularRun(v0: nat, ops: seq<Op>, s: Shared) {
    (forall k :: 0 <= k < |s.order| ==> s.order[k] < |ops|) && Regular(v0, OpsOf(ops, s.order))
  }

  /**
   * n increments and n + 1 decrements from 1, all over, without saturation or abort: the count ends at 0, and
   * exactly one decrement returned 1 if and only if no increment took effect on a count of 0.
   */
  lemma {:induction false} OneLastReference(ops: seq<Op>, es: seq<Event>, n: nat)
    requires Count(ops, Inc) == n && Count(ops, Dec) == n + 1
    requires Finished(Run(1, ops, es)) && RegularRun(1, ops, Run(1, ops, es))
    ensures var s := Run(1, ops, es);
            && Linear(1, ops, s)
            && s.cell == 0
            && (|Last(s)| == 1 <==> FromZero(1, OpsOf(ops, s.order)) == 0)
  {
    hide Run, Regular, Value, Count, Zeros, FromZero;
    var s := Run(1, ops, es);
    Linearizable(1, ops, es);
    CountAll(ops, s.order, Inc);
    CountAll(ops, s.order, Dec);
    Balance(1, OpsOf(ops, s.order));
    ZerosAreCalls(1, ops, s, |s.order|);
    assert s.order[..|s.order|] == s.order;
    assert LastAmong(s, s.order) == Last(s);
  }

  /** An increment after the last reference is gone makes a second decrement return 1. */
  lemma {:induction false} RevivedCountEndsTwice()
    ensures Zeros(1, [Dec, Inc, Dec]) == 2 && FromZero(1, [Dec, Inc, Dec]) == 1 && Regular(1, [Dec, Inc, Dec])
  {
    var ops := [Dec, Inc, Dec];
    assert ops[..0] == [] && ops[..1] == [Dec] && ops[..2] == [Dec, Inc];
    assert [Dec][..0] == [] && [Dec, Inc][..1] == [Dec];
    assert Value(1, [Dec]) == 0 && Value(1, [Dec, Inc]) == 1;
  }
}
