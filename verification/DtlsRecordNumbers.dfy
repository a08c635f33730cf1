/**
 * Record numbers of the DTLS writer (RFC 6347, section 4.1): seals in the current
 * epoch, seals in the previous one, and changes of the write state.
 */
module DtlsRecordNumbers {
  const SEQ_LIMIT: nat := 0x1_0000_0000_0000
  const EPOCH_LIMIT: nat := 0x1_0000

  /** Each (epoch, number) the cipher has been applied to, in order. */
  type Log = seq<(nat, nat)>

  /** w_epoch, write_sequence and last_write_sequence */
  datatype Counters = Counters(epoch: nat, cur: nat, last: nat)

  datatype Event = SealCurrent | SealPrevious | ChangeState

  /** ssl_record_sequence_update on six bytes: wraps to zero, and then reports failure. */
  function Bump(n: nat): nat {
    (n + 1) % SEQ_LIMIT
  }

  function AfterSeal(c: Counters, previous: bool): Counters {
    if previous then c.(last := Bump(c.last)) else c.(cur := Bump(c.cur))
  }

  /** dtls1_set_write_state */
  function AfterChange(c: Counters): Counters {
    Counters((c.epoch + 1) % EPOCH_LIMIT, 0, c.cur)
  }

  function NumberOf(c: Counters, previous: bool): (nat, nat)
    requires previous ==> c.epoch >= 1
  {
    if previous then (c.epoch - 1, c.last) else (c.epoch, c.cur)
  }

  datatype Writer = Writer(c: Counters, log: Log)

  /** Nothing is sealed for the epoch before epoch 0. */
  function OnEvent(w: Writer, e: Event): Writer {
    match e
    case SealCurrent => Writer(AfterSeal(w.c, false), w.log + [NumberOf(w.c, false)])
    case SealPrevious =>
      if w.c.epoch == 0 then w else Writer(AfterSeal(w.c, true), w.log + [NumberOf(w.c, true)])
    case ChangeState => Writer(AfterChange(w.c), w.log)
  }

  const START := Writer(Counters(0, 0, 0), [])

  function Run(es: seq<Event>): Writer {
    if es == [] then START else OnEvent(Run(es[..|es| - 1]), es[|es| - 1])
  }

  // ----- the same run counted without bounds

  /** How often the write state was changed. */
  function Changes(es: seq<Event>): nat {
    if es == [] then 0
    else Changes(es[..|es| - 1]) + if es[|es| - 1] == ChangeState then 1 else 0
  }

  datatype Sealed = Nothing | For(gen: nat)

  /** The write state that event e seals a record for, after gen changes. */
  function SealedFor(e: Event, gen: nat): Sealed {
    match e
    case SealCurrent => For(gen)
    case SealPrevious => if gen % EPOCH_LIMIT == 0 then Nothing else For(gen - 1)
    case ChangeState => Nothing
  }

  /** How many records were sealed for write state g. */
  function Seals(es: seq<Event>, g: nat): nat {
    if es == [] then 0
    else
      var pre := es[..|es| - 1];
      Seals(pre, g) + if SealedFor(es[|es| - 1], Changes(pre)) == For(g) then 1 else 0
  }

  /** Write state and index of each sealed record. */
  function IdealLog(es: seq<Event>): Log {
    if es == [] then []
    else
      var pre := es[..|es| - 1];
      match SealedFor(es[|es| - 1], Changes(pre))
      case Nothing => IdealLog(pre)
      case For(g) => IdealLog(pre) + [(g, Seals(pre, g))]
  }

  /** An epoch has 16 bits and a number has 48. */
  function Cut(p: (nat, nat)): (nat, nat) {
    (p.0 % EPOCH_LIMIT, p.1 % SEQ_LIMIT)
  }

  function CutAll(log: Log): (r: Log)
    ensures |r| == |log|
  {
    seq(|log|, i requires 0 <= i < |log| => Cut(log[i]))
  }

  lemma {:induction false} NoneAhead(es: seq<Event>, g: nat)
    requires g > Changes(es)
    ensures Seals(es, g) == 0
  {
    if es != [] {
      NoneAhead(es[..|es| - 1], g);
    }
  }

  /** One event of a run. */
  lemma {:induction false} RunSnoc(pre: seq<Event>, e: Event)
    ensures var es, sealed := pre + [e], SealedFor(e, Changes(pre));
            && Run(es) == OnEvent(Run(pre), e)
            && Changes(es) == Changes(pre) + (if e == ChangeState then 1 else 0)
            && IdealLog(es) == IdealLog(pre) + if sealed.For? then [(sealed.gen, Seals(pre, sealed.gen))] else []
  {
    assert (pre + [e])[..|pre|] == pre;
  }

  lemma {:induction false} SealsSnoc(pre: seq<Event>, e: Event, g: nat)
    ensures Seals(pre + [e], g) == Seals(pre, g) + if SealedFor(e, Changes(pre)) == For(g) then 1 else 0
  {
    assert (pre + [e])[..|pre|] == pre;
  }

  lemma {:induction false} BumpCut(n: nat)
    ensures Bump(n % SEQ_LIMIT) == (n + 1) % SEQ_LIMIT
  {
  }

  lemma {:induction false} EpochCut(g: nat)
    ensures (g % EPOCH_LIMIT + 1) % EPOCH_LIMIT == (g + 1) % EPOCH_LIMIT
    ensures g % EPOCH_LIMIT != 0 ==> g > 0 && (g - 1) % EPOCH_LIMIT == g % EPOCH_LIMIT - 1
  {
  }

  /** The counters hold what the unbounded counts leave in 16 and 48 bits. */
  ghost predicate Counted(w: Writer, es: seq<Event>) {
    var g := Changes(es);
    && w.c.epoch == g % EPOCH_LIMIT
    && w.c.cur == Seals(es, g) % SEQ_LIMIT
    && w.c.last == (if g == 0 then 0 else Seals(es, g - 1) % SEQ_LIMIT)
    && w.log == CutAll(IdealLog(es))
  }

  lemma {:induction false} CountersAreCut(es: seq<Event>)
    ensures Counted(Run(es), es)
  {
    if es != [] {
      var pre, e := es[..|es| - 1], es[|es| - 1];
      assert es == pre + [e];
      CountersAreCut(pre);
      EventCounted(pre, e);
    }
  }

  lemma {:induction false} EventCounted(pre: seq<Event>, e: Event)
    requires Counted(Run(pre), pre)
    ensures Counted(Run(pre + [e]), pre + [e])
  {
    hide Run, Seals, Changes, IdealLog, Bump, CutAll;
    var g := Changes(pre);
    RunSnoc(pre, e);
    SealsSnoc(pre, e, g);
    if g > 0 {
      SealsSnoc(pre, e, g - 1);
      BumpCut(Seals(pre, g - 1));
    }
    EpochCut(g);
    BumpCut(Seals(pre, g));
    match e
    case SealCurrent =>
      CutSnoc(IdealLog(pre), (g, Seals(pre, g)));
    case SealPrevious =>
      if g % EPOCH_LIMIT != 0 {
        CutSnoc(IdealLog(pre), (g - 1, Seals(pre, g - 1)));
      } else {
        assert IdealLog(pre) + [] == IdealLog(pre);
      }
    case ChangeState =>
      NoneAhead(pre, g + 1);
      SealsSnoc(pre, e, g + 1);
      assert IdealLog(pre) + [] == IdealLog(pre);
  }

  lemma {:induction false} CutSnoc(log: Log, p: (nat, nat))
    ensures CutAll(log + [p]) == CutAll(log) + [Cut(p)]
  {
  }

  /** Each write state's records have the indices 0, 1, 2, ..., and no others. */
  lemma {:induction false} IdealHas(es: seq<Event>, g: nat, n: nat)
    ensures (g, n) in IdealLog(es) <==> n < Seals(es, g)
  {
    if es != [] {
      IdealHas(es[..|es| - 1], g, n);
    }
  }

  ghost predicate Distinct(log: Log) {
    forall i, j :: 0 <= i < j < |log| ==> log[i] != log[j]
  }

  lemma {:induction false} IdealDistinct(es: seq<Event>)
    ensures Distinct(IdealLog(es))
  {
    if es != [] {
      var pre := es[..|es| - 1];
      IdealDistinct(pre);
      var sealed := SealedFor(es[|es| - 1], Changes(pre));
      if sealed.For? {
        IdealHas(pre, sealed.gen, Seals(pre, sealed.gen));
      }
    }
  }

  // ----- which runs never use a number twice

  /** No write state seals more than 2^48 records, and none that seals shares its epoch with another that does. */
  ghost predicate Fits(es: seq<Event>) {
    && (forall g: nat :: Seals(es, g) <= SEQ_LIMIT)
    && (forall g: nat, h: nat :: g < h && g % EPOCH_LIMIT == h % EPOCH_LIMIT ==> Seals(es, g) == 0 || Seals(es, h) == 0)
  }

  lemma {:induction false} SameCut(es: seq<Event>, p: (nat, nat), q: (nat, nat))
    requires p in IdealLog(es) && q in IdealLog(es) && p != q && Cut(p) == Cut(q)
    ensures !Distinct(Run(es).log)
  {
    CountersAreCut(es);
    var log := IdealLog(es);
    var i :| 0 <= i < |log| && log[i] == p;
    var j :| 0 <= j < |log| && log[j] == q;
    assert Run(es).log[i] == Cut(p) && Run(es).log[j] == Cut(q);
  }

  /** Over any interleaving of seals and state changes, no (epoch, number) is used twice exactly if
      the seals of each write state fit. */
  lemma {:induction false} UniqueNumbers(es: seq<Event>)
    ensures Distinct(Run(es).log) <==> Fits(es)
  {
    hide Run, IdealLog, Seals;
    forall g: nat | Seals(es, g) > SEQ_LIMIT ensures !Distinct(Run(es).log) {
      IdealHas(es, g, 0);
      IdealHas(es, g, SEQ_LIMIT);
      SameCut(es, (g, 0), (g, SEQ_LIMIT));
    }
    forall g: nat, h: nat | g < h && g % EPOCH_LIMIT == h % EPOCH_LIMIT && Seals(es, g) > 0 && Seals(es, h) > 0
      ensures !Distinct(Run(es).log)
    {
      IdealHas(es, g, 0);
      IdealHas(es, h, 0);
      SameCut(es, (g, 0), (h, 0));
    }
    if Fits(es) {
      CountersAreCut(es);
      IdealDistinct(es);
      var log := IdealLog(es);
      forall i, j | 0 <= i < j < |log| ensures Cut(log[i]) != Cut(log[j]) {
        FittingApart(es, log[i], log[j]);
      }
    }
  }

  lemma {:induction false} FittingApart(es: seq<Event>, p: (nat, nat), q: (nat, nat))
    requires Fits(es) && p in IdealLog(es) && q in IdealLog(es) && p != q
    ensures Cut(p) != Cut(q)
  {
    hide IdealLog, Seals;
    IdealHas(es, p.0, p.1);
    IdealHas(es, q.0, q.1);
    if p.0 == q.0 {
      assert p.1 < SEQ_LIMIT && q.1 < SEQ_LIMIT;
    } else if p.0 % EPOCH_LIMIT == q.0 % EPOCH_LIMIT {
      assert false;
    }
  }

  // ----- the numbers of one epoch

  /** The numbers used in epoch e, in order of use. */
  function NumbersOf(log: Log, e: nat): seq<nat> {
    if log == [] then []
    else
      var (x, n) := log[|log| - 1];
      NumbersOf(log[..|log| - 1], e) + (if x == e then [n] else [])
  }

  lemma {:induction false} NumbersSnoc(log: Log, p: (nat, nat), e: nat)
    ensures NumbersOf(log + [p], e) == NumbersOf(log, e) + if p.0 == e then [p.1] else []
  {
    assert (log + [p])[..|log|] == log;
  }

  function Range(k: nat): (r: seq<nat>)
    ensures |r| == k && forall i :: 0 <= i < k ==> r[i] == i
  {
    seq(k, i => i)
  }

  /** Up to 2^16 - 1 state changes and 2^48 records of epoch e, the numbers used in it are 0, 1, 2, ...
      in this order. */
  lemma {:induction false} EpochsCountUp(es: seq<Event>, e: nat)
    requires Changes(es) < EPOCH_LIMIT && Seals(es, e) <= SEQ_LIMIT
    ensures NumbersOf(Run(es).log, e) == Range(Seals(es, e))
  {
    if es != [] {
      var pre, x := es[..|es| - 1], es[|es| - 1];
      assert es == pre + [x];
      EpochsCountUp(pre, e);
      CountsUpOneMore(pre, x, e);
    }
  }

  lemma {:induction false} CountsUpOneMore(pre: seq<Event>, x: Event, e: nat)
    requires Changes(pre) < EPOCH_LIMIT && Seals(pre + [x], e) <= SEQ_LIMIT
    requires NumbersOf(Run(pre).log, e) == Range(Seals(pre, e))
    ensures NumbersOf(Run(pre + [x]).log, e) == Range(Seals(pre + [x], e))
  {
    hide Run, Seals, Changes, IdealLog, NumbersOf, Range, Bump;
    CountersAreCut(pre);
    RunSnoc(pre, x);
    SealsSnoc(pre, x, e);
    var w, g, k := Run(pre), Changes(pre), Seals(pre, e);
    RangeSnoc(k);
    assert Range(k) + [] == Range(k);
    assert g % EPOCH_LIMIT == g == w.c.epoch;
    match x
    case SealCurrent => NumbersSnoc(w.log, (g, w.c.cur), e);
    case SealPrevious =>
      if g > 0 {
        NumbersSnoc(w.log, (g - 1, w.c.last), e);
      }
    case ChangeState =>
  }

  lemma {:induction false} RangeSnoc(k: nat)
    ensures Range(k + 1) == Range(k) + [k]
  {
  }

  // ----- two runs that do

  function SealingRun(n: nat): (es: seq<Event>)
    ensures |es| == n
  {
    seq(n, _ => SealCurrent)
  }

  lemma {:induction false} SealingRunSeals(n: nat, g: nat)
    ensures Changes(SealingRun(n)) == 0 && Seals(SealingRun(n), g) == if g == 0 then n else 0
  {
    if n > 0 {
      assert SealingRun(n)[..n - 1] == SealingRun(n - 1);
      SealingRunSeals(n - 1, g);
    }
  }

  /** 2^48 records of one epoch have different numbers, although the update after the last one fails;
      one record more uses a number again. */
  lemma {:induction false} WrapRepeats()
    ensures Distinct(Run(SealingRun(SEQ_LIMIT)).log)
    ensures !Distinct(Run(SealingRun(SEQ_LIMIT + 1)).log)
  {
    hide Run, Seals, SealingRun, Distinct;
    var es, more := SealingRun(SEQ_LIMIT), SealingRun(SEQ_LIMIT + 1);
    forall g: nat ensures Seals(es, g) == if g == 0 then SEQ_LIMIT else 0 {
      SealingRunSeals(SEQ_LIMIT, g);
    }
    UniqueNumbers(es);
    SealingRunSeals(SEQ_LIMIT + 1, 0);
    UniqueNumbers(more);
  }

  function ChangingRun(n: nat): (es: seq<Event>)
    ensures |es| == n + 1
  {
    [SealCurrent] + seq(n, _ => ChangeState)
  }

  lemma {:induction false} ChangingRunSeals(n: nat)
    ensures Changes(ChangingRun(n)) == n && Seals(ChangingRun(n), 0) == 1
  {
    if n > 0 {
      assert ChangingRun(n)[..n] == ChangingRun(n - 1);
      ChangingRunSeals(n - 1);
    } else {
      assert ChangingRun(0)[..0] == [];
    }
  }

  /** After 2^16 state changes the epoch is 0 again, and so is its first number. */
  lemma {:induction false} EpochWrapRepeats()
    ensures !Distinct(Run(ChangingRun(EPOCH_LIMIT) + [SealCurrent]).log)
  {
    hide Run, ChangingRun, Distinct;
    var pre := ChangingRun(EPOCH_LIMIT);
    var es := pre + [SealCurrent];
    assert es[..|es| - 1] == pre;
    ChangingRunSeals(EPOCH_LIMIT);
    assert Seals(es, 0) == 1 && Seals(es, EPOCH_LIMIT) >= 1;
    assert !Fits(es);
    UniqueNumbers(es);
  }
}
