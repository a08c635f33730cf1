/**
 * The flight that ends a handshake: messages and a ChangeCipherSpec in epoch 0, and a Finished in
 * epoch 1, over a network that loses, repeats and reorders records (RFC 6347, sections 4.1 and 4.2.4).
 */
module DtlsTwoEpochs {
  import opened Prelude
  import opened DtlsMessages
  import opened DtlsReceive
  import opened DtlsEndToEnd
  import opened DtlsRecordWriter
  import opened DtlsFlight
  import Net = DtlsNetwork

  /** The outgoing flight: msgs, ChangeCipherSpec, and fin under the next write state. */
  ghost predicate StoresAll(out: seq<Outgoing>, msgs: seq<Message>, fin: Message) {
    && |out| == |msgs| + 2
    && (forall i :: 0 <= i < |msgs| ==> out[i].epoch == 0 && !out[i].isCcs && Stored(out[i]) == Some(msgs[i]))
    && out[|msgs|].isCcs && out[|msgs|].epoch == 0
    && !out[|msgs| + 1].isCcs && out[|msgs| + 1].epoch == 1 && Stored(out[|msgs| + 1]) == Some(fin)
  }

  /** Reading epoch 0, reading epoch 1, or done with the handshake and its records. */
  datatype Phase = Reading | Changed | Done

  /** The receiver, and the fragments let through since the last change of the read state. */
  datatype Peer = Peer(s: State, phase: Phase, delivered: seq<Message>, seen: seq<Fragment>, failed: bool)

  /** A record arrives, the handshake takes a message if there is one, or it tries to change the read state. */
  datatype Event = Arrive(rec: WireRecord) | Take | Change

  function TypeOf(typ: byte): RecordType {
    if typ == RT_HANDSHAKE then Handshake
    else if typ == RT_CHANGE_CIPHER_SPEC then RecordType.ChangeCipherSpec
    else OtherType
  }

  ghost function Beginning(base: nat): Peer {
    Peer(State(base, 0, map[], false, false), Reading, [], [], false)
  }

  /** A record of another epoch is dropped unopened. */
  ghost function OnArrival(p: Peer, N: nat, maxLen: nat, rec: WireRecord): Peer {
    if p.phase == Done || rec.epoch != p.s.epoch then p
    else
      var o := OnRecord(p.s, N, maxLen, p.s.epoch == 0, TypeOf(rec.typ), rec.plain);
      Peer(o.s, p.phase, p.delivered, p.seen + (if FragmentOf(rec).Some? then [FragmentOf(rec).value] else []),
           o.verdict != Success)
  }

  /** The Finished is the last message of the handshake. */
  ghost function OnTake(p: Peer): Peer {
    if p.phase == Done || !Available(p.s) then p
    else p.(s := Advance(p.s), delivered := p.delivered + [Current(p.s)],
            phase := if p.phase == Changed then Done else p.phase)
  }

  /** The handshake has read its k messages and polls the ChangeCipherSpec flag: it is cleared, and dtls1_set_read_state
      starts a new epoch unless something is left unprocessed. */
  ghost function OnChange(p: Peer, k: nat): Peer {
    if p.phase != Reading || |p.delivered| < k || !p.s.ccs then p
    else
      var s := p.s.(ccs := false);
      if Unprocessed(s) then p.(s := s, failed := true)
      else p.(s := s.(epoch := s.epoch + 1), phase := Changed, seen := [])
  }

  ghost function OnEvent(p: Peer, N: nat, maxLen: nat, k: nat, e: Event): Peer {
    if p.failed then p
    else match e
      case Arrive(rec) => OnArrival(p, N, maxLen, rec)
      case Take => OnTake(p)
      case Change => OnChange(p, k)
  }

  ghost function Run(base: nat, N: nat, maxLen: nat, k: nat, es: seq<Event>): Peer {
    if es == [] then Beginning(base)
    else OnEvent(Run(base, N, maxLen, k, es[..|es| - 1]), N, maxLen, k, es[|es| - 1])
  }

  /** What the two ends agree on. */
  ghost predicate Setting(out: seq<Outgoing>, msgs: seq<Message>, fin: Message, base: nat, N: nat, maxLen: nat) {
    && Flight(msgs, base, N, maxLen)
    && Flight([fin], base + |msgs|, N, maxLen)
    && StoresAll(out, msgs, fin)
  }

  ghost predicate AllSent(out: seq<Outgoing>, es: seq<Event>) {
    forall i :: 0 <= i < |es| && es[i].Arrive? ==> Net.SentBy(out, es[i].rec)
  }

  ghost predicate Holds(msgs: seq<Message>, fin: Message, base: nat, p: Peer) {
    && !p.failed && !p.s.hasMessage
    && match p.phase
       case Reading =>
         && p.s.epoch == 0 && p.delivered <= msgs
         && Inv(msgs, base, p.seen, |p.delivered|, p.s)
       case Changed =>
         && p.s.epoch == 1 && !p.s.ccs && p.delivered == msgs
         && Inv([fin], base + |msgs|, p.seen, 0, p.s)
       case Done => p.delivered == msgs + [fin]
  }

  // ----- what a record of the flight is

  lemma {:induction false} EpochZeroRecord(out: seq<Outgoing>, msgs: seq<Message>, fin: Message, base: nat, N: nat,
                                           maxLen: nat, rec: WireRecord)
    requires Setting(out, msgs, fin, base, N, maxLen) && Net.SentBy(out, rec) && rec.epoch == 0
    ensures if rec.typ == RT_CHANGE_CIPHER_SPEC then rec.plain == [1] && FragmentOf(rec) == None
            else rec.typ == RT_HANDSHAKE && FragmentOf(rec).Some? && Genuine(msgs, base, maxLen, FragmentOf(rec).value)
  {
    hide EncFragment, Stored, FragmentOf;
    var pos, after :| Step(out, pos, rec, after);
    StepFragment(out, pos, rec, after);
    if pos.written < |msgs| {
      Net.PlainIsItsFragment(rec);
    }
  }

  lemma {:induction false} EpochOneRecord(out: seq<Outgoing>, msgs: seq<Message>, fin: Message, base: nat, N: nat,
                                          maxLen: nat, rec: WireRecord)
    requires Setting(out, msgs, fin, base, N, maxLen) && Net.SentBy(out, rec) && rec.epoch == 1
    ensures rec.typ == RT_HANDSHAKE && FragmentOf(rec).Some?
    ensures Genuine([fin], base + |msgs|, maxLen, FragmentOf(rec).value)
    ensures FragmentOf(rec).value.seqNum == base + |msgs|
  {
    hide EncFragment, Stored, FragmentOf;
    var pos, after :| Step(out, pos, rec, after);
    StepFragment(out, pos, rec, after);
    assert pos.written == |msgs| + 1;
    Net.PlainIsItsFragment(rec);
    assert [fin][0] == fin;
  }

  /** A record of one fragment is that fragment. */
  lemma {:induction false} OneFragment(s: State, N: nat, maxLen: nat, rec: WireRecord)
    requires FragmentOf(rec).Some? && rec.typ == RT_HANDSHAKE
    ensures OnRecord(s, N, maxLen, s.epoch == 0, TypeOf(rec.typ), rec.plain) == OnFragment(s, N, maxLen, FragmentOf(rec).value)
  {
    hide OnFragment, EncFragments, OnHandshakeRecord, FragmentOf;
    Net.PlainIsItsFragment(rec);
    var fs := Net.FragmentsIn(rec);
    RecordIsItsFragments(s, N, maxLen, fs);
    var o := OnFragment(s, N, maxLen, fs[0]);
    assert fs[1..] == [];
    assert OnFragments(o.s, N, maxLen, []) == Outcome(o.s, Success);
    assert OnFragments(s, N, maxLen, fs) == if o.verdict != Success then o else OnFragments(o.s, N, maxLen, fs[1..]);
  }

  // ----- each event keeps the invariant

  lemma {:induction false} InvSameParts(msgs: seq<Message>, base: nat, fs: seq<Fragment>, n: nat, s: State, t: State)
    requires Inv(msgs, base, fs, n, s) && t.next == s.next && t.parts == s.parts
    ensures Inv(msgs, base, fs, n, t)
  {
    hide Faithful, Seen;
  }

  lemma {:induction false} ArrivalHolds(out: seq<Outgoing>, msgs: seq<Message>, fin: Message, base: nat, N: nat,
                                        maxLen: nat, p: Peer, rec: WireRecord)
    requires Setting(out, msgs, fin, base, N, maxLen) && Net.SentBy(out, rec) && Holds(msgs, fin, base, p)
    ensures Holds(msgs, fin, base, OnArrival(p, N, maxLen, rec))
  {
    hide Inv, Genuine, FragmentOf, OnFragment, OnHandshakeRecord, StoresAll, Net.SentBy, Flight;
    if p.phase != Done && rec.epoch == p.s.epoch {
      if p.phase == Reading {
        EpochZeroRecord(out, msgs, fin, base, N, maxLen, rec);
        if rec.typ == RT_CHANGE_CIPHER_SPEC {
          assert p.seen + [] == p.seen;
          InvSameParts(msgs, base, p.seen, |p.delivered|, p.s, p.s.(ccs := true));
        } else {
          OneFragment(p.s, N, maxLen, rec);
          FragmentStep(msgs, base, N, maxLen, p.seen, |p.delivered|, p.s, FragmentOf(rec).value);
        }
      } else {
        EpochOneRecord(out, msgs, fin, base, N, maxLen, rec);
        OneFragment(p.s, N, maxLen, rec);
        InvNext([fin], base + |msgs|, p.seen, 0, p.s);
        FragmentStep([fin], base + |msgs|, N, maxLen, p.seen, 0, p.s, FragmentOf(rec).value);
      }
    }
  }

  lemma {:induction false} InvNext(msgs: seq<Message>, base: nat, fs: seq<Fragment>, n: nat, s: State)
    requires Inv(msgs, base, fs, n, s)
    ensures s.next == base + n
  {
    hide Faithful, Seen;
  }

  lemma {:induction false} FlightNumbers(msgs: seq<Message>, base: nat, N: nat, maxLen: nat)
    requires Flight(msgs, base, N, maxLen)
    ensures forall i :: 0 <= i < |msgs| ==> msgs[i].seqNum == base + i
  {
  }

  lemma {:induction false} TakeHolds(out: seq<Outgoing>, msgs: seq<Message>, fin: Message, base: nat, N: nat,
                                     maxLen: nat, p: Peer)
    requires Setting(out, msgs, fin, base, N, maxLen) && Holds(msgs, fin, base, p)
    ensures Holds(msgs, fin, base, OnTake(p))
  {
    hide Inv, Available, Advance, StoresAll, Flight, AllSeen;
    FlightNumbers(msgs, base, N, maxLen);
    FlightNumbers([fin], base + |msgs|, N, maxLen);
    if p.phase != Done && Available(p.s) {
      if p.phase == Reading {
        AvailableExact(msgs, base, p.seen, |p.delivered|, p.s);
        TakeStep(msgs, base, N, maxLen, p.seen, |p.delivered|, p.s);
      } else {
        AvailableExact([fin], base + |msgs|, p.seen, 0, p.s);
        TakeStep([fin], base + |msgs|, N, maxLen, p.seen, 0, p.s);
        assert [fin][0] == fin;
      }
    }
  }

  lemma {:induction false} ChangeHolds(msgs: seq<Message>, fin: Message, base: nat, p: Peer)
    requires Holds(msgs, fin, base, p)
    ensures Holds(msgs, fin, base, OnChange(p, |msgs|))
    ensures p.phase == Reading && p.delivered == msgs && p.s.ccs ==> OnChange(p, |msgs|).phase == Changed
  {
    hide Faithful;
    if p.phase == Reading && |p.delivered| >= |msgs| && p.s.ccs {
      assert p.delivered == msgs;
      var s := p.s.(ccs := false);
      assert s.parts == map[];
      assert !Unprocessed(s);
    }
  }

  /**
   * In every run no record is an error and the change of the read state is never refused; what was handed
   * out is a prefix of the messages and the Finished; the read state changed only behind the last message,
   * and the Finished was taken only behind the change.
   */
  lemma {:induction false} RunHolds(out: seq<Outgoing>, msgs: seq<Message>, fin: Message, base: nat, N: nat,
                                    maxLen: nat, es: seq<Event>)
    requires Setting(out, msgs, fin, base, N, maxLen) && AllSent(out, es)
    ensures var p := Run(base, N, maxLen, |msgs|, es);
            Holds(msgs, fin, base, p) && !p.failed && p.delivered <= msgs + [fin]
  {
    hide Inv, Net.SentBy, OnArrival, OnTake, OnChange;
    if es == [] {
      StartHolds(msgs, fin, base);
    } else {
      var pre, e := es[..|es| - 1], es[|es| - 1];
      RunHolds(out, msgs, fin, base, N, maxLen, pre);
      var p := Run(base, N, maxLen, |msgs|, pre);
      match e
      case Arrive(rec) => ArrivalHolds(out, msgs, fin, base, N, maxLen, p, rec);
      case Take => TakeHolds(out, msgs, fin, base, N, maxLen, p);
      case Change => ChangeHolds(msgs, fin, base, p);
    }
  }

  lemma {:induction false} StartHolds(msgs: seq<Message>, fin: Message, base: nat)
    ensures Holds(msgs, fin, base, Beginning(base))
  {
    StartInv(msgs, base);
  }

  // ----- once everything has arrived

  /** What the pass has to say in epoch 0 or 1 has arrived among these events. */
  ghost predicate Through(recs: seq<WireRecord>, epoch: nat, es: seq<Event>) {
    forall j :: 0 <= j < |recs| && recs[j].epoch == epoch ==> Event.Arrive(recs[j]) in es
  }

  lemma {:induction false} RunSnoc(base: nat, N: nat, maxLen: nat, k: nat, es: seq<Event>, e: Event)
    ensures Run(base, N, maxLen, k, es + [e]) == OnEvent(Run(base, N, maxLen, k, es), N, maxLen, k, e)
  {
    assert (es + [e])[..|es|] == es;
  }

  /** Before the change, each fragment and the ChangeCipherSpec that arrived in epoch 0 was let through. */
  lemma {:induction false} SeenInReading(out: seq<Outgoing>, msgs: seq<Message>, fin: Message, base: nat, N: nat,
                                         maxLen: nat, es: seq<Event>, rec: WireRecord)
    requires Setting(out, msgs, fin, base, N, maxLen) && AllSent(out, es)
    requires Change !in es && Event.Arrive(rec) in es && rec.epoch == 0
    ensures var p := Run(base, N, maxLen, |msgs|, es);
            && (FragmentOf(rec).Some? ==> FragmentOf(rec).value in p.seen)
            && (rec.typ == RT_CHANGE_CIPHER_SPEC ==> p.s.ccs)
    decreases |es|
  {
    hide Inv, Setting, FragmentOf, OnHandshakeRecord, Available;
    var pre, e := es[..|es| - 1], es[|es| - 1];
    StaysReading(out, msgs, fin, base, N, maxLen, pre);
    var p := Run(base, N, maxLen, |msgs|, pre);
    if e.Arrive? {
      ArrivalKeeps(out, msgs, fin, base, N, maxLen, p, e.rec);
    }
    if e != Event.Arrive(rec) {
      SeenInReading(out, msgs, fin, base, N, maxLen, pre, rec);
    }
  }

  lemma {:induction false} StaysReading(out: seq<Outgoing>, msgs: seq<Message>, fin: Message, base: nat, N: nat,
                                        maxLen: nat, es: seq<Event>)
    requires Setting(out, msgs, fin, base, N, maxLen) && AllSent(out, es) && Change !in es
    ensures Run(base, N, maxLen, |msgs|, es).phase == Reading && Holds(msgs, fin, base, Run(base, N, maxLen, |msgs|, es))
    decreases |es|
  {
    RunHolds(out, msgs, fin, base, N, maxLen, es);
    hide Holds, Setting, OnRecord, Available, FragmentOf;
    if es != [] {
      StaysReading(out, msgs, fin, base, N, maxLen, es[..|es| - 1]);
    }
  }

  /** A record of the current epoch is let through. */
  lemma {:induction false} ArrivalKeeps(out: seq<Outgoing>, msgs: seq<Message>, fin: Message, base: nat, N: nat,
                                        maxLen: nat, p: Peer, rec: WireRecord)
    requires Setting(out, msgs, fin, base, N, maxLen) && Net.SentBy(out, rec) && Holds(msgs, fin, base, p)
    requires p.phase != Done
    ensures var q := OnArrival(p, N, maxLen, rec);
            && p.seen <= q.seen && q.phase == p.phase && (p.s.ccs ==> q.s.ccs)
            && (rec.epoch == p.s.epoch && FragmentOf(rec).Some? ==> FragmentOf(rec).value in q.seen)
            && (rec.epoch == p.s.epoch == 0 && rec.typ == RT_CHANGE_CIPHER_SPEC ==> q.s.ccs)
  {
    hide Inv, FragmentOf, Genuine, StoresAll, Flight, OnHandshakeRecord;
    if rec.epoch == p.s.epoch {
      if p.phase == Reading {
        EpochZeroRecord(out, msgs, fin, base, N, maxLen, rec);
      } else {
        EpochOneRecord(out, msgs, fin, base, N, maxLen, rec);
      }
      if rec.typ == RT_HANDSHAKE {
        OneFragment(p.s, N, maxLen, rec);
        assert OnRecord(p.s, N, maxLen, p.s.epoch == 0, TypeOf(rec.typ), rec.plain).s.ccs == p.s.ccs;
      }
      if FragmentOf(rec).Some? {
        var f := FragmentOf(rec).value;
        assert (p.seen + [f])[|p.seen|] == f;
      }
    }
  }

  lemma {:induction false} SeqsDiffer(out: seq<Outgoing>, msgs: seq<Message>, fin: Message, base: nat, N: nat,
                                      maxLen: nat)
    requires Setting(out, msgs, fin, base, N, maxLen)
    ensures DistinctSeqs(out)
  {
    hide Stored;
    assert [fin][0] == fin;
    forall i | 0 <= i < |out| && !out[i].isCcs
      ensures Stored(out[i]).Some? && Stored(out[i]).value.seqNum == base + if i < |msgs| then i else |msgs|
    {
    }
  }

  /** A piece of a message travels in the epoch of the message. */
  lemma {:induction false} EpochOfPiece(out: seq<Outgoing>, rec: WireRecord, i: nat)
    requires DistinctSeqs(out) && Net.SentBy(out, rec) && FragmentOf(rec).Some?
    requires i < |out| && !out[i].isCcs && Stored(out[i]).Some?
    requires FragmentOf(rec).value.seqNum == Stored(out[i]).value.seqNum
    ensures rec.epoch == out[i].epoch
  {
    hide Stored, FragmentOf, EncFragment;
    var pos, after :| Step(out, pos, rec, after);
    StepFragment(out, pos, rec, after);
  }

  ghost predicate CompletePass(out: seq<Outgoing>, recs: seq<WireRecord>) {
    Steps(out, Pos(0, 0), recs, Pos(|out|, 0))
  }

  /** The records of a complete pass in the epoch of message i carry all of it. */
  lemma {:induction false} PassSees(out: seq<Outgoing>, recs: seq<WireRecord>, i: nat, seen: seq<Fragment>)
    requires DistinctSeqs(out) && CompletePass(out, recs)
    requires i < |out| && !out[i].isCcs && Stored(out[i]).Some?
    requires forall j :: 0 <= j < |recs| && recs[j].epoch == out[i].epoch && FragmentOf(recs[j]).Some? ==>
               FragmentOf(recs[j]).value in seen
    ensures AllSeen(seen, Stored(out[i]).value)
  {
    hide Steps, FragmentOf, Stored, Net.SentBy, DistinctSeqs;
    var m, from, end := Stored(out[i]).value, Pos(0, 0), Pos(|out|, 0);
    Net.PassIsSent(out, from, recs, end);
    var j := Mentioned(out, from, recs, end, i);
    EpochOfPiece(out, recs[j], i);
    var x :| 0 <= x < |seen| && seen[x] == FragmentOf(recs[j]).value;
    forall k: nat | k < |m.body| ensures SeenByte(seen, m.seqNum, k) {
      CoveredOnce(out, from, recs, end, i, k);
      var c := CountedMeansCovered(recs, m.seqNum, k);
      EpochOfPiece(out, recs[c], i);
      var y :| 0 <= y < |seen| && seen[y] == FragmentOf(recs[c]).value;
      assert Carries(seen[y], m.seqNum, k);
    }
  }

  /** A complete pass has a record for the ChangeCipherSpec. */
  lemma {:induction false} ChangeMentioned(out: seq<Outgoing>, pos: Pos, recs: seq<WireRecord>, end: Pos, i: nat)
    returns (j: nat)
    requires Steps(out, pos, recs, end) && PosOk(out, pos)
    requires i < |out| && out[i].isCcs && pos.written <= i < end.written
    ensures j < |recs| && recs[j].typ == RT_CHANGE_CIPHER_SPEC && recs[j].epoch == out[i].epoch
    decreases |recs|
  {
    hide Stored, EncFragment, PosOk;
    var mid := FirstStep(out, pos, recs, end);
    if pos.written == i {
      j := 0;
    } else {
      StepAdvances(out, pos, recs[0], mid);
      j := ChangeMentioned(out, mid, recs[1..], end, i);
      j := j + 1;
    }
  }

  function Taking(n: nat): seq<Event> {
    seq(n, _ => Event.Take)
  }

  /** With everything of epoch 0 there, taking yields one message after the other. */
  lemma {:induction false} TakesDeliver(out: seq<Outgoing>, msgs: seq<Message>, fin: Message, base: nat, N: nat,
                                        maxLen: nat, es: seq<Event>, n: nat)
    requires Setting(out, msgs, fin, base, N, maxLen) && AllSent(out, es) && Change !in es && n <= |msgs|
    requires forall i :: 0 <= i < |msgs| ==> AllSeen(Run(base, N, maxLen, |msgs|, es).seen, msgs[i])
    ensures var p, q := Run(base, N, maxLen, |msgs|, es), Run(base, N, maxLen, |msgs|, es + Taking(n));
            && q.seen == p.seen && q.s.ccs == p.s.ccs && n <= |q.delivered|
            && q.phase == Reading && Holds(msgs, fin, base, q)
    decreases n
  {
    hide Setting, Inv, AllSeen, Available, Run, OnArrival;
    var all := es + Taking(n);
    StaysReading(out, msgs, fin, base, N, maxLen, all);
    if n == 0 {
      assert all == es;
    } else {
      var pre := es + Taking(n - 1);
      assert all == pre + [Event.Take];
      TakesDeliver(out, msgs, fin, base, N, maxLen, es, n - 1);
      RunSnoc(base, N, maxLen, |msgs|, pre, Event.Take);
      var q := Run(base, N, maxLen, |msgs|, pre);
      SettingNumbers(out, msgs, fin, base, N, maxLen);
      AvailableExact(msgs, base, q.seen, |q.delivered|, q.s);
    }
  }

  lemma {:induction false} SettingNumbers(out: seq<Outgoing>, msgs: seq<Message>, fin: Message, base: nat, N: nat,
                                          maxLen: nat)
    requires Setting(out, msgs, fin, base, N, maxLen)
    ensures forall i :: 0 <= i < |msgs| ==> msgs[i].seqNum == base + i
    ensures fin.seqNum == base + |msgs|
  {
    assert [fin][0] == fin;
  }

  /** Behind the change, each fragment that arrived in epoch 1 was let through, until the Finished is taken. */
  lemma {:induction false} SeenBehind(out: seq<Outgoing>, msgs: seq<Message>, fin: Message, base: nat, N: nat,
                                      maxLen: nat, head: seq<Event>, es: seq<Event>)
    requires Setting(out, msgs, fin, base, N, maxLen) && AllSent(out, head + es)
    requires Run(base, N, maxLen, |msgs|, head).phase == Changed
    ensures var p := Run(base, N, maxLen, |msgs|, head + es);
            && p.phase != Reading && Holds(msgs, fin, base, p)
            && (p.phase == Changed ==> forall rec :: Event.Arrive(rec) in es && rec.epoch == 1 && FragmentOf(rec).Some? ==>
                  FragmentOf(rec).value in p.seen)
    decreases |es|
  {
    hide Setting, Inv, FragmentOf, OnArrival, Available, Run;
    RunHolds(out, msgs, fin, base, N, maxLen, head + es);
    if es == [] {
      assert head + es == head;
    } else {
      var pre, e := es[..|es| - 1], es[|es| - 1];
      assert head + es == (head + pre) + [e];
      assert forall i :: 0 <= i < |head + pre| ==> (head + pre)[i] == (head + es)[i];
      SeenBehind(out, msgs, fin, base, N, maxLen, head, pre);
      RunHolds(out, msgs, fin, base, N, maxLen, head + pre);
      RunSnoc(base, N, maxLen, |msgs|, head + pre, e);
      var p := Run(base, N, maxLen, |msgs|, head + pre);
      if e.Arrive? && p.phase != Done {
        assert (head + es)[|head + es| - 1] == e;
        ArrivalKeeps(out, msgs, fin, base, N, maxLen, p, e.rec);
      }
      if e.Arrive? && p.phase == Done {
        DoneStays(p, N, maxLen, e.rec);
      }
      assert es == pre + [e];
    }
  }

  lemma {:induction false} DoneStays(p: Peer, N: nat, maxLen: nat, rec: WireRecord)
    requires p.phase == Done
    ensures OnArrival(p, N, maxLen, rec) == p
  {
    hide OnRecord;
  }

  /**
   * Liveness: once the records of a complete pass got through, those of epoch 0 before the change and the
   * others behind it, in any order and among any others, the handshake ends with the whole flight.
   */
  lemma {:induction false} FlightCompletes(out: seq<Outgoing>, msgs: seq<Message>, fin: Message, base: nat, N: nat,
                                           maxLen: nat, recs: seq<WireRecord>, before: seq<Event>, behind: seq<Event>)
    requires Setting(out, msgs, fin, base, N, maxLen) && CompletePass(out, recs)
    requires AllSent(out, before) && AllSent(out, behind) && Change !in before
    requires Through(recs, 0, before) && Through(recs, 1, behind)
    ensures var p := Run(base, N, maxLen, |msgs|, before + Taking(|msgs|) + [Change] + behind + [Event.Take]);
            p.phase == Done && p.delivered == msgs + [fin]
  {
    hide Setting, Steps, Run, Inv, AllSeen, OnArrival, Stored, FragmentOf;
    var head := before + Taking(|msgs|) + [Change];
    ChangeComes(out, msgs, fin, base, N, maxLen, recs, before);
    assert AllSent(out, head + behind);
    SeenBehind(out, msgs, fin, base, N, maxLen, head, behind);
    var q := Run(base, N, maxLen, |msgs|, head + behind);
    RunSnoc(base, N, maxLen, |msgs|, head + behind, Event.Take);
    if q.phase == Changed {
      FinishedSees(out, msgs, fin, base, N, maxLen, recs, q.seen, behind);
      SettingNumbers(out, msgs, fin, base, N, maxLen);
      assert [fin][0] == fin;
      AvailableExact([fin], base + |msgs|, q.seen, 0, q.s);
    }
  }

  lemma {:induction false} ChangeComes(out: seq<Outgoing>, msgs: seq<Message>, fin: Message, base: nat, N: nat,
                                       maxLen: nat, recs: seq<WireRecord>, before: seq<Event>)
    requires Setting(out, msgs, fin, base, N, maxLen) && CompletePass(out, recs)
    requires AllSent(out, before) && Change !in before && Through(recs, 0, before)
    ensures Run(base, N, maxLen, |msgs|, before + Taking(|msgs|) + [Change]).phase == Changed
  {
    var p := Run(base, N, maxLen, |msgs|, before);
    SeqsDiffer(out, msgs, fin, base, N, maxLen);
    var c := ChangeMentioned(out, Pos(0, 0), recs, Pos(|out|, 0), |msgs|);
    SeenInReading(out, msgs, fin, base, N, maxLen, before, recs[c]);
    forall i | 0 <= i < |msgs| ensures AllSeen(p.seen, msgs[i]) {
      MessageSeen(out, msgs, fin, base, N, maxLen, recs, before, i);
    }
    hide Setting, Steps, Run, Holds, AllSeen, Stored, FragmentOf, OnChange;
    TakesDeliver(out, msgs, fin, base, N, maxLen, before, |msgs|);
    var q := Run(base, N, maxLen, |msgs|, before + Taking(|msgs|));
    RunSnoc(base, N, maxLen, |msgs|, before + Taking(|msgs|), Change);
    AllTaken(msgs, fin, base, q);
    ChangeHolds(msgs, fin, base, q);
  }

  lemma {:induction false} AllTaken(msgs: seq<Message>, fin: Message, base: nat, p: Peer)
    requires Holds(msgs, fin, base, p) && p.phase == Reading && |p.delivered| >= |msgs|
    ensures p.delivered == msgs && !p.failed
  {
    hide Inv;
  }

  lemma {:induction false} MessageSeen(out: seq<Outgoing>, msgs: seq<Message>, fin: Message, base: nat, N: nat,
                                       maxLen: nat, recs: seq<WireRecord>, before: seq<Event>, i: nat)
    requires Setting(out, msgs, fin, base, N, maxLen) && CompletePass(out, recs) && i < |msgs|
    requires AllSent(out, before) && Change !in before && Through(recs, 0, before)
    ensures AllSeen(Run(base, N, maxLen, |msgs|, before).seen, msgs[i])
  {
    hide Steps, FragmentOf, Stored, Run, AllSeen;
    var seen := Run(base, N, maxLen, |msgs|, before).seen;
    SeqsDiffer(out, msgs, fin, base, N, maxLen);
    forall j | 0 <= j < |recs| && recs[j].epoch == 0 && FragmentOf(recs[j]).Some?
      ensures FragmentOf(recs[j]).value in seen
    {
      SeenInReading(out, msgs, fin, base, N, maxLen, before, recs[j]);
    }
    PassSees(out, recs, i, seen);
  }

  lemma {:induction false} FinishedSees(out: seq<Outgoing>, msgs: seq<Message>, fin: Message, base: nat, N: nat,
                                        maxLen: nat, recs: seq<WireRecord>, seen: seq<Fragment>, behind: seq<Event>)
    requires Setting(out, msgs, fin, base, N, maxLen) && CompletePass(out, recs) && Through(recs, 1, behind)
    requires forall rec :: Event.Arrive(rec) in behind && rec.epoch == 1 && FragmentOf(rec).Some? ==>
               FragmentOf(rec).value in seen
    ensures AllSeen(seen, fin)
  {
    hide Steps, FragmentOf, Stored, AllSeen;
    SeqsDiffer(out, msgs, fin, base, N, maxLen);
    PassSees(out, recs, |msgs| + 1, seen);
  }
}
