/**
 * Sender and receiver together: records of any number of sending passes over one
 * flight, delivered by a network that may lose, repeat and reorder them.
 */
module DtlsNetwork {
  import opened Prelude
  import opened DtlsMessages
  import opened DtlsReceive
  import opened DtlsEndToEnd
  import opened DtlsRecordWriter
  import opened DtlsFlight

  /** The outgoing flight stores these messages. */
  ghost predicate Stores(out: seq<Outgoing>, msgs: seq<Message>) {
    && |out| == |msgs|
    && forall i :: 0 <= i < |out| ==> !out[i].isCcs && Stored(out[i]) == Some(msgs[i])
  }

  /** The record is a piece of the flight at some position, whatever the packet size was when it was cut. */
  ghost predicate SentBy(out: seq<Outgoing>, rec: WireRecord) {
    exists pos, after :: Step(out, pos, rec, after)
  }

  /** Every record of a pass, complete or not, is a piece of the flight. */
  lemma {:induction false} PassIsSent(out: seq<Outgoing>, pos: Pos, recs: seq<WireRecord>, end: Pos)
    requires Steps(out, pos, recs, end)
    ensures forall j :: 0 <= j < |recs| ==> SentBy(out, recs[j])
    decreases |recs|
  {
    hide Step;
    if recs != [] {
      var mid := FirstStep(out, pos, recs, end);
      PassIsSent(out, mid, recs[1..], end);
      forall j | 0 <= j < |recs| ensures SentBy(out, recs[j]) {
        assert j > 0 ==> recs[j] == recs[1..][j - 1];
      }
    }
  }

  datatype Hop = Deliver(j: nat) | TakeNext

  ghost predicate HopsOk(hops: seq<Hop>, n: nat) {
    forall i :: 0 <= i < |hops| && hops[i].Deliver? ==> hops[i].j < n
  }

  ghost function FragmentsIn(rec: WireRecord): seq<Fragment> {
    if FragmentOf(rec).Some? then [FragmentOf(rec).value] else []
  }

  ghost function EventsOf(recs: seq<WireRecord>, hops: seq<Hop>): (es: seq<Event>)
    requires HopsOk(hops, |recs|)
    ensures |es| == |hops|
    ensures forall i :: 0 <= i < |hops| ==> es[i] == EventOf(recs, hops[i])
  {
    seq(|hops|, i requires 0 <= i < |hops| => EventOf(recs, hops[i]))
  }

  ghost function EventOf(recs: seq<WireRecord>, h: Hop): Event
    requires h.Deliver? ==> h.j < |recs|
  {
    match h
    case Deliver(j) => Arrive(FragmentsIn(recs[j]))
    case TakeNext => Take
  }

  /** The receiver's loop sees the very bytes that were sealed. */
  lemma {:induction false} PlainIsItsFragment(rec: WireRecord)
    requires FragmentOf(rec).Some?
    ensures WfFragment(FragmentOf(rec).value) && EncFragments(FragmentsIn(rec)) == rec.plain
  {
    hide EncFragment, ParseFragment;
    ParsedIsEncoded(rec.plain);
    var f := FragmentOf(rec).value;
    assert [f][1..] == [];
    assert EncFragments([f][1..]) == [];
    assert EncFragment(f) + [] == EncFragment(f);
  }

  lemma {:induction false} SentIsGenuine(out: seq<Outgoing>, msgs: seq<Message>, base: nat, N: nat, maxLen: nat,
                                         rec: WireRecord)
    requires Flight(msgs, base, N, maxLen) && Stores(out, msgs) && SentBy(out, rec)
    ensures FragmentOf(rec).Some? && Genuine(msgs, base, maxLen, FragmentOf(rec).value)
  {
    hide EncFragment, Stored, FragmentOf;
    var pos, after :| Step(out, pos, rec, after);
    StepFragment(out, pos, rec, after);
    PlainIsItsFragment(rec);
  }

  lemma {:induction false} EventsGenuine(out: seq<Outgoing>, msgs: seq<Message>, base: nat, N: nat, maxLen: nat,
                                         recs: seq<WireRecord>, hops: seq<Hop>)
    requires Flight(msgs, base, N, maxLen) && Stores(out, msgs)
    requires forall j :: 0 <= j < |recs| ==> SentBy(out, recs[j])
    requires HopsOk(hops, |recs|)
    ensures GenuineEvents(msgs, base, maxLen, EventsOf(recs, hops))
  {
    hide SentBy, Genuine, FragmentOf, Flight, Stores;
    var es := EventsOf(recs, hops);
    forall i, k | 0 <= i < |es| && es[i].Arrive? && 0 <= k < |es[i].fs| ensures Genuine(msgs, base, maxLen, es[i].fs[k]) {
      SentIsGenuine(out, msgs, base, N, maxLen, recs[hops[i].j]);
    }
  }

  /** Safety: whatever the network does, no error, and the messages handed out are a prefix of those sent. */
  lemma {:induction false} LossyDelivery(out: seq<Outgoing>, msgs: seq<Message>, base: nat, N: nat, maxLen: nat,
                                         recs: seq<WireRecord>, hops: seq<Hop>)
    requires Flight(msgs, base, N, maxLen) && Stores(out, msgs)
    requires forall j :: 0 <= j < |recs| ==> SentBy(out, recs[j])
    requires HopsOk(hops, |recs|)
    ensures GenuineEvents(msgs, base, maxLen, EventsOf(recs, hops))
    ensures var r := Run(base, N, maxLen, msgs, EventsOf(recs, hops));
            !r.failed && r.delivered <= msgs
  {
    hide GenuineEvents, SentBy, Stores, Flight, HopsOk;
    EventsGenuine(out, msgs, base, N, maxLen, recs, hops);
    Delivery(msgs, base, N, maxLen, EventsOf(recs, hops));
  }

  /** Liveness: once each record of one complete pass got through, in any order, the whole flight is handed out. */
  lemma {:induction false} CompletePassDelivers(out: seq<Outgoing>, msgs: seq<Message>, base: nat, N: nat, maxLen: nat,
                             recs: seq<WireRecord>, a: nat, b: nat, hops: seq<Hop>)
    requires Flight(msgs, base, N, maxLen) && Stores(out, msgs)
    requires forall j :: 0 <= j < |recs| ==> SentBy(out, recs[j])
    requires HopsOk(hops, |recs|)
    requires a <= b <= |recs| && Steps(out, Pos(0, 0), recs[a..b], Pos(|out|, 0))
    requires forall j: nat :: a <= j < b ==> Deliver(j) in hops
    ensures var es := EventsOf(recs, hops) + Takes(|msgs|);
            GenuineEvents(msgs, base, maxLen, es) && Run(base, N, maxLen, msgs, es).delivered == msgs
  {
    hide GenuineEvents, SentBy, Steps, AllSeen, Run;
    EventsGenuine(out, msgs, base, N, maxLen, recs, hops);
    var es := EventsOf(recs, hops);
    forall i | 0 <= i < |msgs| ensures AllSeen(Arrived(es), msgs[i]) {
      PassSeesAll(out, msgs, base, N, maxLen, recs, a, b, hops, i);
    }
    AllDelivered(msgs, base, N, maxLen, es);
  }

  lemma {:induction false} PassSeesAll(out: seq<Outgoing>, msgs: seq<Message>, base: nat, N: nat, maxLen: nat,
                    recs: seq<WireRecord>, a: nat, b: nat, hops: seq<Hop>, i: nat)
    requires Flight(msgs, base, N, maxLen) && Stores(out, msgs) && i < |msgs|
    requires HopsOk(hops, |recs|)
    requires a <= b <= |recs| && Steps(out, Pos(0, 0), recs[a..b], Pos(|out|, 0))
    requires forall j: nat :: a <= j < b ==> Deliver(j) in hops
    ensures AllSeen(Arrived(EventsOf(recs, hops)), msgs[i])
  {
    hide Steps, FragmentOf, Stored, HopsOk;
    var pass, es, m := recs[a..b], EventsOf(recs, hops), msgs[i];
    var j := Mentioned(out, Pos(0, 0), pass, Pos(|out|, 0), i);
    ArrivedFragment(recs, hops, a + j);
    var x :| 0 <= x < |Arrived(es)| && Arrived(es)[x] == FragmentOf(pass[j]).value;
    forall k: nat | k < |m.body| ensures SeenByte(Arrived(es), m.seqNum, k) {
      CoveredOnce(out, Pos(0, 0), pass, Pos(|out|, 0), i, k);
      var c := CountedMeansCovered(pass, m.seqNum, k);
      ArrivedFragment(recs, hops, a + c);
      var y :| 0 <= y < |Arrived(es)| && Arrived(es)[y] == FragmentOf(pass[c]).value;
      assert Carries(Arrived(es)[y], m.seqNum, k);
    }
  }

  lemma {:induction false} ArrivedFragment(recs: seq<WireRecord>, hops: seq<Hop>, j: nat)
    requires HopsOk(hops, |recs|) && j < |recs| && FragmentOf(recs[j]).Some? && Deliver(j) in hops
    ensures FragmentOf(recs[j]).value in Arrived(EventsOf(recs, hops))
  {
    hide FragmentOf;
    var i :| 0 <= i < |hops| && hops[i] == Deliver(j);
    ArrivedHas(EventsOf(recs, hops), i, FragmentOf(recs[j]).value);
  }

  lemma {:induction false} ArrivedHas(es: seq<Event>, i: nat, f: Fragment)
    requires i < |es| && es[i].Arrive? && f in es[i].fs
    ensures f in Arrived(es)
    decreases |es|
  {
    if i < |es| - 1 {
      ArrivedHas(es[..|es| - 1], i, f);
    }
  }
}
