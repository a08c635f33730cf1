/**
 * One epoch-0 flight across a network that loses, duplicates, overlaps and
 * reorders (RFC 6347, section 4.2.3): what the receiver hands out.
 */
module DtlsEndToEnd {
  import opened DtlsMessages
  import opened DtlsReceive

  /** The messages of the flight carry consecutive sequence numbers, without wrap, and are not too long. */
  ghost predicate Flight(msgs: seq<Message>, base: nat, N: nat, maxLen: nat) {
    && 1 <= N
    && |msgs| <= N
    && base + |msgs| < U16_LIMIT
    && forall i :: 0 <= i < |msgs| ==>
         msgs[i].seqNum == base + i && |msgs[i].body| <= maxLen && |msgs[i].body| < U24_LIMIT
  }

  /** A fragment some sender pass could have made: any slice of a message of the flight, or any stale fragment. */
  ghost predicate Genuine(msgs: seq<Message>, base: nat, maxLen: nat, f: Fragment) {
    && WfFragment(f)
    && !BadBounds(f, maxLen)
    && f.seqNum < base + |msgs|
    && (f.seqNum >= base ==> IsSlice(msgs[f.seqNum - base], f))
  }

  predicate IsSlice(m: Message, f: Fragment) {
    && f.typ == m.typ
    && f.msgLen == |m.body|
    && f.off + |f.body| <= |m.body|
    && f.body == m.body[f.off..f.off + |f.body|]
  }

  /** The network delivers a handshake record, or the handshake takes the current message if there is one. */
  datatype Event = Arrive(fs: seq<Fragment>) | Take

  ghost predicate GenuineEvents(msgs: seq<Message>, base: nat, maxLen: nat, es: seq<Event>) {
    forall i, j :: 0 <= i < |es| && es[i].Arrive? && 0 <= j < |es[i].fs| ==> Genuine(msgs, base, maxLen, es[i].fs[j])
  }

  /** All fragments that have arrived. */
  ghost function Arrived(es: seq<Event>): seq<Fragment> {
    if es == [] then []
    else Arrived(es[..|es| - 1]) + (if es[|es| - 1].Arrive? then es[|es| - 1].fs else [])
  }

  datatype Receiver = Receiver(s: State, delivered: seq<Message>, failed: bool)

  ghost function Start(base: nat): Receiver {
    Receiver(State(base, 0, map[], false, false), [], false)
  }

  ghost function OnEvent(r: Receiver, N: nat, maxLen: nat, e: Event): Receiver
    requires e.Arrive? ==> forall i :: 0 <= i < |e.fs| ==> WfFragment(e.fs[i])
  {
    if r.failed then r
    else match e
      case Arrive(fs) =>
        var o := OnHandshakeRecord(r.s, N, maxLen, EncFragments(fs));
        Receiver(o.s, r.delivered, o.verdict != Success)
      case Take =>
        if Available(r.s) then Receiver(Advance(r.s), r.delivered + [Current(r.s)], false) else r
  }

  ghost function Run(base: nat, N: nat, maxLen: nat, msgs: seq<Message>, es: seq<Event>): Receiver
    requires GenuineEvents(msgs, base, maxLen, es)
  {
    if es == [] then Start(base)
    else OnEvent(Run(base, N, maxLen, msgs, es[..|es| - 1]), N, maxLen, es[|es| - 1])
  }

  /** Some fragment of message q arrived. */
  ghost predicate Seen(fs: seq<Fragment>, q: nat) {
    exists i :: 0 <= i < |fs| && fs[i].seqNum == q
  }

  predicate Carries(f: Fragment, q: nat, k: nat) {
    f.seqNum == q && f.off <= k < f.off + |f.body|
  }

  /** Byte k of message q arrived. */
  ghost predicate SeenByte(fs: seq<Fragment>, q: nat, k: nat) {
    exists i :: 0 <= i < |fs| && Carries(fs[i], q, k)
  }

  ghost predicate AllSeen(fs: seq<Fragment>, m: Message) {
    Seen(fs, m.seqNum) && forall k: nat :: k < |m.body| ==> SeenByte(fs, m.seqNum, k)
  }

  /** The partial message q holds exactly the bytes that arrived, and they are the sender's. */
  ghost predicate Faithful(m: Message, fs: seq<Fragment>, p: Partial) {
    && p.typ == m.typ
    && p.msgLen == |m.body|
    && (forall k: nat :: k in p.got ==> k < |m.body| && p.got[k] == m.body[k])
    && (forall k: nat :: k < |m.body| ==> (k in p.got <==> SeenByte(fs, m.seqNum, k)))
  }

  ghost predicate Inv(msgs: seq<Message>, base: nat, fs: seq<Fragment>, n: nat, s: State) {
    && n <= |msgs|
    && s.next == base + n
    && (forall q :: q in s.parts ==> base + n <= q < base + |msgs| && Faithful(msgs[q - base], fs, s.parts[q]))
    && (forall q: nat :: base + n <= q < base + |msgs| ==> (q in s.parts <==> Seen(fs, q)))
  }

  lemma {:induction false} SeenByteSnoc(fs: seq<Fragment>, f: Fragment, q: nat, k: nat)
    ensures SeenByte(fs + [f], q, k) <==> SeenByte(fs, q, k) || Carries(f, q, k)
  {
    var gs := fs + [f];
    if SeenByte(fs, q, k) {
      var i :| 0 <= i < |fs| && Carries(fs[i], q, k);
      assert gs[i] == fs[i];
    }
    if Carries(f, q, k) {
      assert gs[|fs|] == f;
    }
  }

  lemma {:induction false} SeenSnoc(fs: seq<Fragment>, f: Fragment, q: nat)
    ensures Seen(fs + [f], q) <==> Seen(fs, q) || f.seqNum == q
  {
    var gs := fs + [f];
    if Seen(fs, q) {
      var i :| 0 <= i < |fs| && fs[i].seqNum == q;
      assert gs[i] == fs[i];
    }
    assert gs[|fs|] == f;
  }

  /** A fragment of another message changes nothing for this one. */
  lemma {:induction false} FaithfulOther(m: Message, fs: seq<Fragment>, f: Fragment, p: Partial)
    requires Faithful(m, fs, p) && f.seqNum != m.seqNum
    ensures Faithful(m, fs + [f], p)
  {
    forall k: nat | k < |m.body| ensures k in p.got <==> SeenByte(fs + [f], m.seqNum, k) {
      SeenByteSnoc(fs, f, m.seqNum, k);
    }
  }

  lemma {:induction false} FaithfulMerge(m: Message, fs: seq<Fragment>, f: Fragment, p: Partial)
    requires Faithful(m, fs, p) && f.seqNum == m.seqNum && IsSlice(m, f)
    ensures Faithful(m, fs + [f], Merge(p, f))
  {
    forall k: nat | k < |m.body| ensures k in Merge(p, f).got <==> SeenByte(fs + [f], m.seqNum, k) {
      SeenByteSnoc(fs, f, m.seqNum, k);
    }
  }

  lemma {:induction false} FaithfulEmpty(m: Message, fs: seq<Fragment>)
    requires !Seen(fs, m.seqNum)
    ensures Faithful(m, fs, Partial(m.typ, |m.body|, map[]))
  {
  }

  lemma {:induction false} PartFaithful(m: Message, fs: seq<Fragment>, s: State, f: Fragment)
    requires IsSlice(m, f) && f.seqNum == m.seqNum
    requires if f.seqNum in s.parts then Faithful(m, fs, s.parts[f.seqNum]) else !Seen(fs, m.seqNum)
    ensures var p := PartOf(s, f);
            Faithful(m, fs, p) && p.typ == f.typ && p.msgLen == f.msgLen
  {
    if f.seqNum !in s.parts {
      FaithfulEmpty(m, fs);
    }
  }

  lemma {:induction false} StartInv(msgs: seq<Message>, base: nat)
    ensures Inv(msgs, base, [], 0, Start(base).s)
  {
  }

  lemma {:induction false} FragmentStep(msgs: seq<Message>, base: nat, N: nat, maxLen: nat, fs: seq<Fragment>, n: nat,
                                        s: State, f: Fragment)
    requires Flight(msgs, base, N, maxLen) && Inv(msgs, base, fs, n, s) && Genuine(msgs, base, maxLen, f)
    requires s.epoch != 1 || f.seqNum == s.next
    ensures var o := OnFragment(s, N, maxLen, f);
            o.verdict == Success && Inv(msgs, base, fs + [f], n, o.s) && o.s == s.(parts := o.s.parts)
  {
    hide Faithful, Seen, SeenByte, Merge, IsSlice;
    var gs := fs + [f];
    var o := OnFragment(s, N, maxLen, f);
    if f.seqNum >= s.next {
      var m := msgs[f.seqNum - base];
      var p := PartOf(s, f);
      PartFaithful(m, fs, s, f);
      FaithfulMerge(m, fs, f, p);
    }
    forall q: nat | base + n <= q < base + |msgs| ensures q in o.s.parts <==> Seen(gs, q) {
      SeenSnoc(fs, f, q);
    }
    forall q | q in o.s.parts ensures base + n <= q < base + |msgs| && Faithful(msgs[q - base], gs, o.s.parts[q]) {
      if q != f.seqNum {
        FaithfulOther(msgs[q - base], fs, f, s.parts[q]);
      }
    }
  }

  lemma {:induction false} FragmentsStep(msgs: seq<Message>, base: nat, N: nat, maxLen: nat, fs: seq<Fragment>, n: nat, s: State,
                                         more: seq<Fragment>)
    requires Flight(msgs, base, N, maxLen) && Inv(msgs, base, fs, n, s)
    requires forall i :: 0 <= i < |more| ==> Genuine(msgs, base, maxLen, more[i]) && (s.epoch != 1 || more[i].seqNum == s.next)
    ensures var o := OnFragments(s, N, maxLen, more);
            o.verdict == Success && Inv(msgs, base, fs + more, n, o.s) && o.s == s.(parts := o.s.parts)
    decreases |more|
  {
    hide Inv, OnFragment, Flight, Genuine;
    if more == [] {
      assert fs + more == fs;
    } else {
      FragmentStep(msgs, base, N, maxLen, fs, n, s, more[0]);
      FragmentsStep(msgs, base, N, maxLen, fs + [more[0]], n, OnFragment(s, N, maxLen, more[0]).s, more[1..]);
      assert fs + [more[0]] + more[1..] == fs + more;
    }
  }

  /** The current message can be taken exactly when all of it has arrived, and it is then the sender's. */
  lemma {:induction false} AvailableExact(msgs: seq<Message>, base: nat, fs: seq<Fragment>, n: nat, s: State)
    requires Inv(msgs, base, fs, n, s)
    requires forall i :: 0 <= i < |msgs| ==> msgs[i].seqNum == base + i
    ensures Available(s) <==> n < |msgs| && AllSeen(fs, msgs[n])
    ensures Available(s) ==> Current(s) == msgs[n]
  {
    hide Seen, SeenByte;
    if s.next in s.parts {
      var p, m := s.parts[s.next], msgs[n];
      assert Faithful(m, fs, p);
      if Covered(p) {
        assert Body(p) == m.body;
      }
    }
  }

  lemma {:induction false} TakeStep(msgs: seq<Message>, base: nat, N: nat, maxLen: nat, fs: seq<Fragment>, n: nat,
                                    s: State)
    requires Flight(msgs, base, N, maxLen) && Inv(msgs, base, fs, n, s) && Available(s)
    ensures n < |msgs| && Inv(msgs, base, fs, n + 1, Advance(s))
    ensures Advance(s) == s.(next := s.next + 1, parts := Advance(s).parts, hasMessage := false)
  {
    hide Seen, SeenByte, Faithful;
  }

  /**
   * Every run: no error, and what was handed out is a prefix of what was sent.
   * The next message is available exactly when each of its bytes has arrived.
   */
  lemma {:induction false} Delivery(msgs: seq<Message>, base: nat, N: nat, maxLen: nat, es: seq<Event>)
    requires Flight(msgs, base, N, maxLen) && GenuineEvents(msgs, base, maxLen, es)
    ensures var r := Run(base, N, maxLen, msgs, es);
            && !r.failed
            && r.delivered <= msgs
            && r.s.epoch == 0
            && Inv(msgs, base, Arrived(es), |r.delivered|, r.s)
            && (Available(r.s) <==> |r.delivered| < |msgs| && AllSeen(Arrived(es), msgs[|r.delivered|]))
    decreases |es|
  {
    hide Inv, OnHandshakeRecord, Available, AllSeen, Advance;
    var r := Run(base, N, maxLen, msgs, es);
    if es == [] {
      StartInv(msgs, base);
    } else {
      var pre, e := es[..|es| - 1], es[|es| - 1];
      Delivery(msgs, base, N, maxLen, pre);
      var q := Run(base, N, maxLen, msgs, pre);
      match e
      case Arrive(fs) =>
        RecordIsItsFragments(q.s, N, maxLen, fs);
        FragmentsStep(msgs, base, N, maxLen, Arrived(pre), |q.delivered|, q.s, fs);
      case Take =>
        assert Arrived(es) == Arrived(pre);
        if Available(q.s) {
          AvailableExact(msgs, base, Arrived(pre), |q.delivered|, q.s);
          TakeStep(msgs, base, N, maxLen, Arrived(pre), |q.delivered|, q.s);
        }
    }
    AvailableExact(msgs, base, Arrived(es), |r.delivered|, r.s);
  }

  ghost function Takes(n: nat): seq<Event> {
    if n == 0 then [] else Takes(n - 1) + [Take]
  }

  /** Once every byte has arrived, in any order and any number of times, taking yields the whole flight. */
  lemma {:induction false} AllDelivered(msgs: seq<Message>, base: nat, N: nat, maxLen: nat, es: seq<Event>)
    requires Flight(msgs, base, N, maxLen) && GenuineEvents(msgs, base, maxLen, es)
    requires forall i :: 0 <= i < |msgs| ==> AllSeen(Arrived(es), msgs[i])
    ensures GenuineEvents(msgs, base, maxLen, es + Takes(|msgs|))
    ensures Run(base, N, maxLen, msgs, es + Takes(|msgs|)).delivered == msgs
  {
    TakesDeliver(msgs, base, N, maxLen, es, |msgs|);
  }

  lemma {:induction false} TakesDeliver(msgs: seq<Message>, base: nat, N: nat, maxLen: nat, es: seq<Event>, n: nat)
    requires Flight(msgs, base, N, maxLen) && GenuineEvents(msgs, base, maxLen, es) && n <= |msgs|
    requires forall i :: 0 <= i < |msgs| ==> AllSeen(Arrived(es), msgs[i])
    ensures GenuineEvents(msgs, base, maxLen, es + Takes(n))
    ensures Arrived(es + Takes(n)) == Arrived(es)
    ensures n <= |Run(base, N, maxLen, msgs, es + Takes(n)).delivered| <= |msgs|
    ensures Run(base, N, maxLen, msgs, es + Takes(n)).delivered <= msgs
    decreases n
  {
    hide Inv, AllSeen, Advance, Available, Flight, Genuine;
    var all := es + Takes(n);
    if n == 0 {
      assert all == es;
    } else {
      var pre := es + Takes(n - 1);
      assert all == pre + [Take];
      assert all[..|all| - 1] == pre && all[|all| - 1] == Take;
      TakesDeliver(msgs, base, N, maxLen, es, n - 1);
      Delivery(msgs, base, N, maxLen, pre);
      assert Arrived(all) == Arrived(pre) + [];
    }
    Delivery(msgs, base, N, maxLen, all);
  }
}
