/** The receiving half of d1_both.cc: a ring of messages under reassembly, indexed by sequence number modulo N. */
module DtlsReceiver {
  import opened Prelude
  import opened Bits
  import opened DtlsMessages
  import opened DtlsReceive
  import opened DtlsReassembly

  function Slot(q: nat, N: nat): (i: nat)
    requires N >= 1
    ensures i < N
  {
    q % N
  }

  /** Within a window of N sequence numbers no two share a slot. */
  lemma {:induction false} SlotUnique(p: nat, q: nat, next: nat, N: nat)
    requires N >= 1 && next <= p < next + N && next <= q < next + N
    requires Slot(p, N) == Slot(q, N)
    ensures p == q
  {
    var d, e := p / N, q / N;
    assert p == d * N + Slot(p, N) && q == e * N + Slot(q, N);
    if d < e {
      MulAtLeast(e - d, N);
      Distribute(e, d, N);
    } else if e < d {
      MulAtLeast(d - e, N);
      Distribute(d, e, N);
    }
  }

  lemma {:induction false} SaneCreate(s: State, N: nat, f: Fragment)
    requires Sane(s, N) && WfFragment(f) && s.next <= f.seqNum < s.next + N && f.seqNum !in s.parts
    ensures Sane(s.(parts := s.parts[f.seqNum := Partial(f.typ, f.msgLen, map[])]), N)
  {
  }

  lemma {:induction false} SaneMerge(s: State, N: nat, q: nat, p: Partial)
    requires Sane(s, N) && q in s.parts && p.msgLen == s.parts[q].msgLen
    requires Covered(s.parts[q]) ==> Covered(p)
    ensures Sane(s.(parts := s.parts[q := p]), N)
  {
    hide Covered;
  }

  lemma {:induction false} UpdateTwice(m: map<nat, Partial>, q: nat, a: Partial, b: Partial)
    ensures m[q := a][q := b] == m[q := b]
  {
  }

  class Receiver {
    var next: nat
    var epoch: nat
    var hasMessage: bool
    var hasChangeCipherSpec: bool
    const N: nat
    const incoming: array<HmFragment?>
    /** The messages in the ring, by sequence number. */
    ghost var parts: map<nat, Partial>
    ghost var Repr: set<object>

    ghost function View(): State
      reads this
    {
      State(next, epoch, parts, hasMessage, hasChangeCipherSpec)
    }

    ghost predicate SlotOk(i: nat)
      reads this, Repr
      requires incoming in Repr && i < incoming.Length
    {
      var f := incoming[i];
      f != null ==>
        && f in Repr && f in f.Repr && f.Repr <= Repr && this !in f.Repr && incoming !in f.Repr
        && f.Valid()
        && f.seqNum in parts && parts[f.seqNum] == f.View()
        && N >= 1 && Slot(f.seqNum, N) == i
    }

    ghost predicate Valid()
      reads this, Repr
    {
      && this in Repr && incoming in Repr
      && 1 <= N < 256 && incoming.Length == N
      && Sane(View(), N)
      && (forall i: nat :: i < N ==> SlotOk(i))
      && (forall i: nat, j: nat :: i < j < N && incoming[i] != null && incoming[j] != null ==>
            incoming[i].Repr !! incoming[j].Repr)
      && (forall q :: q in parts ==> incoming[Slot(q, N)] != null && incoming[Slot(q, N)].seqNum == q)
    }

    constructor (n: nat, first: nat)
      requires 1 <= n < 256 && first < U16_LIMIT
      ensures Valid() && fresh(Repr)
      ensures N == n && View() == State(first, 0, map[], false, false)
    {
      N, next, epoch := n, first, 0;
      hasMessage, hasChangeCipherSpec := false, false;
      var ring := new HmFragment?[n](_ => null);
      incoming, parts := ring, map[];
      Repr := {this, ring};
    }

    /** Changing the flags alone leaves the ring as it was. */
    twostate lemma {:induction false} RingKept()
      requires old(Valid())
      requires parts == old(parts) && Repr == old(Repr) && unchanged(old(Repr) - {this})
      ensures forall i: nat :: i < N ==> SlotOk(i)
    {
      hide HmFragment.Valid;
      forall i: nat | i < N ensures SlotOk(i) {
        assert old(SlotOk(i));
        var f := incoming[i];
        if f != null {
          assert f.Valid() && f.View() == old(f.View());
        }
      }
    }

    /** dtls1_is_current_message_complete */
    method IsCurrentComplete() returns (complete: bool)
      requires Valid()
      ensures complete <==> Available(View())
    {
      hide Covered;
      var i := next % N;
      assert i == Slot(next, N) && SlotOk(i);
      var frag := incoming[i];
      if frag != null {
        complete := frag.reassembly == null;
        SlotUnique(frag.seqNum, next, next, N);
      } else {
        complete := false;
      }
    }

    /** The slot of a sequence number in the window holds that message or nothing: the assertion frag->seq == msg_hdr->seq. */
    lemma {:induction false} RingAssertion(q: nat)
      requires Valid() && next <= q < next + N
      ensures incoming[Slot(q, N)] != null <==> q in parts
      ensures incoming[Slot(q, N)] != null ==>
                incoming[Slot(q, N)].seqNum == q && incoming[Slot(q, N)].View() == parts[q]
    {
      var i := Slot(q, N);
      assert SlotOk(i);
      if incoming[i] != null {
        SlotUnique(incoming[i].seqNum, q, next, N);
      }
    }

    /** The creation of a message on its first fragment, in dtls1_get_incoming_message. */
    method Create(f: Fragment)
      requires Valid() && WfFragment(f)
      requires next <= f.seqNum < next + N && f.seqNum !in parts
      modifies this`Repr, this`parts, incoming
      ensures Valid() && fresh(Repr - old(Repr))
      ensures parts == old(parts)[f.seqNum := Partial(f.typ, f.msgLen, map[])]
    {
      hide Covered, HmFragment.Valid, Sane;
      RingAssertion(f.seqNum);
      SaneCreate(View(), N, f);
      var frag := new HmFragment(f);
      var i := f.seqNum % N;
      label before:
      incoming[i] := frag;
      parts := parts[f.seqNum := frag.View()];
      Repr := Repr + frag.Repr;
      assert i == Slot(f.seqNum, N);
      forall j: nat | j < N ensures SlotOk(j) {
        var g := incoming[j];
        if j != i && g != null {
          assert old@before(SlotOk(j));
          assert g.Valid() && g.View() == old@before(g.View());
        }
      }
    }

    /** One turn of the loop of dtls1_open_handshake. */
    method OpenFragment(maxLen: nat, f: Fragment) returns (v: Verdict)
      requires Valid() && WfFragment(f)
      modifies Repr
      ensures Valid() && fresh(Repr - old(Repr))
      ensures Outcome(View(), v) == OnFragment(old(View()), N, maxLen, f)
    {
      assert incoming.Length == N >= 1;
      assert Slot(f.seqNum, N) == f.seqNum % N;
      hide Covered, Valid, SlotOk, Sane, Merge, Slot;
      if f.off > f.msgLen || f.off + |f.body| > f.msgLen || f.msgLen > maxLen {
        return Error(IllegalParameter);
      }
      if epoch == 1 && f.seqNum != next {
        return Error(UnexpectedMessage);
      }
      if f.seqNum < next || f.seqNum > next + N {
        return Success;
      }
      if f.seqNum - next >= N {
        return Error(InternalError);
      }
      var i := f.seqNum % N;
      RingAssertion(f.seqNum);
      var frag := incoming[i];
      if frag != null {
        if frag.typ != f.typ || frag.msgLen != f.msgLen {
          return Error(IllegalParameter);
        }
      } else {
        Create(f);
        UpdateTwice(old(parts), f.seqNum, parts[f.seqNum], Merge(parts[f.seqNum], f));
      }
      Fill(f);
      v := Success;
    }

    /** The copy into a message that exists, unless it is whole. */
    method Fill(f: Fragment)
      requires Valid() && f.seqNum in parts && parts[f.seqNum].msgLen == f.msgLen && f.off + |f.body| <= f.msgLen
      modifies Repr
      ensures Valid() && Repr == old(Repr)
      ensures View() == old(View()).(parts := old(parts)[f.seqNum := Merge(old(parts)[f.seqNum], f)])
    {
      assert next <= f.seqNum < next + N;
      RingAssertion(f.seqNum);
      var i := f.seqNum % N;
      var frag := incoming[i];
      assert SlotOk(i);
      assert frag.reassembly == null <==> Covered(frag.View());
      hide Covered, Sane, Received, HmFragment.Valid;
      if frag.reassembly == null {
        return;
      }
      SaneMerge(View(), N, f.seqNum, Merge(frag.View(), f));
      assert forall j: nat :: j < N ==> SlotOk(j);
      label before:
      frag.Receive(f.off, f.body);
      parts := parts[f.seqNum := frag.View()];
      forall j: nat | j < N ensures SlotOk(j) {
        var g := incoming[j];
        if j != i && g != null {
          assert old@before(SlotOk(j)) && g.Repr !! frag.Repr;
          assert g.Valid() && g.View() == old@before(g.View());
        }
      }
    }

    /** The loop of dtls1_open_handshake over the fragments of one record. */
    method OpenHandshake(maxLen: nat, record: seq<byte>) returns (v: Verdict)
      requires Valid()
      modifies Repr
      ensures Valid() && fresh(Repr - old(Repr))
      ensures Outcome(View(), v) == OnHandshakeRecord(old(View()), N, maxLen, record)
    {
      hide Valid, OnFragment, WfFragment;
      var cbs := record;
      while cbs != []
        invariant Valid() && fresh(Repr - old(Repr))
        invariant OnHandshakeRecord(View(), N, maxLen, cbs) == OnHandshakeRecord(old(View()), N, maxLen, record)
        decreases |cbs|
      {
        var d := ParseFragment(cbs);
        if d.Bad? {
          return Error(DecodeError);
        }
        ParsedIsEncoded(cbs);
        v := OpenFragment(maxLen, d.v);
        if v != Success {
          return;
        }
        cbs := d.rest;
      }
      v := Success;
    }

    /** dtls1_open_handshake on an opened record of any type. */
    method OpenRecord(maxLen: nat, nullCipher: bool, t: RecordType, record: seq<byte>) returns (v: Verdict)
      requires Valid()
      modifies Repr
      ensures Valid() && fresh(Repr - old(Repr))
      ensures Outcome(View(), v) == OnRecord(old(View()), N, maxLen, nullCipher, t, record)
    {
      hide OnHandshakeRecord, SlotOk;
      match t
      case ApplicationData =>
        v := if nullCipher then Error(UnexpectedMessage) else Discard;
      case ChangeCipherSpec =>
        if !nullCipher {
          return Error(UnexpectedMessage);
        }
        if record != [1] {
          return Error(IllegalParameter);
        }
        hasChangeCipherSpec := true;
        v := Success;
        RingKept();
      case Handshake =>
        v := OpenHandshake(maxLen, record);
      case OtherType =>
        v := Error(UnexpectedMessage);
    }

    /** dtls1_get_message: the raw bytes of the current message, if it is whole. */
    method GetMessage() returns (raw: Option<seq<byte>>)
      requires Valid()
      modifies this`hasMessage
      ensures Valid()
      ensures raw.Some? <==> Available(old(View()))
      ensures raw.Some? ==> raw.value == Raw(Current(old(View())))
      ensures View() == old(View()).(hasMessage := old(hasMessage) || raw.Some?)
    {
      var complete := IsCurrentComplete();
      if !complete {
        return None;
      }
      RingAssertion(next);
      var i := next % N;
      var frag := incoming[i];
      assert SlotOk(i);
      assert frag.Valid() && frag.reassembly == null;
      hide Covered, Body, Raw, SlotOk, HmFragment.Valid;
      var bytes := frag.RawBytes();
      hasMessage := true;
      RingKept();
      raw := Some(bytes);
    }

    /** incoming_messages[index].reset() */
    method Clear()
      requires Valid() && next in parts && !hasMessage
      modifies this`parts, incoming
      ensures Valid()
      ensures parts == old(parts) - {next}
    {
      assert next < next + N && Sane(View().(parts := parts - {next}), N);
      assert Slot(next, N) == next % N;
      hide Covered, HmFragment.Valid, Sane, Slot;
      RingAssertion(next);
      var i := next % N;
      label before:
      incoming[i] := null;
      parts := parts - {next};
      forall j: nat | j < N ensures SlotOk(j) {
        assert old@before(SlotOk(j));
        var g := incoming[j];
        if g != null {
          assert g.seqNum != next;
          assert g.Valid() && g.View() == old@before(g.View());
        }
      }
    }

    /** dtls1_next_message */
    method NextMessage()
      requires Valid() && hasMessage
      modifies this, incoming
      ensures Valid() && Repr == old(Repr)
      ensures View() == Advance(old(View()))
    {
      hide Covered, HmFragment.Valid, SlotOk, Slot;
      AdvanceSane(View(), N);
      hasMessage := false;
      RingKept();
      Clear();
      label cleared:
      next := (next + 1) % U16_LIMIT;
      RingKept@cleared();
    }

    /** dtls_has_unprocessed_handshake_data */
    method HasUnprocessed() returns (b: bool)
      requires Valid()
      ensures b <==> Unprocessed(View())
    {
      assert Slot(next, N) == next % N;
      hide Covered, HmFragment.Valid, Sane, Slot;
      if hasChangeCipherSpec {
        return true;
      }
      var current := next % N;
      assert next < next + N;
      var i := 0;
      while i < N
        invariant 0 <= i <= N
        invariant forall q :: q in parts && !(hasMessage && q == next) ==> Slot(q, N) >= i
      {
        if !(hasMessage && i == current) {
          if incoming[i] != null {
            assert SlotOk(i);
            return true;
          }
        } else {
          RingAssertion(next);
        }
        i := i + 1;
      }
      assert forall q :: q in parts ==> Slot(q, N) < N;
      b := false;
    }

    /** dtls1_set_read_state, without the cipher itself: refused while messages are buffered. */
    method SetReadState() returns (ok: bool)
      requires Valid()
      modifies this`epoch
      ensures Valid()
      ensures ok <==> !Unprocessed(old(View()))
      ensures ok ==> !hasChangeCipherSpec && forall q :: q in parts ==> hasMessage && q == next
      ensures !ok ==> hasChangeCipherSpec || exists q :: q in parts && !(hasMessage && q == next)
      ensures View() == if ok then old(View()).(epoch := (old(epoch) + 1) % U16_LIMIT) else old(View())
    {
      assert Unprocessed(View()) <==> hasChangeCipherSpec || exists q :: q in parts && !(hasMessage && q == next);
      hide HmFragment.Valid, SlotOk, Unprocessed, Covered;
      var b := HasUnprocessed();
      ok := !b;
      if ok {
        epoch := (epoch + 1) % U16_LIMIT;
      }
      RingKept();
    }
  }
}
