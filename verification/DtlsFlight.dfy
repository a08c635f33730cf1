/**
 * How the records of a sending pass tile a flight: each record is the next piece
 * of the message at the current (outgoing_written, outgoing_offset).
 */
module DtlsFlight {
  import opened Prelude
  import opened DtlsMessages
  import opened DtlsRecordWriter

  /** DTLS_OUTGOING_MESSAGE */
  datatype Outgoing = Outgoing(data: seq<byte>, epoch: nat, isCcs: bool)

  /** outgoing_written and outgoing_offset */
  datatype Pos = Pos(written: nat, offset: nat)

  /** The message stored as a single fragment, if the stored bytes are one. */
  function Stored(o: Outgoing): Option<Message> {
    var d := ParseFragment(o.data);
    if d.Good? && d.rest == [] && d.v.off == 0 && d.v.msgLen == |d.v.body| then
      Some(Message(d.v.typ, d.v.seqNum, d.v.body))
    else None
  }

  lemma {:induction false} StoredRaw(m: Message, epoch: nat)
    requires WfMessage(m)
    ensures Stored(Outgoing(Raw(m), epoch, false)) == Some(m)
  {
    FragmentRoundTrip(Whole(m), []);
    assert EncFragment(Whole(m)) + [] == Raw(m);
  }

  lemma {:induction false} StoredIsWf(o: Outgoing)
    requires Stored(o).Some?
    ensures WfMessage(Stored(o).value) && o.data == Raw(Stored(o).value)
  {
    ParsedIsEncoded(o.data);
    assert o.data == EncFragment(ParseFragment(o.data).v) + [];
  }

  function Slice(m: Message, off: nat, n: nat): Fragment
    requires off + n <= |m.body|
  {
    Fragment(m.typ, |m.body|, m.seqNum, off, m.body[off..off + n])
  }

  /** Where the flight continues after n bytes of the message at pos. */
  function Next(m: Message, pos: Pos, n: nat): Pos {
    if pos.offset + n == |m.body| then Pos(pos.written + 1, 0) else Pos(pos.written, pos.offset + n)
  }

  /** n bytes from pos make a legal handshake piece: something, unless nothing is left of the body. */
  predicate LegalPiece(m: Message, pos: Pos, n: nat) {
    pos.offset + n <= |m.body| && (n > 0 || pos.offset == |m.body|)
  }

  /** The record is the piece of the flight at pos, and the flight then continues at then. */
  predicate Step(msgs: seq<Outgoing>, pos: Pos, rec: WireRecord, after: Pos) {
    && pos.written < |msgs|
    && var o := msgs[pos.written];
       && rec.epoch == o.epoch
       && if o.isCcs then
            rec.typ == RT_CHANGE_CIPHER_SPEC && rec.plain == [1] && after == Pos(pos.written + 1, 0)
          else
            && rec.typ == RT_HANDSHAKE
            && Stored(o).Some? && |rec.plain| >= HM_HEADER_LENGTH
            && var m, n := Stored(o).value, |rec.plain| - HM_HEADER_LENGTH;
               && LegalPiece(m, pos, n)
               && WfFragment(Slice(m, pos.offset, n))
               && rec.plain == EncFragment(Slice(m, pos.offset, n))
               && after == Next(m, pos, n)
  }

  /** The records take the flight from pos to end. */
  ghost predicate Steps(msgs: seq<Outgoing>, pos: Pos, recs: seq<WireRecord>, end: Pos)
    decreases |recs|
  {
    if recs == [] then pos == end
    else exists mid :: Step(msgs, pos, recs[0], mid) && Steps(msgs, mid, recs[1..], end)
  }

  lemma {:induction false} StepsOfNone(msgs: seq<Outgoing>, pos: Pos, end: Pos)
    ensures Steps(msgs, pos, [], end) <==> pos == end
  {
  }

  lemma {:induction false} FirstStep(msgs: seq<Outgoing>, pos: Pos, recs: seq<WireRecord>, end: Pos) returns (mid: Pos)
    requires recs != [] && Steps(msgs, pos, recs, end)
    ensures Step(msgs, pos, recs[0], mid) && Steps(msgs, mid, recs[1..], end)
  {
    hide Step;
    mid :| Step(msgs, pos, recs[0], mid) && Steps(msgs, mid, recs[1..], end);
  }

  lemma {:induction false} StepsConcat(msgs: seq<Outgoing>, pos: Pos, r: seq<WireRecord>, mid: Pos,
                                       s: seq<WireRecord>, end: Pos)
    requires Steps(msgs, pos, r, mid) && Steps(msgs, mid, s, end)
    ensures Steps(msgs, pos, r + s, end)
    decreases |r|
  {
    hide Step;
    if r == [] {
      assert r + s == s;
    } else {
      var p :| Step(msgs, pos, r[0], p) && Steps(msgs, p, r[1..], mid);
      StepsConcat(msgs, p, r[1..], mid, s, end);
      assert (r + s)[0] == r[0] && (r + s)[1..] == r[1..] + s;
    }
  }

  lemma {:induction false} StepsSnoc(msgs: seq<Outgoing>, pos: Pos, r: seq<WireRecord>, mid: Pos, rec: WireRecord,
                                     end: Pos)
    requires Steps(msgs, pos, r, mid) && Step(msgs, mid, rec, end)
    ensures Steps(msgs, pos, r + [rec], end)
  {
    hide Step;
    assert [rec][1..] == [];
    assert Steps(msgs, end, [], end);
    assert Steps(msgs, mid, [rec], end);
    StepsConcat(msgs, pos, r, mid, [rec], end);
  }

  predicate Before(p: Pos, q: Pos) {
    p.written < q.written || (p.written == q.written && p.offset < q.offset)
  }

  /** An offset other than 0 lies strictly inside the current message. */
  predicate PosOk(msgs: seq<Outgoing>, pos: Pos) {
    && pos.written <= |msgs|
    && (pos.offset == 0 ||
        (pos.written < |msgs| && !msgs[pos.written].isCcs
         && Stored(msgs[pos.written]).Some? && pos.offset < |Stored(msgs[pos.written]).value.body|))
  }

  /** (messages left, bytes left) strictly decreases with every record. */
  lemma {:induction false} StepAdvances(msgs: seq<Outgoing>, pos: Pos, rec: WireRecord, after: Pos)
    requires Step(msgs, pos, rec, after) && PosOk(msgs, pos)
    ensures Before(pos, after) && PosOk(msgs, after)
  {
    hide Stored, EncFragment;
  }

  lemma {:induction false} StepsAdvance(msgs: seq<Outgoing>, pos: Pos, recs: seq<WireRecord>, end: Pos)
    requires Steps(msgs, pos, recs, end) && PosOk(msgs, pos)
    ensures PosOk(msgs, end) && (if recs == [] then pos == end else Before(pos, end))
    decreases |recs|
  {
    hide Step, PosOk;
    if recs != [] {
      var mid :| Step(msgs, pos, recs[0], mid) && Steps(msgs, mid, recs[1..], end);
      StepAdvances(msgs, pos, recs[0], mid);
      StepsAdvance(msgs, mid, recs[1..], end);
    }
  }

  /** The handshake fragment a record carries. */
  function FragmentOf(rec: WireRecord): Option<Fragment> {
    if rec.typ != RT_HANDSHAKE then None
    else
      var d := ParseFragment(rec.plain);
      if d.Good? && d.rest == [] then Some(d.v) else None
  }

  lemma {:induction false} StepFragment(msgs: seq<Outgoing>, pos: Pos, rec: WireRecord, after: Pos)
    requires Step(msgs, pos, rec, after)
    ensures if msgs[pos.written].isCcs then FragmentOf(rec) == None
            else FragmentOf(rec) == Some(Slice(Stored(msgs[pos.written]).value, pos.offset, |rec.plain| - HM_HEADER_LENGTH))
  {
    hide Stored, ParseFragment, EncFragment;
    if !msgs[pos.written].isCcs {
      var f := Slice(Stored(msgs[pos.written]).value, pos.offset, |rec.plain| - HM_HEADER_LENGTH);
      FragmentRoundTrip(f, []);
      assert EncFragment(f) + [] == rec.plain;
    }
  }

  /** The record carries byte k of the message with sequence number q. */
  predicate Covers(rec: WireRecord, q: nat, k: nat) {
    && FragmentOf(rec).Some?
    && var f := FragmentOf(rec).value;
       f.seqNum == q && f.off <= k < f.off + |f.body|
  }

  function CoverCount(recs: seq<WireRecord>, q: nat, k: nat): nat {
    if recs == [] then 0 else (if Covers(recs[0], q, k) then 1 else 0) + CoverCount(recs[1..], q, k)
  }

  /** The handshake messages of a flight have different sequence numbers. */
  ghost predicate DistinctSeqs(msgs: seq<Outgoing>) {
    forall i, j :: 0 <= i < j < |msgs| && !msgs[i].isCcs && !msgs[j].isCcs && Stored(msgs[i]).Some? && Stored(msgs[j]).Some? ==>
      Stored(msgs[i]).value.seqNum != Stored(msgs[j]).value.seqNum
  }

  /** Of a pass from pos to end, exactly one record carries each byte in between, and none any other byte. */
  lemma {:induction false} CoveredOnce(msgs: seq<Outgoing>, pos: Pos, recs: seq<WireRecord>, end: Pos, i: nat, k: nat)
    requires Steps(msgs, pos, recs, end) && PosOk(msgs, pos) && DistinctSeqs(msgs)
    requires i < |msgs| && !msgs[i].isCcs && Stored(msgs[i]).Some? && k < |Stored(msgs[i]).value.body|
    ensures CoverCount(recs, Stored(msgs[i]).value.seqNum, k) ==
            if !Before(Pos(i, k), pos) && Before(Pos(i, k), end) then 1 else 0
    decreases |recs|
  {
    hide Step, PosOk, Stored, DistinctSeqs, Covers, Steps;
    if recs == [] {
      StepsOfNone(msgs, pos, end);
    } else {
      var mid := FirstStep(msgs, pos, recs, end);
      StepAdvances(msgs, pos, recs[0], mid);
      CoveredOnce(msgs, mid, recs[1..], end, i, k);
      HeadCovers(msgs, pos, recs[0], mid, i, k);
      StepsAdvance(msgs, mid, recs[1..], end);
    }
  }

  lemma {:induction false} HeadCovers(msgs: seq<Outgoing>, pos: Pos, rec: WireRecord, after: Pos, i: nat, k: nat)
    requires Step(msgs, pos, rec, after) && DistinctSeqs(msgs)
    requires i < |msgs| && !msgs[i].isCcs && Stored(msgs[i]).Some? && k < |Stored(msgs[i]).value.body|
    ensures Covers(rec, Stored(msgs[i]).value.seqNum, k) <==> !Before(Pos(i, k), pos) && Before(Pos(i, k), after)
  {
    hide Stored, EncFragment, FragmentOf;
    StepFragment(msgs, pos, rec, after);
  }

  /** Every message of a complete pass is carried, even an empty one. */
  lemma {:induction false} Mentioned(msgs: seq<Outgoing>, pos: Pos, recs: seq<WireRecord>, end: Pos, i: nat)
    returns (j: nat)
    requires Steps(msgs, pos, recs, end) && PosOk(msgs, pos)
    requires i < |msgs| && !msgs[i].isCcs && pos.written <= i && end.written > i
    ensures j < |recs| && FragmentOf(recs[j]).Some? && Stored(msgs[i]).Some?
    ensures FragmentOf(recs[j]).value.seqNum == Stored(msgs[i]).value.seqNum
    decreases |recs|
  {
    hide PosOk, Stored, FragmentOf, EncFragment;
    var mid :| Step(msgs, pos, recs[0], mid) && Steps(msgs, mid, recs[1..], end);
    if pos.written == i {
      StepFragment(msgs, pos, recs[0], mid);
      j := 0;
    } else {
      StepAdvances(msgs, pos, recs[0], mid);
      assert mid.written <= i;
      j := Mentioned(msgs, mid, recs[1..], end, i);
      j := j + 1;
    }
  }

  lemma {:induction false} CountedMeansCovered(recs: seq<WireRecord>, q: nat, k: nat)
    returns (j: nat)
    requires CoverCount(recs, q, k) > 0
    ensures j < |recs| && Covers(recs[j], q, k)
  {
    hide Covers;
    if Covers(recs[0], q, k) {
      j := 0;
    } else {
      j := CountedMeansCovered(recs[1..], q, k);
      j := j + 1;
    }
  }
}
