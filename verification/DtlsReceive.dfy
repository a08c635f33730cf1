/**
 * What the DTLS receiver does, on values: partial messages keyed by sequence
 * number, one step per fragment, and the handing out of whole messages in order
 * (RFC 6347, section 4.2.2). N is SSL_MAX_HANDSHAKE_FLIGHT, maxLen the largest
 * message accepted at the current point of the handshake.
 */
module DtlsReceive {
  import opened Prelude
  import opened DtlsMessages

  datatype Alert = InternalError | IllegalParameter | DecodeError | UnexpectedMessage

  datatype Verdict = Success | Discard | Error(alert: Alert)

  datatype RecordType = ApplicationData | ChangeCipherSpec | Handshake | OtherType

  /** The bytes of a message received so far, by position. */
  datatype Partial = Partial(typ: byte, msgLen: nat, got: map<nat, byte>)

  ghost predicate Covered(p: Partial) {
    forall k: nat :: k < p.msgLen ==> k in p.got
  }

  ghost function Body(p: Partial): (b: seq<byte>)
    requires Covered(p)
    ensures |b| == p.msgLen
    ensures forall k: nat :: k < |b| ==> b[k] == p.got[k]
  {
    seq(p.msgLen, k requires 0 <= k < p.msgLen => p.got[k])
  }

  ghost function ByteAt(off: nat, body: seq<byte>, k: nat): byte
    requires off <= k < off + |body|
  {
    body[k - off]
  }

  ghost function Received(got: map<nat, byte>, off: nat, body: seq<byte>): map<nat, byte> {
    got + (map k: nat | off <= k < off + |body| :: ByteAt(off, body, k))
  }

  datatype State = State(next: nat, epoch: nat, parts: map<nat, Partial>, hasMessage: bool, ccs: bool)

  datatype Outcome = Outcome(s: State, verdict: Verdict)

  predicate BadBounds(f: Fragment, maxLen: nat) {
    f.off > f.msgLen || f.off + |f.body| > f.msgLen || f.msgLen > maxLen
  }

  /** A fragment is merged into its message, unless the message is already whole. */
  ghost function Merge(p: Partial, f: Fragment): Partial {
    if Covered(p) then p else p.(got := Received(p.got, f.off, f.body))
  }

  ghost function PartOf(s: State, f: Fragment): Partial {
    if f.seqNum in s.parts then s.parts[f.seqNum] else Partial(f.typ, f.msgLen, map[])
  }

  /** One turn of the loop of dtls1_open_handshake. */
  ghost function OnFragment(s: State, N: nat, maxLen: nat, f: Fragment): Outcome {
    if BadBounds(f, maxLen) then Outcome(s, Error(IllegalParameter))
    else if s.epoch == 1 && f.seqNum != s.next then Outcome(s, Error(UnexpectedMessage))
    else if f.seqNum < s.next || f.seqNum > s.next + N then Outcome(s, Success)
    else if f.seqNum - s.next >= N then Outcome(s, Error(InternalError))
    else
      var p := PartOf(s, f);
      if p.typ != f.typ || p.msgLen != f.msgLen then Outcome(s, Error(IllegalParameter))
      else Outcome(s.(parts := s.parts[f.seqNum := Merge(p, f)]), Success)
  }

  /** The loop: an error keeps what the earlier fragments of the record did. */
  ghost function OnHandshakeRecord(s: State, N: nat, maxLen: nat, cbs: seq<byte>): Outcome
    decreases |cbs|
  {
    if cbs == [] then Outcome(s, Success)
    else
      var d := ParseFragment(cbs);
      if d.Bad? then Outcome(s, Error(DecodeError))
      else
        assert |d.rest| < |cbs|;
        var o := OnFragment(s, N, maxLen, d.v);
        if o.verdict != Success then o else OnHandshakeRecord(o.s, N, maxLen, d.rest)
  }

  /** dtls1_open_handshake on an opened record. */
  ghost function OnRecord(s: State, N: nat, maxLen: nat, nullCipher: bool, t: RecordType, record: seq<byte>): Outcome {
    match t
    case ApplicationData => Outcome(s, if nullCipher then Error(UnexpectedMessage) else Discard)
    case ChangeCipherSpec =>
      if !nullCipher then Outcome(s, Error(UnexpectedMessage))
      else if record != [1] then Outcome(s, Error(IllegalParameter))
      else Outcome(s.(ccs := true), Success)
    case Handshake => OnHandshakeRecord(s, N, maxLen, record)
    case OtherType => Outcome(s, Error(UnexpectedMessage))
  }

  ghost predicate Available(s: State) {
    s.next in s.parts && Covered(s.parts[s.next])
  }

  ghost function Current(s: State): Message
    requires Available(s)
  {
    Message(s.parts[s.next].typ, s.next, Body(s.parts[s.next]))
  }

  /** dtls1_next_message; the 16-bit counter wraps. */
  ghost function Advance(s: State): State {
    s.(parts := s.parts - {s.next}, next := (s.next + 1) % U16_LIMIT, hasMessage := false)
  }

  /** dtls_has_unprocessed_handshake_data */
  ghost predicate Unprocessed(s: State) {
    s.ccs || exists q :: q in s.parts && !(s.hasMessage && q == s.next)
  }

  /** What holds in every reachable state. */
  ghost predicate Sane(s: State, N: nat) {
    && s.next < U16_LIMIT
    && (forall q :: q in s.parts ==> s.next <= q < s.next + N && q < U16_LIMIT && s.parts[q].msgLen < U24_LIMIT)
    && (s.hasMessage ==> Available(s))
  }

  lemma {:induction false} OnFragmentSane(s: State, N: nat, maxLen: nat, f: Fragment)
    requires Sane(s, N) && WfFragment(f)
    ensures Sane(OnFragment(s, N, maxLen, f).s, N)
    ensures OnFragment(s, N, maxLen, f).s.next == s.next
  {
  }

  /** A sound fragment from beyond the window is ignored, except on its very edge, where it is an error. */
  lemma {:induction false} WindowEdge(s: State, N: nat, maxLen: nat, f: Fragment)
    requires N >= 1 && s.epoch != 1 && !BadBounds(f, maxLen) && f.seqNum >= s.next + N
    ensures OnFragment(s, N, maxLen, f).s == s
    ensures OnFragment(s, N, maxLen, f).verdict == Success <==> f.seqNum != s.next + N
  {
  }

  /** Which fragments are refused, and with which alert; a refused fragment and one outside the window
      change nothing. */
  lemma {:induction false} FragmentVerdict(s: State, N: nat, maxLen: nat, f: Fragment)
    requires N >= 1
    ensures var o := OnFragment(s, N, maxLen, f);
            var inside := f.off + |f.body| <= f.msgLen <= maxLen;
            var due := s.epoch != 1 || f.seqNum == s.next;
            var contradicts := f.seqNum in s.parts && (s.parts[f.seqNum].typ != f.typ || s.parts[f.seqNum].msgLen != f.msgLen);
            && (o.verdict == Error(IllegalParameter) <==>
                  !inside || (due && contradicts && s.next <= f.seqNum < s.next + N))
            && (o.verdict == Error(UnexpectedMessage) <==> inside && !due)
            && (o.verdict == Error(InternalError) <==> inside && due && f.seqNum == s.next + N)
            && (o.verdict.Error? || o.verdict == Success)
            && (o.verdict.Error? || !(s.next <= f.seqNum < s.next + N) ==> o.s == s)
  {
    hide Merge;
  }

  /** Record types other than handshake (RFC 6347, section 4.1; RFC 5246, section 7.2.2). */
  lemma {:induction false} OtherRecords(s: State, N: nat, maxLen: nat, nullCipher: bool, t: RecordType, record: seq<byte>)
    requires t != Handshake
    ensures var o := OnRecord(s, N, maxLen, nullCipher, t, record);
            && (o.verdict == Success <==> t == ChangeCipherSpec && nullCipher && record == [1])
            && (o.verdict == Discard <==> t == ApplicationData && !nullCipher)
            && (o.verdict == Error(IllegalParameter) <==> t == ChangeCipherSpec && nullCipher && record != [1])
            && (o.verdict.Error? ==> o.verdict.alert == IllegalParameter || o.verdict.alert == UnexpectedMessage)
            && o.s == if o.verdict == Success then s.(ccs := true) else s
  {
  }

  lemma {:induction false} AdvanceSane(s: State, N: nat)
    requires Sane(s, N)
    ensures Sane(Advance(s), N)
  {
    var t := Advance(s);
    forall q | q in t.parts ensures t.next <= q < t.next + N && q < U16_LIMIT && t.parts[q].msgLen < U24_LIMIT {
      assert q in s.parts && q != s.next;
    }
  }

  /** A record made of whole fragments is handled fragment by fragment. */
  ghost function OnFragments(s: State, N: nat, maxLen: nat, fs: seq<Fragment>): Outcome
    decreases |fs|
  {
    if fs == [] then Outcome(s, Success)
    else
      var o := OnFragment(s, N, maxLen, fs[0]);
      if o.verdict != Success then o else OnFragments(o.s, N, maxLen, fs[1..])
  }

  function EncFragments(fs: seq<Fragment>): seq<byte>
    requires forall i :: 0 <= i < |fs| ==> WfFragment(fs[i])
  {
    if fs == [] then [] else EncFragment(fs[0]) + EncFragments(fs[1..])
  }

  lemma {:induction false} RecordIsItsFragments(s: State, N: nat, maxLen: nat, fs: seq<Fragment>)
    requires forall i :: 0 <= i < |fs| ==> WfFragment(fs[i])
    ensures OnHandshakeRecord(s, N, maxLen, EncFragments(fs)) == OnFragments(s, N, maxLen, fs)
    decreases |fs|
  {
    hide OnFragment, EncFragment, ParseFragment;
    if fs != [] {
      FragmentRoundTrip(fs[0], EncFragments(fs[1..]));
      RecordIsItsFragments(OnFragment(s, N, maxLen, fs[0]).s, N, maxLen, fs[1..]);
    }
  }
}
