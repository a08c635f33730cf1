/** dtls_open_record: which records of a packet reach the upper layer. */
module DtlsOpenRecord {
  import opened Prelude
  import opened DtlsMessages
  import opened DtlsReplay

  const RT_HEADER_LENGTH: nat := 13
  const MAX_PLAIN_LENGTH: nat := 16384
  /** MAX_PLAIN_LENGTH + 256 + 64 */
  const MAX_ENCRYPTED_LENGTH: nat := 16704
  const DTLS1_VERSION_MAJOR: nat := 0xfe

  /** The fields of a record and the bytes of the packet after it. */
  datatype Record = Record(typ: byte, version: nat, sequence: seq<byte>, body: seq<byte>, rest: seq<byte>)

  function ParseRecord(packet: seq<byte>): (r: Option<Record>)
    ensures r.Some? ==> |r.value.sequence| == 8 && |packet| == RT_HEADER_LENGTH + |r.value.body| + |r.value.rest|
  {
    if |packet| < RT_HEADER_LENGTH then None
    else
      var n := U16At(packet, 11);
      if |packet| - RT_HEADER_LENGTH < n || n > MAX_ENCRYPTED_LENGTH then None
      else
        var end := RT_HEADER_LENGTH + n;
        Some(Record(packet[0], U16At(packet, 1), packet[3..11], packet[RT_HEADER_LENGTH..end], packet[end..]))
  }

  /** Type, version, epoch and sequence number, and length, all big-endian, in front of the body. */
  function RecordBytes(r: Record): seq<byte>
    requires r.version < U16_LIMIT && |r.body| < U16_LIMIT
  {
    [r.typ, r.version / 256, r.version % 256] + r.sequence + [|r.body| / 256, |r.body| % 256] + r.body + r.rest
  }

  predicate WfRecord(r: Record) {
    r.version < 0x1_0000 && |r.sequence| == 8 && |r.body| <= 16384 + 320
  }

  /** Every well-formed record is read back, whatever follows it in the packet. */
  lemma {:induction false} RecordRoundTrip(r: Record)
    requires WfRecord(r)
    ensures ParseRecord(RecordBytes(r)) == Some(r)
  {
    var p := RecordBytes(r);
    var n := |r.body|;
    assert p[0] == r.typ && p[1] == r.version / 256 && p[2] == r.version % 256;
    assert p[11] == n / 256 && p[12] == n % 256;
    assert p[3..11] == r.sequence;
    assert p[13..13 + n] == r.body;
    assert p[13 + n..] == r.rest;
  }

  /** What is read is such a record: a packet of any other form is dropped. */
  lemma {:induction false} ParsedRecord(packet: seq<byte>)
    requires ParseRecord(packet).Some?
    ensures WfRecord(ParseRecord(packet).value) && packet == RecordBytes(ParseRecord(packet).value)
  {
    var r := ParseRecord(packet).value;
    var end := 13 + |r.body|;
    assert packet[11] == |r.body| / 256 && packet[12] == |r.body| % 256;
    assert packet == packet[..13] + packet[13..end] + packet[end..];
    assert packet[..13] == [r.typ, r.version / 256, r.version % 256] + r.sequence + [|r.body| / 256, |r.body| % 256];
  }

  /** Alerts by their numbers (RFC 5246, section 7.2). */
  lemma {:induction false} KnownAlerts(warnings: nat, level: byte, descr: byte)
    ensures AlertOutcome(warnings, [1, 0]) == CloseNotify
    ensures 1 <= descr ==> AlertOutcome(warnings, [1, descr]) == if warnings < 4 then Dropped else Failed(10)
    ensures AlertOutcome(warnings, [2, descr]) == Failed(0)
    ensures level != 1 && level != 2 ==> AlertOutcome(warnings, [level, descr]) == Failed(47)
    ensures AlertOutcome(warnings, []) == AlertOutcome(warnings, [level]) == AlertOutcome(warnings, [level, descr, 0]) == Failed(50)
  {
    assert [1, descr] == [1, 0] <==> descr == 0;
  }

  /** The decryption of the current epoch: type, version, sequence and body to plaintext, or rejection. */
  type Opener = (byte, nat, seq<byte>, seq<byte>) -> Option<seq<byte>>

  const RT_ALERT: byte := 21
  const ALERT_WARNING: byte := 1
  const ALERT_FATAL: byte := 2
  const CLOSE_NOTIFY: byte := 0
  const MAX_WARNING_ALERTS: nat := 4

  /** The alert to send with an error, 0 for none. */
  const NO_ALERT: nat := 0
  const UNEXPECTED_MESSAGE: nat := 10
  const RECORD_OVERFLOW: nat := 22
  const ILLEGAL_PARAMETER: nat := 47
  const DECODE_ERROR: nat := 50

  datatype Opened =
    | CloseNotify
    | NeedMore
    | Dropped
    | Failed(alert: nat)
    | Plain(typ: byte, body: seq<byte>)

  /** A warning other than close_notify. */
  predicate IsWarning(body: seq<byte>) {
    |body| == 2 && body[0] == ALERT_WARNING && body[1] != CLOSE_NOTIFY
  }

  predicate IsCloseNotify(body: seq<byte>) {
    body == [ALERT_WARNING, CLOSE_NOTIFY]
  }

  /** What the alert means after this many warnings with no other record in between. */
  function AlertOutcome(warnings: nat, body: seq<byte>): Opened {
    if |body| != 2 then Failed(DECODE_ERROR)
    else if IsCloseNotify(body) then CloseNotify
    else if IsWarning(body) then (if warnings >= MAX_WARNING_ALERTS then Failed(UNEXPECTED_MESSAGE) else Dropped)
    else Failed(if body[0] == ALERT_FATAL then NO_ALERT else ILLEGAL_PARAMETER)
  }

  lemma {:induction false} BeValueSnoc(b: seq<byte>, x: byte)
    ensures BeValue(b + [x]) == BeValue(b) * 256 + x as int
  {
    assert (b + [x])[..|b|] == b;
  }

  /** Epoch and sequence number as one 64-bit number. */
  function Number(q: seq<byte>): nat
    requires |q| == 8
  {
    var a: int, b: int, c: int, d: int := q[0], q[1], q[2], q[3];
    var e: int, f: int, g: int, h: int := q[4], q[5], q[6], q[7];
    a * 0x100_0000_0000_0000 + b * 0x1_0000_0000_0000 + c * 0x100_0000_0000 + d * 0x1_0000_0000
    + e * 0x100_0000 + f * 0x1_0000 + g * 0x100 + h
  }

  lemma {:induction false} EightBytes(q: seq<byte>)
    requires |q| == 8
    ensures BeValue(q) == Number(q)
  {
    hide BeValue;
    assert BeValue(q[..0]) == 0 by { EmptyBytes(q[..0]); }
    assert q[..1] == q[..0] + [q[0]] && q[..2] == q[..1] + [q[1]] && q[..3] == q[..2] + [q[2]] && q[..4] == q[..3] + [q[3]];
    assert q[..5] == q[..4] + [q[4]] && q[..6] == q[..5] + [q[5]] && q[..7] == q[..6] + [q[6]] && q == q[..7] + [q[7]];
    BeValueSnoc(q[..0], q[0]);
    BeValueSnoc(q[..1], q[1]);
    BeValueSnoc(q[..2], q[2]);
    BeValueSnoc(q[..3], q[3]);
    BeValueSnoc(q[..4], q[4]);
    BeValueSnoc(q[..5], q[5]);
    BeValueSnoc(q[..6], q[6]);
    BeValueSnoc(q[..7], q[7]);
  }

  lemma {:induction false} EmptyBytes(b: seq<byte>)
    requires b == []
    ensures BeValue(b) == 0
  {
  }

  class RecordReader {
    var epoch: nat
    var nullCipher: bool
    var version: nat
    /** close_notify was received. */
    var closed: bool
    var warnings: nat
    const bitmap: Bitmap
    /** The 64-bit numbers of the records let through in this epoch, in order. */
    ghost var accepted: seq<nat>

    ghost predicate Valid()
      reads this, bitmap
    {
      && epoch < U16_LIMIT
      && Refines(bitmap.View(), SetOf(accepted))
      && Distinct(accepted)
    }

    constructor ()
      ensures Valid() && fresh(bitmap)
      ensures epoch == 0 && nullCipher && accepted == [] && !closed && warnings == 0
    {
      closed, warnings := false, 0;
      epoch, nullCipher, version, accepted := 0, true, 0, [];
      bitmap := new Bitmap();
      new;
      AcceptedOnce([]);
    }

    predicate VersionOk(v: nat)
      reads this
    {
      if nullCipher then v / 256 == DTLS1_VERSION_MAJOR else v == version
    }

    /** What lets a record through: its epoch and version, a number that is new and not stale, and its authenticity. */
    ghost predicate Admissible(r: Record, open: Opener)
      requires |r.sequence| == 8
      reads this, bitmap
    {
      && VersionOk(r.version)
      && U16At(r.sequence, 0) == epoch
      && BeValue(r.sequence) !in accepted
      && bitmap.maxSeqNum < BeValue(r.sequence) + WINDOW
      && open(r.typ, r.version, r.sequence, r.body).Some?
    }

    /** ssl_process_alert, below TLS 1.3 */
    method ProcessAlert(body: seq<byte>) returns (out: Opened)
      modifies this`closed, this`warnings
      ensures out == AlertOutcome(old(warnings), body)
      ensures closed == (old(closed) || IsCloseNotify(body))
      ensures warnings == old(warnings) + if IsWarning(body) then 1 else 0
    {
      if |body| != 2 {
        return Failed(DECODE_ERROR);
      }
      if body[0] == ALERT_WARNING {
        if body[1] == CLOSE_NOTIFY {
          closed := true;
          return CloseNotify;
        }
        warnings := warnings + 1;
        if warnings > MAX_WARNING_ALERTS {
          return Failed(UNEXPECTED_MESSAGE);
        }
        return Dropped;
      }
      out := Failed(if body[0] == ALERT_FATAL then NO_ALERT else ILLEGAL_PARAMETER);
    }

    /** The first record of the packet, decrypted, if it is let through. */
    ghost function Opening(packet: seq<byte>, open: Opener): Option<seq<byte>>
      reads this, bitmap
    {
      var p := ParseRecord(packet);
      if p.Some? && Admissible(p.value, open) then open(p.value.typ, p.value.version, p.value.sequence, p.value.body)
      else None
    }

    /** On the bytes of a record: what lets it through. */
    lemma {:induction false} OpeningOnBytes(r: Record, open: Opener)
      requires Valid() && WfRecord(r)
      ensures var q := r.sequence;
              Opening(RecordBytes(r), open) ==
              if && (if nullCipher then r.version / 256 == 0xfe else r.version == version)
                 && q[0] as int * 0x100 + q[1] as int == epoch
                 && Number(q) !in accepted && bitmap.maxSeqNum < Number(q) + 64
              then open(r.typ, r.version, r.sequence, r.body) else None
    {
      RecordRoundTrip(r);
      EightBytes(r.sequence);
      hide BeValue, RecordBytes, ParseRecord;
    }

    /** dtls_open_record */
    method Open(packet: seq<byte>, open: Opener) returns (out: Opened, consumed: nat)
      requires Valid()
      modifies this`accepted, this`closed, this`warnings, bitmap
      ensures Valid()
      ensures old(closed) ==> out == CloseNotify
      ensures !old(closed) && packet == [] ==> out == NeedMore
      ensures !old(closed) && packet != [] ==>
                match old(Opening(packet, open))
                case None => out == Dropped && Untouched(old(closed), old(warnings), old(accepted), old(bitmap.View()))
                case Some(plain) =>
                  var r := ParseRecord(packet).value;
                  if |plain| > MAX_PLAIN_LENGTH then
                    out == Failed(RECORD_OVERFLOW)
                    && Untouched(old(closed), old(warnings), old(accepted), old(bitmap.View()))
                  else
                    && accepted == old(accepted) + [BeValue(r.sequence)]
                    && if r.typ != RT_ALERT then out == Plain(r.typ, plain) && !closed && warnings == 0
                       else && out == AlertOutcome(old(warnings), plain) && closed == IsCloseNotify(plain)
                            && warnings == old(warnings) + if IsWarning(plain) then 1 else 0
      ensures old(closed) || packet == [] ==>
                consumed == 0 && Untouched(old(closed), old(warnings), old(accepted), old(bitmap.View()))
      ensures !old(closed) && packet != [] ==> 0 < consumed <= |packet|
      ensures !old(closed) && old(Opening(packet, open)).Some? ==> packet[consumed..] == ParseRecord(packet).value.rest
    {
      hide Refines, DtlsReplay.Record, Discarded, BeValue, AlertOutcome;
      if closed {
        return CloseNotify, 0;
      }
      if packet == [] {
        return NeedMore, 0;
      }
      var parsed := ParseRecord(packet);
      if parsed == None || !VersionOk(parsed.value.version) {
        return Dropped, |packet|;
      }
      var r := parsed.value;
      consumed := |packet| - |r.rest|;
      var discard := bitmap.ShouldDiscard(r.sequence);
      DiscardExact(bitmap.View(), SetOf(accepted), BeValue(r.sequence));
      if U16At(r.sequence, 0) != epoch || discard {
        return Dropped, consumed;
      }
      var plain := open(r.typ, r.version, r.sequence, r.body);
      if plain == None {
        return Dropped, consumed;
      }
      if |plain.value| > MAX_PLAIN_LENGTH {
        return Failed(RECORD_OVERFLOW), consumed;
      }
      RecordRefines(bitmap.View(), SetOf(accepted), BeValue(r.sequence));
      assert SetOf(accepted + [BeValue(r.sequence)]) == SetOf(accepted) + {BeValue(r.sequence)};
      bitmap.RecordReceipt(r.sequence);
      accepted := accepted + [BeValue(r.sequence)];
      if r.typ == RT_ALERT {
        out := ProcessAlert(plain.value);
        return;
      }
      warnings := 0;
      out := Plain(r.typ, plain.value);
    }

    ghost predicate Untouched(closed: bool, warnings: nat, accepted: seq<nat>, window: Window)
      reads this, bitmap
    {
      this.closed == closed && this.warnings == warnings && this.accepted == accepted && bitmap.View() == window
    }

    /** The record-layer half of dtls1_set_read_state: a new epoch with an empty window. */
    method NextEpoch(cipherVersion: nat)
      requires Valid()
      modifies this, bitmap
      ensures Valid()
      ensures epoch == (old(epoch) + 1) % U16_LIMIT && accepted == []
      ensures !nullCipher && version == cipherVersion && closed == old(closed) && warnings == old(warnings)
    {
      epoch := (epoch + 1) % U16_LIMIT;
      bitmap.map_, bitmap.maxSeqNum := 0, 0;
      nullCipher, version := false, cipherVersion;
      accepted := [];
      AcceptedOnce([]);
    }
  }
}
