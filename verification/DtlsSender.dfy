/** The sending half of d1_both.cc: building a flight, cutting it into packets, and resuming after failed writes. */
module DtlsSender {
  import opened Prelude
  import opened DtlsMessages
  import opened DtlsRecordNumbers
  import opened DtlsRecordWriter
  import opened DtlsFlight

  const MAX_DATA: nat := 0xffff_ffff

  datatype SealResult = SealError | NoProgress | SealedPart | SealedAll

  /** The int of send_flight: 1, the result of BIO_write, or -1 after BIO_flush, a failed seal, or a shutdown. */
  datatype FlightResult = Sent | WriteBlocked(ret: int) | FlushBlocked | SealFailed | ShutDown

  type Packet = seq<WireRecord>

  function PacketLen(p: Packet): nat {
    if p == [] then 0 else PacketLen(p[..|p| - 1]) + p[|p| - 1].len
  }

  function Flatten(ps: seq<Packet>): seq<WireRecord> {
    if ps == [] then [] else Flatten(ps[..|ps| - 1]) + ps[|ps| - 1]
  }

  lemma {:induction false} PacketLenSnoc(p: Packet, r: WireRecord)
    ensures PacketLen(p + [r]) == PacketLen(p) + r.len
  {
    assert (p + [r])[..|p|] == p;
  }

  lemma {:induction false} FlattenSnoc(ps: seq<Packet>, p: Packet)
    ensures Flatten(ps + [p]) == Flatten(ps) + p
  {
    assert (ps + [p])[..|ps|] == ps;
  }

  /** dtls1_init_message and dtls1_finish_message: the length is known last and copied into the header. */
  method BuildMessage(typ: byte, seqNum: nat, body: seq<byte>) returns (data: Option<seq<byte>>)
    requires seqNum < U16_LIMIT
    ensures data.Some? <==> |body| < U24_LIMIT
    ensures data.Some? ==> data.value == Raw(Message(typ, seqNum, body))
  {
    if |body| >= U24_LIMIT {
      return None;
    }
    var draft := EncHeader(typ, 0, seqNum, 0, |body|) + body;
    var length := draft[HM_HEADER_LENGTH - 3..HM_HEADER_LENGTH];
    assert length == U24(|body|);
    var fixed := draft[..1] + length + draft[4..];
    assert fixed == Raw(Message(typ, seqNum, body));
    data := Some(fixed);
  }

  lemma {:induction false} PieceStep(msgs: seq<Outgoing>, pos: Pos, rec: WireRecord, m: Message, todo: nat)
    requires pos.written < |msgs| && !msgs[pos.written].isCcs && Stored(msgs[pos.written]) == Some(m)
    requires pos.offset + todo <= |m.body| && (todo > 0 || pos.offset == |m.body|) && WfMessage(m)
    requires rec.epoch == msgs[pos.written].epoch && rec.typ == RT_HANDSHAKE
    requires rec.plain == EncFragment(Slice(m, pos.offset, todo))
    ensures Step(msgs, pos, rec, Next(m, pos, todo))
  {
    hide Stored;
  }

  class Sender {
    const N: nat
    const mtu: nat
    const writer: RecordWriter
    var messages: seq<Outgoing>
    var written: nat
    var offset: nat
    /** The whole flight has been added. */
    var complete: bool
    var handshakeWriteSeq: nat
    var transcript: seq<byte>
    var writeShutdown: bool

    ghost function Position(): Pos
      reads this
    {
      Pos(written, offset)
    }

    ghost predicate Valid()
      reads this, writer
    {
      && writer.Valid()
      && |messages| <= N
      && handshakeWriteSeq < U16_LIMIT
      && PosOk(messages, Position())
    }

    constructor (flight: nat, mtu: nat, nullCipher: Aead)
      requires WfAead(nullCipher)
      ensures Valid() && fresh(writer) && N == flight && this.mtu == mtu && messages == [] && !complete
    {
      N, this.mtu := flight, mtu;
      writer := new RecordWriter(nullCipher);
      messages, written, offset, complete, handshakeWriteSeq, transcript := [], 0, 0, false, 0, [];
      writeShutdown := false;
    }

    /** add_outgoing: the first addition after a flush starts a new flight. */
    method AddOutgoing(isCcs: bool, data: seq<byte>) returns (ok: bool)
      requires Valid()
      modifies this
      ensures Valid()
      ensures var kept := if old(complete) then [] else old(messages);
              && (ok <==> |kept| < N && |data| <= MAX_DATA)
              && messages == kept + if ok then [Outgoing(data, writer.epoch, isCcs)] else []
      ensures Position() == if old(complete) then Pos(0, 0) else old(Position())
      ensures !complete
      ensures ok && !isCcs ==>
                transcript == old(transcript) + data && handshakeWriteSeq == (old(handshakeWriteSeq) + 1) % U16_LIMIT
      ensures !ok || isCcs ==> transcript == old(transcript) && handshakeWriteSeq == old(handshakeWriteSeq)
    {
      hide Stored;
      if complete {
        messages, written, offset, complete := [], 0, 0, false;
      }
      if |messages| >= N || |data| > MAX_DATA {
        return false;
      }
      if !isCcs {
        transcript := transcript + data;
        handshakeWriteSeq := (handshakeWriteSeq + 1) % U16_LIMIT;
      }
      messages := messages + [Outgoing(data, writer.epoch, isCcs)];
      ok := true;
    }

    /** dtls1_init_message, dtls1_finish_message and dtls1_add_message in turn. */
    method AddMessage(typ: byte, body: seq<byte>) returns (ok: bool)
      requires Valid()
      modifies this
      ensures Valid()
      ensures var kept := if old(complete) then [] else old(messages);
              && (ok <==> |kept| < N && |body| < U24_LIMIT)
              && (ok ==> |messages| == |kept| + 1 && kept <= messages)
      ensures ok ==> Stored(messages[|messages| - 1]) == Some(Message(typ, old(handshakeWriteSeq), body))
                     && transcript == old(transcript) + Raw(Message(typ, old(handshakeWriteSeq), body))
      ensures |body| >= U24_LIMIT ==> messages == old(messages) && Position() == old(Position())
    {
      hide Stored, EncFragment, PosOk, RecordWriter.Valid;
      var data := BuildMessage(typ, handshakeWriteSeq, body);
      if data == None {
        return false;
      }
      StoredRaw(Message(typ, handshakeWriteSeq, body), writer.epoch);
      ok := AddOutgoing(false, data.value);
    }

    /** The least room in which the next message makes progress. */
    function LeastRoom(o: Outgoing, previous: bool): nat
      reads this, writer
    {
      (if o.isCcs then 1 else HM_HEADER_LENGTH + 1) + writer.MaxSealOverhead(previous)
    }

    function NextRoom(): nat
      reads this, writer
      requires written < |messages|
    {
      LeastRoom(messages[written], UsesPrevious(messages[written]))
    }

    predicate UsesPrevious(o: Outgoing)
      reads this, writer
    {
      writer.epoch >= 1 && o.epoch == writer.epoch - 1
    }

    method SealChangeCipherSpec(maxOut: nat, previous: bool) returns (rec: Option<WireRecord>)
      requires Valid() && written < |messages| && messages[written].isCcs
      requires messages[written].epoch == if previous then writer.epoch - 1 else writer.epoch
      modifies writer
      ensures Valid() && writer.epoch == old(writer.epoch)
      ensures rec.Some? ==> rec.value.len <= maxOut && Step(messages, Position(), rec.value, Pos(written + 1, 0))
    {
      hide Run, PosOk, RecordWriter.Applies, Bump, WfAead;
      rec := writer.SealRecord(RT_CHANGE_CIPHER_SPEC, [1], maxOut, previous);
    }

    /** The next todo bytes of the message, assembled after the prefix and sealed in place. */
    method SealFragment(m: Message, todo: nat, maxOut: nat, previous: bool) returns (rec: Option<WireRecord>)
      requires Valid() && written < |messages| && !messages[written].isCcs && Stored(messages[written]) == Some(m)
      requires messages[written].epoch == if previous then writer.epoch - 1 else writer.epoch
      requires offset + todo <= |m.body| && (todo > 0 || offset == |m.body|)
      requires writer.SealPrefixLen(previous) + HM_HEADER_LENGTH + todo <= maxOut
      modifies writer
      ensures Valid() && writer.epoch == old(writer.epoch)
      ensures rec.Some? ==> && rec.value.len <= maxOut && |rec.value.plain| == HM_HEADER_LENGTH + todo
                            && Step(messages, Position(), rec.value, Next(m, Position(), todo))
    {
      hide Run, PosOk, RecordWriter.Applies, Bump, WfAead, Stored, EncFragment, Step;
      StoredIsWf(messages[written]);
      var frag := EncFragment(Slice(m, offset, todo));
      rec := writer.SealRecord(RT_HANDSHAKE, frag, maxOut, previous);
      if rec.Some? {
        PieceStep(messages, Position(), rec.value, m, todo);
      }
    }

    /** seal_next_message: the longest piece of the message that fits into maxOut bytes. */
    method SealNextMessage(maxOut: nat) returns (res: SealResult, rec: Option<WireRecord>)
      requires Valid() && written < |messages|
      modifies this`offset, writer
      ensures Valid() && writer.epoch == old(writer.epoch)
      ensures res == SealedPart || res == SealedAll <==> rec.Some?
      ensures res == NoProgress ==> maxOut < old(NextRoom())
      ensures rec.Some? ==> old(NextRoom()) <= maxOut && rec.value.len <= maxOut
      ensures rec.Some? && !messages[written].isCcs ==>
                && Stored(messages[written]).Some?
                && |rec.value.plain| - HM_HEADER_LENGTH ==
                   Min(|Stored(messages[written]).value.body| - old(offset), maxOut - old(NextRoom()) + 1)
      ensures res == SealedPart ==> Step(messages, old(Position()), rec.value, Position())
      ensures res == SealedAll ==> offset == 0 && Step(messages, old(Position()), rec.value, Pos(written + 1, 0))
      ensures rec == None ==> offset == old(offset)
    {
      hide Stored, Step, RecordWriter.Valid, RecordWriter.AeadOf;
      var o := messages[written];
      var previous := UsesPrevious(o);
      if !previous && o.epoch != writer.epoch {
        return SealError, None;
      }
      var overhead, prefix := writer.MaxSealOverhead(previous), writer.SealPrefixLen(previous);
      if o.isCcs {
        if maxOut < 1 + overhead {
          return NoProgress, None;
        }
        rec := SealChangeCipherSpec(maxOut, previous);
        return if rec.Some? then SealedAll else SealError, rec;
      }
      var stored := Stored(o);
      if stored == None || offset > |stored.value.body| {
        return SealError, None;
      }
      if maxOut < HM_HEADER_LENGTH + 1 + overhead || maxOut < prefix {
        return NoProgress, None;
      }
      var todo := Min(|stored.value.body| - offset, maxOut - HM_HEADER_LENGTH - overhead);
      rec := SealFragment(stored.value, todo, maxOut, previous);
      if rec == None {
        return SealError, None;
      }
      if offset + todo == |stored.value.body| {
        offset := 0;
        res := SealedAll;
      } else {
        offset := offset + todo;
        res := SealedPart;
      }
    }

    /**
     * seal_next_packet. Success or not, the position is behind the records that were sealed; a failed call
     * drops them all the same.
     */
    method SealNextPacket(maxOut: nat) returns (ok: bool, packet: Packet)
      requires Valid() && written < |messages|
      modifies this`offset, this`written, writer
      ensures Valid() && writer.epoch == old(writer.epoch)
      ensures PacketLen(packet) <= maxOut && (ok ==> packet != [])
      ensures Steps(messages, old(Position()), packet, Position())
    {
      hide Stored, Step, Steps, PosOk, RecordWriter.Valid;
      packet := [];
      var room := maxOut;
      StepsOfNone(messages, Position(), Position());
      while written < |messages|
        invariant Valid() && writer.epoch == old(writer.epoch)
        invariant room + PacketLen(packet) == maxOut
        invariant Steps(messages, old(Position()), packet, Position())
        invariant written <= |messages| && room >= 0
      {
        ghost var pos := Position();
        var res, rec := SealNextMessage(room);
        if res == SealError {
          return false, packet;
        }
        if res == NoProgress {
          break;
        }
        PacketLenSnoc(packet, rec.value);
        room := room - rec.value.len;
        ghost var next := if res == SealedPart then Position() else Pos(written + 1, 0);
        StepsSnoc(messages, old(Position()), packet, pos, rec.value, next);
        StepAdvances(messages, pos, rec.value, next);
        packet := packet + [rec.value];
        if res == SealedPart {
          break;
        }
        written := written + 1;
      }
      ok := packet != [];
    }

    /** Nothing but whole packets within the MTU was written, and they carry the flight from one position to the other. */
    ghost predicate Wrote(from: Pos, packets: seq<Packet>, to: Pos)
      reads this
    {
      && Steps(messages, from, Flatten(packets), to)
      && forall i :: 0 <= i < |packets| ==> packets[i] != [] && PacketLen(packets[i]) <= mtu
    }

    lemma {:induction false} WroteNothing(pos: Pos)
      ensures Wrote(pos, [], pos)
    {
    }

    /**
     * send_flight. bio gives the result of each BIO_write in turn; the packets it accepted are returned.
     * A refused write leaves the position after the last packet that was accepted. A failure of sealing itself
     * leaves it behind the records sealed since, which are lost.
     */
    method SendFlight(bio: nat -> int, flushed: bool)
      returns (r: FlightResult, packets: seq<Packet>, ghost reached: Pos, ghost lost: Packet)
      requires Valid()
      modifies this`offset, this`written, writer
      ensures Valid()
      ensures Wrote(old(Position()), packets, reached)
      ensures r == SealFailed ==> Steps(messages, reached, lost, Position())
      ensures r != SealFailed ==> Position() == reached && lost == []
      ensures r == Sent || r == FlushBlocked ==> reached == Pos(|messages|, 0)
      ensures r == Sent ==> flushed
      ensures r.WriteBlocked? ==> r.ret == bio(|packets|) <= 0
      ensures forall i: nat :: i < |packets| ==> bio(i) > 0
      ensures r == ShutDown <==> writeShutdown
      ensures r == ShutDown ==> packets == []
    {
      hide Stored, Step, Steps, RecordWriter.Valid, Flatten, PacketLen;
      packets, reached, lost := [], Position(), [];
      WroteNothing(Position());
      if writeShutdown {
        return ShutDown, packets, reached, lost;
      }
      while written < |messages|
        invariant Valid()
        invariant Wrote(old(Position()), packets, Position())
        invariant reached == Position() && lost == []
        invariant forall i: nat :: i < |packets| ==> bio(i) > 0
        decreases |messages| - written, BytesLeft()
      {
        var oldWritten, oldOffset := written, offset;
        var ok, packet := SealNextPacket(mtu);
        if !ok {
          return SealFailed, packets, reached, packet;
        }
        var ret := bio(|packets|);
        if ret <= 0 {
          written, offset := oldWritten, oldOffset;
          return WriteBlocked(ret), packets, reached, lost;
        }
        FlattenSnoc(packets, packet);
        StepsConcat(messages, old(Position()), Flatten(packets), reached, packet, Position());
        StepsAdvance(messages, reached, packet, Position());
        packets := packets + [packet];
        reached := Position();
      }
      r := if flushed then Sent else FlushBlocked;
    }

    ghost function BytesLeft(): nat
      reads this
    {
      if written < |messages| && Stored(messages[written]).Some? && offset <= |Stored(messages[written]).value.body| then
        |Stored(messages[written]).value.body| - offset
      else 0
    }

    /** dtls1_flush_flight */
    method FlushFlight(bio: nat -> int, flushed: bool)
      returns (r: FlightResult, packets: seq<Packet>, ghost reached: Pos, ghost lost: Packet)
      requires Valid()
      modifies this`offset, this`written, this`complete, writer
      ensures Valid() && complete
      ensures Wrote(old(Position()), packets, reached)
      ensures r == SealFailed ==> Steps(messages, reached, lost, Position())
      ensures r != SealFailed ==> Position() == reached && lost == []
      ensures r == Sent || r == FlushBlocked ==> reached == Pos(|messages|, 0)
    {
      complete := true;
      r, packets, reached, lost := SendFlight(bio, flushed);
    }

    /** dtls1_retransmit_outgoing_messages: the whole flight again, from its start. */
    method Retransmit(bio: nat -> int, flushed: bool)
      returns (r: FlightResult, packets: seq<Packet>, ghost reached: Pos, ghost lost: Packet)
      requires Valid()
      modifies this`offset, this`written, writer
      ensures Valid()
      ensures Wrote(Pos(0, 0), packets, reached)
      ensures r == SealFailed ==> Steps(messages, reached, lost, Position())
      ensures r != SealFailed ==> Position() == reached && lost == []
      ensures r == Sent || r == FlushBlocked ==> reached == Pos(|messages|, 0)
    {
      hide Stored;
      written, offset := 0, 0;
      r, packets, reached, lost := SendFlight(bio, flushed);
    }
  }

  function Min(a: int, b: int): int {
    if a < b then a else b
  }
}
