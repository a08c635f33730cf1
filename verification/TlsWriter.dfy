/**
 * The TLS write path: records sealed into the pending flight or the write buffer, and
 * a transport that takes any part of what it is offered, or nothing.
 */
module TlsWriter {
  import opened Prelude

  const RT_CHANGE_CIPHER_SPEC: byte := 20
  const RT_HANDSHAKE: byte := 22
  const RT_APPLICATION_DATA: byte := 23
  const MAX_PLAIN_LENGTH: nat := 16384
  const MAX_BUFFER: nat := 0xffff

  /** The plaintext of a record. */
  datatype Plain = Plain(typ: byte, data: seq<byte>)

  /** What the records of one type carry, in the order of sealing. */
  function Carried(log: seq<Plain>, typ: byte): seq<byte> {
    if log == [] then []
    else Carried(log[..|log| - 1], typ) + if log[|log| - 1].typ == typ then log[|log| - 1].data else []
  }

  lemma {:induction false} CarriedSnoc(log: seq<Plain>, p: Plain, typ: byte)
    ensures Carried(log + [p], typ) == Carried(log, typ) + if p.typ == typ then p.data else []
  {
    assert (log + [p])[..|log|] == log;
  }

  function Min(a: nat, b: nat): nat {
    if a < b then a else b
  }

  /** A part of the middle stretch moves to the end of the first. */
  lemma {:induction false} MoveFront(w: seq<byte>, b: seq<byte>, f: seq<byte>, k: nat)
    requires k <= |b|
    ensures w + b + f == w + b[..k] + b[k..] + f
  {
  }

  /** A part of the last stretch moves to the end of the first when there is nothing between. */
  lemma {:induction false} MoveLast(w: seq<byte>, b: seq<byte>, f: seq<byte>, k: nat)
    requires k <= |f| && b == []
    ensures w + b + f == w + f[..k] + b + f[k..]
  {
  }

  lemma {:induction false} DropTwice(f: seq<byte>, o: nat, k: nat)
    requires o + k <= |f|
    ensures f[o..][k..] == f[o + k..]
  {
  }

  lemma {:induction false} Append(w: seq<byte>, b: seq<byte>, x: seq<byte>)
    ensures w + b + [] + x == w + (b + x) + []
    ensures w + b + x == w + b + ([] + x)
  {
  }

  lemma {:induction false} AppendLast(w: seq<byte>, b: seq<byte>, f: seq<byte>, x: seq<byte>)
    ensures w + b + f + x == w + b + (f + x)
  {
  }

  class Connection {
    const maxSendFragment: nat
    const maxSealOverhead: nat
    const partialWrite: bool          // SSL_MODE_ENABLE_PARTIAL_WRITE
    const movingBuffer: bool          // SSL_MODE_ACCEPT_MOVING_WRITE_BUFFER
    /** tls_seal_record on the n-th record; it may fail. */
    const seal: (nat, Plain) -> Option<seq<byte>>
    /** The result of the n-th BIO_write, before it is cut to what was offered. */
    const bio: nat -> int

    var writeBuffer: seq<byte>
    var pendingFlight: Option<seq<byte>>
    var pendingFlightOffset: nat
    var wnum: nat
    var wpendPending: bool
    var wpendTot: nat
    var wpendBuf: nat
    var wpendType: byte
    var wpendRet: nat
    var writeShutdown: bool
    var writes: nat
    /** write_sequence */
    var records: nat

    /** The sealed records, concatenated, and the bytes the transport has taken. */
    ghost var sealedBytes: seq<byte>
    ghost var wire: seq<byte>
    ghost var log: seq<Plain>

    constructor (fragment: nat, overhead: nat, partial: bool, moving: bool, seal: (nat, Plain) -> Option<seq<byte>>, bio: nat -> int)
      requires fragment > 0
      ensures Valid() && wnum == 0 && !wpendPending && log == [] && wire == []
      ensures maxSendFragment == fragment && partialWrite == partial
    {
      maxSendFragment, maxSealOverhead, partialWrite, movingBuffer := fragment, overhead, partial, moving;
      this.seal, this.bio := seal, bio;
      writeBuffer, pendingFlight, pendingFlightOffset, wnum := [], None, 0, 0;
      wpendPending, wpendTot, wpendBuf, wpendType, wpendRet := false, 0, 0, 0, 0;
      writeShutdown, writes, records := false, 0, 0;
      sealedBytes, wire, log := [], [], [];
    }

    ghost function FlightRest(): seq<byte>
      reads this`pendingFlight, this`pendingFlightOffset
    {
      if pendingFlight.Some? && pendingFlightOffset <= |pendingFlight.value| then pendingFlight.value[pendingFlightOffset..] else []
    }

    /** The wire has the sealed bytes in order, but for those still in the write buffer and then in the flight. */
    ghost predicate Valid()
      reads this
    {
      && maxSendFragment > 0
      && records == |log|
      && (pendingFlight == None ==> pendingFlightOffset == 0)
      && (pendingFlight.Some? ==> pendingFlightOffset <= |pendingFlight.value|)
      && (wpendPending ==> wpendRet == wpendTot > 0)
      && InOrder()
    }

    ghost predicate InOrder()
      reads this`sealedBytes, this`wire, this`writeBuffer, this`pendingFlight, this`pendingFlightOffset
    {
      sealedBytes == wire + writeBuffer + FlightRest()
    }

    /** What an application write reads and changes besides the stream. */
    ghost predicate SameAppState(wnum: nat, pending: bool, tot: nat, buf: nat, typ: byte, ret: nat)
      reads this
    {
      && this.wnum == wnum && wpendPending == pending && wpendTot == tot && wpendBuf == buf
      && wpendType == typ && wpendRet == ret
    }

    /** BIO_write: takes a prefix of the data, or nothing with a result that is not positive. */
    method BioWrite(data: seq<byte>) returns (ret: int)
      modifies this`writes, this`wire
      ensures writes == old(writes) + 1 && ret == (if bio(old(writes)) > |data| then |data| else bio(old(writes)))
      ensures wire == old(wire) + if ret > 0 then data[..ret] else []
    {
      ret := bio(writes);
      writes := writes + 1;
      if ret > |data| {
        ret := |data|;
      }
      if ret > 0 {
        wire := wire + data[..ret];
      }
    }

    /** ret is what the transport answered to the last of the writes since there had been `before` of them. */
    predicate LastRefused(before: nat, ret: int)
      reads this`writes
    {
      before < writes && ret == bio(writes - 1) <= 0
    }

    /** ssl_write_buffer_flush */
    method WriteBufferFlush() returns (ret: int)
      requires Valid()
      modifies this`writes, this`wire, this`writeBuffer
      ensures Valid() && writes >= old(writes)
      ensures if ret > 0 then writeBuffer == [] else LastRefused(old(writes), ret)
    {
      while writeBuffer != []
        invariant Valid() && writes >= old(writes)
        decreases |writeBuffer|
      {
        ghost var before, rest := wire, FlightRest();
        ret := BioWrite(writeBuffer);
        if ret <= 0 {
          return;
        }
        MoveFront(before, writeBuffer, rest, ret);
        writeBuffer := writeBuffer[ret..];
      }
      ret := 1;
    }

    /** tls_seal_record with enough room: the next sealed record. */
    ghost function Sealed(p: Plain): Option<seq<byte>>
      reads this
    {
      seal(|log|, p)
    }

    /** add_record_to_flight: never into a flight that is partly written. */
    method AddRecordToFlight(typ: byte, data: seq<byte>) returns (ok: bool)
      requires Valid() && pendingFlightOffset == 0
      modifies this`pendingFlight, this`records, this`sealedBytes, this`log
      ensures Valid()
      ensures ok <==> old(Sealed(Plain(typ, data))).Some?
      ensures log == if ok then old(log) + [Plain(typ, data)] else old(log)
      ensures ok ==> sealedBytes == old(sealedBytes) + old(Sealed(Plain(typ, data))).value
    {
      if pendingFlight == None {
        pendingFlight := Some([]);
      }
      var out := seal(records, Plain(typ, data));
      if out == None {
        return false;
      }
      assert pendingFlight.value[0..] == pendingFlight.value;
      AppendLast(wire, writeBuffer, pendingFlight.value, out.value);
      assert (pendingFlight.value + out.value)[0..] == pendingFlight.value + out.value;
      sealedBytes := sealedBytes + out.value;
      log, records := log + [Plain(typ, data)], records + 1;
      pendingFlight := Some(pendingFlight.value + out.value);
      ok := true;
    }

    /** ssl3_add_message: the records of a message carry exactly the message; an empty one still takes a record. */
    method AddMessage(msg: seq<byte>) returns (ok: bool)
      requires Valid() && pendingFlightOffset == 0
      modifies this`pendingFlight, this`records, this`sealedBytes, this`log
      ensures Valid() && old(log) <= log
      ensures ok ==> Carried(log, RT_HANDSHAKE) == Carried(old(log), RT_HANDSHAKE) + msg && |log| > |old(log)|
      ensures forall i :: |old(log)| <= i < |log| ==> log[i].typ == RT_HANDSHAKE && |log[i].data| <= maxSendFragment
      ensures Carried(log, RT_APPLICATION_DATA) == Carried(old(log), RT_APPLICATION_DATA)
    {
      hide InOrder, FlightRest, Carried;
      var rest := msg;
      ghost var done: seq<byte> := [];
      var first := true;
      while first || rest != []
        invariant Valid() && pendingFlightOffset == 0
        invariant old(log) <= log
        invariant first ==> log == old(log)
        invariant !first ==> |log| > |old(log)|
        invariant done + rest == msg
        invariant Carried(log, RT_HANDSHAKE) == Carried(old(log), RT_HANDSHAKE) + done
        invariant forall i :: |old(log)| <= i < |log| ==> log[i].typ == RT_HANDSHAKE && |log[i].data| <= maxSendFragment
        invariant Carried(log, RT_APPLICATION_DATA) == Carried(old(log), RT_APPLICATION_DATA)
        decreases first, |rest|
      {
        var size := Min(|rest|, maxSendFragment);
        var chunk := rest[..size];
        ghost var before := log;
        ok := AddRecordToFlight(RT_HANDSHAKE, chunk);
        if !ok {
          return;
        }
        CarriedSnoc(before, Plain(RT_HANDSHAKE, chunk), RT_HANDSHAKE);
        CarriedSnoc(before, Plain(RT_HANDSHAKE, chunk), RT_APPLICATION_DATA);
        assert Carried(old(log), RT_HANDSHAKE) + done + chunk == Carried(old(log), RT_HANDSHAKE) + (done + chunk);
        done := done + chunk;
        rest, first := rest[size..], false;
      }
      ok := true;
    }

    /** ssl3_add_change_cipher_spec */
    method AddChangeCipherSpec() returns (ok: bool)
      requires Valid() && pendingFlightOffset == 0
      modifies this`pendingFlight, this`records, this`sealedBytes, this`log
      ensures Valid()
      ensures log == if ok then old(log) + [Plain(RT_CHANGE_CIPHER_SPEC, [1])] else old(log)
    {
      ok := AddRecordToFlight(RT_CHANGE_CIPHER_SPEC, [1]);
    }

    /** One BIO_write of the flight. */
    method WriteFlightPart() returns (ret: int)
      requires Valid() && pendingFlight.Some? && writeBuffer == [] && pendingFlightOffset < |pendingFlight.value|
      modifies this`writes, this`wire, this`pendingFlightOffset
      ensures Valid()
      ensures pendingFlightOffset == old(pendingFlightOffset) + if ret > 0 then ret else 0
    {
      var rest := pendingFlight.value[pendingFlightOffset..];
      ghost var before := wire;
      ret := BioWrite(rest);
      if ret > 0 {
        MoveLast(before, writeBuffer, rest, ret);
        DropTwice(pendingFlight.value, pendingFlightOffset, ret);
        pendingFlightOffset := pendingFlightOffset + ret;
      }
    }

    /** The loop of ssl3_flush_flight. */
    method WriteFlight() returns (ret: int)
      requires Valid() && pendingFlight.Some? && writeBuffer == []
      modifies this`writes, this`wire, this`pendingFlightOffset
      ensures Valid()
      ensures ret > 0 ==> pendingFlightOffset == |pendingFlight.value|
    {
      hide InOrder;
      while pendingFlightOffset < |pendingFlight.value|
        invariant Valid()
        decreases |pendingFlight.value| - pendingFlightOffset
      {
        ret := WriteFlightPart();
        if ret <= 0 {
          return;
        }
      }
      ret := 1;
    }

    /** ssl3_flush_flight: the write buffer goes first; with result 1 everything sealed is on the wire. */
    method FlushFlight(bioFlush: int) returns (ret: int)
      requires Valid()
      modifies this`writes, this`wire, this`writeBuffer, this`pendingFlight, this`pendingFlightOffset
      ensures Valid()
      ensures ret > 0 && old(pendingFlight).Some? ==> pendingFlight == None && writeBuffer == [] && wire == sealedBytes
      ensures old(pendingFlight) == None ==> ret == 1 && wire == old(wire)
      ensures old(pendingFlight).Some? && writeShutdown ==> ret == -1 && wire == old(wire)
      ensures old(pendingFlight).Some? && bioFlush <= 0 ==> ret <= 0 && pendingFlight == old(pendingFlight)
    {
      if pendingFlight == None {
        return 1;
      }
      if writeShutdown {
        return -1;
      }
      if writeBuffer != [] {
        ret := WriteBufferFlush();
        if ret <= 0 {
          return;
        }
      }
      ret := WriteFlight();
      if ret <= 0 {
        return;
      }
      if bioFlush <= 0 {
        return -1;
      }
      assert FlightRest() == [];
      assert wire + [] + [] == wire;
      pendingFlight, pendingFlightOffset := None, 0;
      ret := 1;
    }

    /** The pending record may be continued with this buffer. */
    predicate GoodRetry(typ: byte, data: seq<byte>, addr: nat)
      reads this`wpendTot, this`wpendBuf, this`wpendType
    {
      wpendTot <= |data| && (movingBuffer || wpendBuf == addr) && wpendType == typ
    }

    function FlightLen(): int
      reads this`pendingFlight, this`pendingFlightOffset
    {
      if pendingFlight.Some? then |pendingFlight.value| - pendingFlightOffset else 0
    }

    /** A record of any fragment can be sealed now, or one is pending. */
    ghost predicate CanSeal()
      reads this
    {
      && (forall n: nat, p: Plain :: seal(n, p).Some?)
      && maxSendFragment <= MAX_PLAIN_LENGTH
      && maxSendFragment + maxSealOverhead + FlightLen() <= MAX_BUFFER
      && (wpendPending || writeBuffer == [])
    }

    /** ssl3_write_pending */
    method WritePending(typ: byte, data: seq<byte>, addr: nat) returns (ret: int)
      requires Valid() && wpendPending
      modifies this`writes, this`wire, this`writeBuffer, this`wpendPending
      ensures Valid()
      ensures ret > 0 ==> ret == wpendRet <= |data| && !wpendPending && writeBuffer == []
      ensures ret <= 0 ==> wpendPending
      ensures writes >= old(writes)
      ensures ret <= 0 && GoodRetry(typ, data, addr) ==> LastRefused(old(writes), ret)
      ensures wpendTot > |data| || (!movingBuffer && wpendBuf != addr) || wpendType != typ ==>
                ret == -1 && wire == old(wire) && writeBuffer == old(writeBuffer)
    {
      if wpendTot > |data| || (!movingBuffer && wpendBuf != addr) || wpendType != typ {
        return -1;
      }
      ret := WriteBufferFlush();
      if ret <= 0 {
        return;
      }
      wpendPending := false;
      ret := wpendRet;
    }

    /** The pending flight becomes a prefix of the write buffer, so that the next record follows it. */
    method AdoptFlight()
      requires Valid() && writeBuffer == []
      modifies this`writeBuffer, this`pendingFlight, this`pendingFlightOffset
      ensures Valid() && pendingFlight == None
    {
      if pendingFlight.Some? {
        writeBuffer := pendingFlight.value[pendingFlightOffset..];
        pendingFlight, pendingFlightOffset := None, 0;
      }
    }

    /** tls_seal_record behind what the write buffer holds. */
    method SealIntoBuffer(typ: byte, data: seq<byte>) returns (ok: bool)
      requires Valid() && pendingFlight == None
      modifies this`writeBuffer, this`records, this`sealedBytes, this`log
      ensures Valid()
      ensures ok <==> old(Sealed(Plain(typ, data))).Some?
      ensures log == if ok then old(log) + [Plain(typ, data)] else old(log)
    {
      var out := seal(records, Plain(typ, data));
      if out == None {
        return false;
      }
      Append(wire, writeBuffer, out.value);
      sealedBytes := sealedBytes + out.value;
      log, records := log + [Plain(typ, data)], records + 1;
      writeBuffer := writeBuffer + out.value;
      ok := true;
    }

    /** do_ssl3_write: finishes a pending record, or seals one record and starts to write it. */
    method DoWrite(typ: byte, data: seq<byte>, addr: nat) returns (ret: int)
      requires Valid()
      modifies this`writes, this`wire, this`writeBuffer, this`pendingFlight, this`pendingFlightOffset,
               this`wpendPending, this`wpendTot, this`wpendBuf, this`wpendType, this`wpendRet, this`records, this`sealedBytes, this`log
      ensures Valid()
      ensures old(wpendPending) ==> log == old(log)
                                    && SameAppState(old(wnum), wpendPending, old(wpendTot), old(wpendBuf), old(wpendType), old(wpendRet))
                                    && (if ret > 0 then ret == old(wpendRet) <= |data| && !wpendPending else wpendPending)
      ensures !old(wpendPending) ==>
                if log == old(log) then ret <= 0 && !wpendPending
                else && log == old(log) + [Plain(typ, data)]
                     && wpendTot == wpendRet == |data| && wpendBuf == addr && wpendType == typ
                     && (if ret > 0 then ret == |data| && !wpendPending else wpendPending)
      ensures writes >= old(writes)
      ensures ret <= 0 && wpendPending && (old(wpendPending) ==> old(GoodRetry(typ, data, addr))) ==> LastRefused(old(writes), ret)
      ensures old(CanSeal()) ==> CanSeal()
      ensures old(CanSeal()) && 0 < |data| <= maxSendFragment && ret <= 0 ==> wpendPending
      ensures log != old(log) ==> 0 < |data| <= 16384
      ensures old(wpendPending) && (old(wpendTot) > |data| || (!movingBuffer && old(wpendBuf) != addr) || old(wpendType) != typ) ==>
                ret == -1 && wire == old(wire)
    {
      hide InOrder, FlightRest;
      if wpendPending {
        ret := WritePending(typ, data, addr);
        return;
      }
      if |data| > MAX_PLAIN_LENGTH || writeBuffer != [] {
        return -1;
      }
      if data == [] {
        return 0;
      }
      if |data| + maxSealOverhead + FlightLen() > MAX_BUFFER {
        return -1;
      }
      ret := SealAndWrite(typ, data, addr);
    }

    /** The second half of do_ssl3_write: the flight goes in front, then the record, and both to the transport. */
    method SealAndWrite(typ: byte, data: seq<byte>, addr: nat) returns (ret: int)
      requires Valid() && !wpendPending && writeBuffer == [] && data != []
      modifies this`writes, this`wire, this`writeBuffer, this`pendingFlight, this`pendingFlightOffset,
               this`wpendPending, this`wpendTot, this`wpendBuf, this`wpendType, this`wpendRet, this`records, this`sealedBytes, this`log
      ensures Valid() && pendingFlight == None && writes >= old(writes)
      ensures if log == old(log) then old(Sealed(Plain(typ, data))) == None && ret == -1 && !wpendPending
              else && log == old(log) + [Plain(typ, data)]
                   && wpendTot == wpendRet == |data| && wpendBuf == addr && wpendType == typ
                   && if ret > 0 then ret == |data| && !wpendPending && writeBuffer == []
                      else wpendPending && LastRefused(old(writes), ret)
    {
      hide InOrder, FlightRest;
      AdoptFlight();
      var ok := SealIntoBuffer(typ, data);
      if !ok {
        return -1;
      }
      wpendTot, wpendBuf, wpendType, wpendRet, wpendPending := |data|, addr, typ, |data|, true;
      ret := WritePending(typ, data, addr);
    }

    /**
     * An application write of data at addr: the first tot bytes and the pending record have been sealed
     * since the application stream had length start.
     */
    ghost predicate Progress(data: seq<byte>, addr: nat, start: nat, tot: nat)
      reads this`log, this`wpendPending, this`wpendTot, this`wpendBuf, this`wpendType
    {
      var sent := tot + if wpendPending then wpendTot else 0;
      var app := Carried(log, RT_APPLICATION_DATA);
      && sent <= |data| && start <= |app|
      && app[start..] == data[..sent]
      && (wpendPending ==> wpendTot == Min(|data| - tot, maxSendFragment) && wpendBuf == addr + tot && wpendType == RT_APPLICATION_DATA)
    }

    /** The same between calls, where wnum remembers the count. */
    ghost predicate Attempt(data: seq<byte>, addr: nat, start: nat)
      reads this`log, this`wnum, this`wpendPending, this`wpendTot, this`wpendBuf, this`wpendType
    {
      Progress(data, addr, start, wnum)
    }

    /** A fresh write may be attempted whenever none is under way. */
    lemma {:induction false} FreshAttempt(data: seq<byte>, addr: nat)
      requires wnum == 0 && !wpendPending
      ensures Attempt(data, addr, |Carried(log, RT_APPLICATION_DATA)|)
    {
    }

    /** Handshake records sealed between two attempts do not disturb the write. */
    twostate lemma {:induction false} AttemptKept(data: seq<byte>, addr: nat, start: nat)
      requires old(Attempt(data, addr, start))
      requires Carried(log, RT_APPLICATION_DATA) == Carried(old(log), RT_APPLICATION_DATA)
      requires unchanged(this`wnum, this`wpendPending, this`wpendTot, this`wpendBuf, this`wpendType)
      ensures Attempt(data, addr, start)
    {
      hide Carried;
    }

    /**
     * ssl3_write_app_data, without early data. A result that is not positive leaves an attempt that can be
     * retried with the same buffer; a positive one says how much of the buffer has been sealed, exactly once.
     */
    method WriteAppData(data: seq<byte>, addr: nat, ghost start: nat) returns (ret: int)
      requires Valid()
      modifies this
      ensures Valid() && writeShutdown == old(writeShutdown) && writes >= old(writes)
      ensures ret > 0 ==> ret <= |data| && (partialWrite || ret == |data|) && wnum == 0 && !wpendPending
      ensures old(Attempt(data, addr, start)) && ret <= 0 ==> Attempt(data, addr, start)
      ensures old(Attempt(data, addr, start)) && ret > 0 ==>
                && start <= |Carried(log, RT_APPLICATION_DATA)|
                && Carried(log, RT_APPLICATION_DATA)[start..] == data[..ret]
      ensures writeShutdown ==> ret == -1 && log == old(log) && wire == old(wire) && wnum == old(wnum)
      ensures !writeShutdown && |data| < old(wnum) ==> ret == -1 && log == old(log)
      ensures old(Attempt(data, addr, start)) && !writeShutdown && ret <= 0 && wpendPending ==> LastRefused(old(writes), ret)
      ensures old(Attempt(data, addr, start) && CanSeal()) && !writeShutdown && old(wnum) < |data| ==>
                CanSeal() && (ret <= 0 ==> wpendPending && wnum < |data|)
      ensures old(log) <= log
      ensures forall i :: |old(log)| <= i < |log| ==>
                log[i].typ == RT_APPLICATION_DATA && 0 < |log[i].data| <= maxSendFragment && |log[i].data| <= 16384
      ensures Carried(old(log), RT_APPLICATION_DATA) <= Carried(log, RT_APPLICATION_DATA)
    {
      hide InOrder, FlightRest, Carried;
      if writeShutdown {
        return -1;
      }
      var tot := wnum;
      wnum := 0;
      if |data| < tot {
        return -1;
      }
      var n := |data| - tot;
      while true
        invariant Valid() && writeShutdown == old(writeShutdown)
        invariant tot + n == |data| && n >= 0 && wnum == 0
        invariant old(Attempt(data, addr, start)) ==> Progress(data, addr, start, tot)
        invariant writes >= old(writes)
        invariant old(CanSeal() && wnum < |data|) ==> CanSeal() && n > 0
        invariant old(log) <= log
        invariant forall i :: |old(log)| <= i < |log| ==>
                    log[i].typ == RT_APPLICATION_DATA && 0 < |log[i].data| <= maxSendFragment && |log[i].data| <= 16384
        invariant Carried(old(log), RT_APPLICATION_DATA) <= Carried(log, RT_APPLICATION_DATA)
        decreases n
      {
        ret := WriteChunk(data, addr, tot, start);
        if ret <= 0 {
          wnum := tot;
          return;
        }
        if ret == n || partialWrite {
          ret := tot + ret;
          return;
        }
        n := n - ret;
        tot := tot + ret;
      }
    }

    /** One turn of the loop: the next fragment is sealed unless it is pending already. */
    method WriteChunk(data: seq<byte>, addr: nat, tot: nat, ghost start: nat) returns (ret: int)
      requires Valid() && tot <= |data|
      modifies this`writes, this`wire, this`writeBuffer, this`pendingFlight, this`pendingFlightOffset,
               this`wpendPending, this`wpendTot, this`wpendBuf, this`wpendType, this`wpendRet, this`records, this`sealedBytes, this`log
      ensures Valid()
      ensures ret > 0 ==> ret <= |data| - tot && !wpendPending
      ensures writes >= old(writes)
      ensures old(Progress(data, addr, start, tot)) && ret <= 0 && wpendPending ==> LastRefused(old(writes), ret)
      ensures old(CanSeal()) ==> CanSeal()
      ensures old(CanSeal()) && tot < |data| && ret <= 0 ==> wpendPending
      ensures old(Progress(data, addr, start, tot)) ==> Progress(data, addr, start, if ret > 0 then tot + ret else tot)
      ensures old(log) <= log
      ensures forall i :: |old(log)| <= i < |log| ==>
                log[i].typ == RT_APPLICATION_DATA && 0 < |log[i].data| <= maxSendFragment && |log[i].data| <= 16384
      ensures Carried(old(log), RT_APPLICATION_DATA) <= Carried(log, RT_APPLICATION_DATA)
    {
      hide InOrder, FlightRest, Carried;
      var nw := Min(|data| - tot, maxSendFragment);
      var chunk := data[tot..tot + nw];
      ghost var app := Carried(log, RT_APPLICATION_DATA);
      ret := DoWrite(RT_APPLICATION_DATA, chunk, addr + tot);
      CarriedSnoc(old(log), Plain(RT_APPLICATION_DATA, chunk), RT_APPLICATION_DATA);
      if log != old(log) && old(Progress(data, addr, start, tot)) {
        assert (app + chunk)[start..] == app[start..] + chunk;
        assert data[..tot] + chunk == data[..tot + nw];
      }
    }

    /**
     * The caller's part: the same buffer is offered up to `tries` times, until the result is positive. Then
     * the records sealed since carry exactly what the result says. Otherwise, if sealing cannot fail, the
     * transport refused each time.
     */
    method WriteRetrying(data: seq<byte>, addr: nat, tries: nat) returns (ret: int)
      requires Valid() && wnum == 0 && !wpendPending && !writeShutdown
      modifies this
      ensures Valid() && !writeShutdown
      ensures ret > 0 ==> ret <= |data| && (partialWrite || ret == |data|) && wnum == 0 && !wpendPending
      ensures ret > 0 ==> Carried(log, RT_APPLICATION_DATA) == Carried(old(log), RT_APPLICATION_DATA) + data[..ret]
      ensures old(CanSeal()) && data != [] && ret <= 0 && tries > 0 ==> wpendPending && LastRefused(old(writes), ret)
    {
      hide InOrder, FlightRest, Carried;
      ghost var start := |Carried(log, RT_APPLICATION_DATA)|;
      FreshAttempt(data, addr);
      ret := 0;
      var i := 0;
      while i < tries && ret <= 0
        invariant Valid() && !writeShutdown && writes >= old(writes)
        invariant ret <= 0 ==> Attempt(data, addr, start)
        invariant ret > 0 ==> ret <= |data| && (partialWrite || ret == |data|) && wnum == 0 && !wpendPending
        invariant ret > 0 ==> start <= |Carried(log, RT_APPLICATION_DATA)| && Carried(log, RT_APPLICATION_DATA)[start..] == data[..ret]
        invariant Carried(old(log), RT_APPLICATION_DATA) <= Carried(log, RT_APPLICATION_DATA)
        invariant old(CanSeal()) && data != [] && ret <= 0 ==> CanSeal() && wnum < |data|
        invariant old(CanSeal()) && data != [] && ret <= 0 && i > 0 ==> wpendPending && LastRefused(old(writes), ret)
      {
        ret := WriteAppData(data, addr, start);
        i := i + 1;
      }
    }
  }
}
