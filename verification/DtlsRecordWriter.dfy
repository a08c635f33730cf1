/** dtls_seal_record and dtls1_set_write_state. The cipher is its lengths, and whether it accepts a record. */
module DtlsRecordWriter {
  import opened Prelude
  import opened DtlsRecordNumbers

  const RT_HEADER_LENGTH: nat := 13
  const CIPHERTEXT_LIMIT: nat := 0x1_0000

  const RT_CHANGE_CIPHER_SPEC: byte := 20
  const RT_HANDSHAKE: byte := 22

  /** Explicit nonce length, bound on the tag, tag length by plaintext length, success by record number. */
  datatype Aead = Aead(nonceLen: nat, maxTag: nat, tagLen: nat -> nat, accepts: nat -> bool)

  ghost predicate WfAead(a: Aead) {
    forall n: nat :: a.tagLen(n) <= a.maxTag
  }

  /** What a sealed record carries, and its length on the wire. */
  datatype WireRecord = WireRecord(typ: byte, epoch: nat, number: nat, plain: seq<byte>, len: nat)

  function CipherLen(a: Aead, n: nat): nat {
    a.nonceLen + n + a.tagLen(n)
  }

  class RecordWriter {
    var epoch: nat
    var writeSequence: nat
    var lastWriteSequence: nat
    var aead: Aead
    var lastAead: Aead
    /** The seals and state changes so far. */
    ghost var events: seq<Event>

    ghost predicate Valid()
      reads this
    {
      && WfAead(aead) && WfAead(lastAead)
      && epoch < EPOCH_LIMIT
      && Run(events).c == Counters(epoch, writeSequence, lastWriteSequence)
    }

    constructor (nullCipher: Aead)
      requires WfAead(nullCipher)
      ensures Valid() && epoch == 0 && events == [] && aead == nullCipher
    {
      epoch, writeSequence, lastWriteSequence := 0, 0, 0;
      aead, lastAead, events := nullCipher, nullCipher, [];
    }

    function AeadOf(previous: bool): Aead
      reads this
    {
      if previous then lastAead else aead
    }

    /** dtls_max_seal_overhead */
    function MaxSealOverhead(previous: bool): nat
      reads this
    {
      RT_HEADER_LENGTH + AeadOf(previous).nonceLen + AeadOf(previous).maxTag
    }

    /** dtls_seal_prefix_len */
    function SealPrefixLen(previous: bool): nat
      reads this
    {
      RT_HEADER_LENGTH + AeadOf(previous).nonceLen
    }

    function SequenceOf(previous: bool): nat
      reads this
    {
      if previous then lastWriteSequence else writeSequence
    }

    /** The cipher is applied: there is room, and it succeeds. */
    predicate Applies(previous: bool, n: nat, maxOut: nat)
      reads this
    {
      var a := AeadOf(previous);
      RT_HEADER_LENGTH + CipherLen(a, n) <= maxOut && a.accepts(SequenceOf(previous))
    }

    /** dtls_seal_record */
    method SealRecord(typ: byte, plain: seq<byte>, maxOut: nat, previous: bool) returns (rec: Option<WireRecord>)
      requires Valid() && (previous ==> epoch >= 1)
      modifies this`writeSequence, this`lastWriteSequence, this`events
      ensures Valid()
      ensures events == old(events) + if old(Applies(previous, |plain|, maxOut))
                                      then [if previous then SealPrevious else SealCurrent] else []
      ensures var a := old(AeadOf(previous));
              rec.Some? <==> && old(Applies(previous, |plain|, maxOut))
                             && Bump(old(SequenceOf(previous))) != 0
                             && CipherLen(a, |plain|) < CIPHERTEXT_LIMIT
      ensures var a := old(AeadOf(previous));
              events != old(events) <==>
                13 + a.nonceLen + |plain| + a.tagLen(|plain|) <= maxOut
                && a.accepts(if previous then old(lastWriteSequence) else old(writeSequence))
      ensures rec.Some? ==>
                && (epoch - if previous then 1 else 0, old(SequenceOf(previous))) == (rec.value.epoch, rec.value.number)
                && Run(events).log == Run(old(events)).log + [(rec.value.epoch, rec.value.number)]
                && rec.value.typ == typ && rec.value.plain == plain
                && rec.value.len == RT_HEADER_LENGTH + CipherLen(AeadOf(previous), |plain|) <= maxOut
    {
      hide WfAead;
      if maxOut < RT_HEADER_LENGTH {
        return None;
      }
      var cipher, number := AeadOf(previous), SequenceOf(previous);
      if CipherLen(cipher, |plain|) > maxOut - RT_HEADER_LENGTH || !cipher.accepts(number) {
        return None;
      }
      var next := Bump(number);
      ghost var e := if previous then SealPrevious else SealCurrent;
      assert (events + [e])[..|events|] == events;
      events := events + [e];
      if previous {
        lastWriteSequence := next;
      } else {
        writeSequence := next;
      }
      if next == 0 {
        return None;
      }
      var len := CipherLen(cipher, |plain|);
      if len >= CIPHERTEXT_LIMIT {
        return None;
      }
      rec := Some(WireRecord(typ, if previous then epoch - 1 else epoch, number, plain, RT_HEADER_LENGTH + len));
    }

    /** dtls1_set_write_state */
    method SetWriteState(cipher: Aead)
      requires Valid() && WfAead(cipher)
      modifies this
      ensures Valid() && events == old(events) + [ChangeState]
      ensures epoch == (old(epoch) + 1) % EPOCH_LIMIT
      ensures writeSequence == 0 && lastWriteSequence == old(writeSequence)
      ensures aead == cipher && lastAead == old(aead)
    {
      assert (events + [ChangeState])[..|events|] == events;
      epoch := (epoch + 1) % EPOCH_LIMIT;
      lastWriteSequence, writeSequence := writeSequence, 0;
      lastAead, aead := aead, cipher;
      events := events + [ChangeState];
    }
  }
}
