/**
 * DTLS handshake messages and their fragments (RFC 6347, section 4.2.2):
 * the twelve-byte header, and the single-fragment form in which both ends
 * store a whole message.
 */
module DtlsMessages {
  import opened Prelude
  import opened Bits

  const HM_HEADER_LENGTH: nat := 12
  const U16_LIMIT: nat := 0x1_0000
  const U24_LIMIT: nat := 0x100_0000

  /** A handshake message: what the two ends agree on. */
  datatype Message = Message(typ: byte, seqNum: nat, body: seq<byte>)

  predicate WfMessage(m: Message) {
    m.seqNum < U16_LIMIT && |m.body| < U24_LIMIT
  }

  /** One fragment: header fields and the frag_len bytes that follow. */
  datatype Fragment = Fragment(typ: byte, msgLen: nat, seqNum: nat, off: nat, body: seq<byte>)

  predicate WfFragment(f: Fragment) {
    f.msgLen < U24_LIMIT && f.seqNum < U16_LIMIT && f.off < U24_LIMIT && |f.body| < U24_LIMIT
  }

  function U16(v: nat): (b: seq<byte>)
    requires v < U16_LIMIT
    ensures |b| == 2
  {
    [v / 0x100, v % 0x100]
  }

  function U24(v: nat): (b: seq<byte>)
    requires v < U24_LIMIT
    ensures |b| == 3
  {
    [v / 0x1_0000, v / 0x100 % 0x100, v % 0x100]
  }

  function U16At(b: seq<byte>, i: nat): (v: nat)
    requires i + 2 <= |b|
    ensures v < U16_LIMIT
  {
    b[i] as int * 0x100 + b[i + 1] as int
  }

  function U24At(b: seq<byte>, i: nat): (v: nat)
    requires i + 3 <= |b|
    ensures v < U24_LIMIT
  {
    b[i] as int * 0x1_0000 + b[i + 1] as int * 0x100 + b[i + 2] as int
  }

  function EncHeader(typ: byte, msgLen: nat, seqNum: nat, off: nat, fragLen: nat): (b: seq<byte>)
    requires msgLen < U24_LIMIT && seqNum < U16_LIMIT && off < U24_LIMIT && fragLen < U24_LIMIT
    ensures |b| == HM_HEADER_LENGTH
  {
    [typ] + U24(msgLen) + U16(seqNum) + U24(off) + U24(fragLen)
  }

  function EncFragment(f: Fragment): (b: seq<byte>)
    requires WfFragment(f)
    ensures |b| == HM_HEADER_LENGTH + |f.body|
  {
    EncHeader(f.typ, f.msgLen, f.seqNum, f.off, |f.body|) + f.body
  }

  /** dtls1_parse_fragment */
  function ParseFragment(cbs: seq<byte>): Dec<Fragment> {
    if |cbs| < HM_HEADER_LENGTH || |cbs| - HM_HEADER_LENGTH < U24At(cbs, 9) then Bad
    else
      var end := HM_HEADER_LENGTH + U24At(cbs, 9);
      Good(Fragment(cbs[0], U24At(cbs, 1), U16At(cbs, 4), U24At(cbs, 6), cbs[HM_HEADER_LENGTH..end]), cbs[end..])
  }

  /** The whole message as one fragment. */
  function Whole(m: Message): Fragment {
    Fragment(m.typ, |m.body|, m.seqNum, 0, m.body)
  }

  /** The stored form of a message: the bytes the transcript hashes on both ends. */
  function Raw(m: Message): seq<byte>
    requires WfMessage(m)
  {
    EncFragment(Whole(m))
  }

  lemma {:induction false} HeaderFields(typ: byte, msgLen: nat, seqNum: nat, off: nat, fragLen: nat, rest: seq<byte>)
    requires msgLen < U24_LIMIT && seqNum < U16_LIMIT && off < U24_LIMIT && fragLen < U24_LIMIT
    ensures var b := EncHeader(typ, msgLen, seqNum, off, fragLen) + rest;
            b[0] == typ && U24At(b, 1) == msgLen && U16At(b, 4) == seqNum && U24At(b, 6) == off && U24At(b, 9) == fragLen
  {
    var h := EncHeader(typ, msgLen, seqNum, off, fragLen);
    var b := h + rest;
    assert b[1] == h[1] && b[2] == h[2] && b[3] == h[3] && b[4] == h[4] && b[5] == h[5] && b[6] == h[6];
    assert b[7] == h[7] && b[8] == h[8] && b[9] == h[9] && b[10] == h[10] && b[11] == h[11];
  }

  lemma {:induction false} FragmentRoundTrip(f: Fragment, rest: seq<byte>)
    requires WfFragment(f)
    ensures ParseFragment(EncFragment(f) + rest) == Good(f, rest)
  {
    var cbs := EncFragment(f) + rest;
    assert cbs == EncHeader(f.typ, f.msgLen, f.seqNum, f.off, |f.body|) + (f.body + rest);
    HeaderFields(f.typ, f.msgLen, f.seqNum, f.off, |f.body|, f.body + rest);
    var end := HM_HEADER_LENGTH + |f.body|;
    assert cbs[HM_HEADER_LENGTH..end] == f.body && cbs[end..] == rest;
  }

  /** The other direction: what parses is what its fragment encodes, followed by the rest. */
  lemma {:induction false} ParsedIsEncoded(cbs: seq<byte>)
    requires ParseFragment(cbs).Good?
    ensures var p := ParseFragment(cbs); WfFragment(p.v) && cbs == EncFragment(p.v) + p.rest
  {
    var p := ParseFragment(cbs);
    var h := EncHeader(p.v.typ, p.v.msgLen, p.v.seqNum, p.v.off, |p.v.body|);
    U24Inverse(cbs, 1);
    U24Inverse(cbs, 6);
    U24Inverse(cbs, 9);
    U16Inverse(cbs, 4);
    assert cbs[..HM_HEADER_LENGTH] == h;
    assert cbs == h + p.v.body + p.rest;
  }

  lemma {:induction false} U24Inverse(b: seq<byte>, i: nat)
    requires i + 3 <= |b|
    ensures U24(U24At(b, i)) == b[i..i + 3]
  {
    var v := U24At(b, i);
    var x: int, y: int, z: int := b[i], b[i + 1], b[i + 2];
    ModUnique(v, 0x1_0000, x, y * 0x100 + z);
    ModUnique(v, 0x100, x * 0x100 + y, z);
    ModUnique(x * 0x100 + y, 0x100, x, y);
  }

  lemma {:induction false} U16Inverse(b: seq<byte>, i: nat)
    requires i + 2 <= |b|
    ensures U16(U16At(b, i)) == b[i..i + 2]
  {
  }

  /** The header, byte by byte: type, length, sequence number, offset and fragment length, big-endian. */
  lemma {:induction false} KnownFragment(typ: byte, x: byte, rest: seq<byte>)
    ensures EncFragment(Fragment(typ, 0x010203, 0x0405, 0x060708, [x])) == [typ, 1, 2, 3, 4, 5, 6, 7, 8, 0, 0, 1, x]
    ensures ParseFragment([typ, 1, 2, 3, 4, 5, 6, 7, 8, 0, 0, 1, x] + rest) ==
            Good(Fragment(typ, 0x010203, 0x0405, 0x060708, [x]), rest)
  {
    var f := Fragment(typ, 0x010203, 0x0405, 0x060708, [x]);
    assert EncFragment(f) == [typ, 1, 2, 3, 4, 5, 6, 7, 8, 0, 0, 1, x];
    FragmentRoundTrip(f, rest);
  }
}
