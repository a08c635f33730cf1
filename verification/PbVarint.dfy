/** Base-128 varints: the encoder, the 64-bit and the 32-bit decoder, zigzag, and the
    little-endian fixed-width values. */
module PbVarint {
  import opened Bits
  import opened PbTypes
  import opened Prelude

  // ----- encoding

  /** What pb_encode_varint writes. */
  function EncVarint(v: nat): (bs: seq<byte>)
    ensures |bs| >= 1
  {
    if v <= 0x7F then [v] else [v % 128 + 128] + EncVarint(v / 128)
  }

  /** pb_encode_svarint's mapping of int64 onto uint64. */
  function ZigZag(n: int): (z: int)
    requires -TWO_63 <= n < TWO_63
  {
    if n < 0 then TWO_64 - 1 - (2 * n) % TWO_64 else (2 * n) % TWO_64
  }

  function Le32(v: int): seq<byte>
  {
    [v % 256, v / 256 % 256, v / 0x1_0000 % 256, v / 0x100_0000 % 256]
  }

  function Le64(v: int): seq<byte>
  {
    Le32(v % TWO_32) + Le32(v / TWO_32)
  }

  // ----- decoding

  /** Number of bytes of the varint at the start of b, if it is complete. */
  function VarintLen(b: seq<byte>): (n: Option<nat>)
    ensures n.Some? ==> 1 <= n.value <= |b|
  {
    if b == [] then None
    else if b[0] < 128 then Some(1)
    else match VarintLen(b[1..])
      case None => None
      case Some(m) => Some(m + 1)
  }

  /** The 7-bit groups of b, least significant first. */
  function VarintValue(b: seq<byte>): nat
  {
    if b == [] then 0 else b[0] % 128 + 128 * VarintValue(b[1..])
  }

  /** pb_decode_varint: at most ten bytes, bits above the 64th are shifted out. */
  function DecVarint(b: seq<byte>): (d: Dec<int>)
    ensures d.Good? ==> 0 <= d.v < TWO_64 && |d.rest| < |b|
  {
    match VarintLen(b)
    case None => Bad
    case Some(n) => if n > 10 then Bad else Good(VarintValue(b[..n]) % TWO_64, b[n..])
  }

  /** pb_decode_varint32 after its first byte. `bitpos` is a uint_fast8_t of 8 bits. */
  function Dec32From(b: seq<byte>, bitpos: nat, result: nat): (d: Dec<int>)
    requires bitpos < 256 && result < TWO_32
    ensures d.Good? ==> 0 <= d.v < TWO_32 && |d.rest| < |b|
  {
    if b == [] then Bad
    else if bitpos >= 32 && BadSignExtension(b[0], bitpos, result) then Bad
    else
      var result' := if bitpos >= 32 then result else OrGroup(result, b[0], bitpos);
      var bitpos' := (bitpos + 7) % 256;
      if b[0] >= 128 then Dec32From(b[1..], bitpos', result')
      else if bitpos' == 35 && b[0] % 128 / 16 != 0 then Bad
      else Good(result', b[1..])
  }

  predicate BadSignExtension(x: byte, bitpos: nat, result: nat)
  {
    x % 128 != 0 && (result < TWO_31 || x != (if bitpos < 63 then 0xFF else 0x01))
  }

  /** result | (uint32_t)(x & 0x7F) << bitpos */
  function OrGroup(result: nat, x: byte, bitpos: nat): (r: nat)
    ensures r < TWO_32
  {
    var group: nat := x as int % 128;
    BitOr(result, group * Pow2(bitpos) % TWO_32) % TWO_32
  }

  /** pb_decode_varint32. */
  function Dec32(b: seq<byte>): (d: Dec<int>)
    ensures d.Good? ==> 0 <= d.v < TWO_32 && |d.rest| < |b|
  {
    if b == [] then Bad
    else if b[0] < 128 then Good(b[0], b[1..])
    else Dec32From(b[1..], 7, b[0] % 128)
  }

  /** pb_decode_svarint's mapping of uint64 onto int64. */
  function UnZigZag(z: int): int
    requires 0 <= z < TWO_64
  {
    if z % 2 == 1 then -(z / 2) - 1 else z / 2
  }

  function FromLe32(b: seq<byte>): int
    requires |b| == 4
  {
    var b0: int, b1: int, b2: int, b3: int := b[0], b[1], b[2], b[3];
    b0 + b1 * 256 + b2 * 0x1_0000 + b3 * 0x100_0000
  }

  function FromLe64(b: seq<byte>): int
    requires |b| == 8
  {
    FromLe32(b[..4]) + FromLe32(b[4..]) * TWO_32
  }

  function ToSigned(u: int, bits: nat): int
  {
    var m := u % Pow2(bits);
    if 2 * m >= Pow2(bits) then m - Pow2(bits) else m
  }

  // ----- the encoder and the decoders are inverse

  /** Encoding is minimal: k groups suffice exactly for the values below 128^k. */
  lemma {:induction false} EncVarintLen(v: nat, k: nat)
    requires k >= 1
    ensures |EncVarint(v)| <= k <==> v < Pow2(7 * k)
  {
    assert Pow2(7) == 128;
    if k == 1 {
      if v > 0x7F {
        assert |EncVarint(v / 128)| >= 1;
      }
    } else {
      Pow2Add(7, 7 * (k - 1));
      if v > 0x7F {
        EncVarintLen(v / 128, k - 1);
      } else {
        assert Pow2(7 * (k - 1)) >= 1;
      }
    }
  }

  lemma {:induction false} EncVarintShape(v: nat, rest: seq<byte>)
    ensures VarintLen(EncVarint(v) + rest) == Some(|EncVarint(v)|)
    ensures VarintValue(EncVarint(v)) == v
  {
    var e := EncVarint(v);
    if v <= 0x7F {
      assert (e + rest)[0] == v;
      assert e[1..] == [];
    } else {
      EncVarintShape(v / 128, rest);
      assert (e + rest)[1..] == EncVarint(v / 128) + rest;
      assert e[1..] == EncVarint(v / 128);
    }
  }

  /** The 64-bit decoder inverts the encoder on every uint64, whose encoding is at most ten bytes. */
  lemma {:induction false} VarintRoundTrip(v: nat, rest: seq<byte>)
    requires v < TWO_64
    ensures |EncVarint(v)| <= 10
    ensures DecVarint(EncVarint(v) + rest) == Good(v, rest)
  {
    hide EncVarint, VarintValue, VarintLen, Pow2;
    EncVarintShape(v, rest);
    Pow2Is70();
    EncVarintLen(v, 10);
    var e := EncVarint(v);
    assert (e + rest)[..|e|] == e;
    assert (e + rest)[|e|..] == rest;
  }

  lemma {:induction false} Pow2Is70()
    ensures Pow2(70) >= TWO_64
  {
    Pow2Add(64, 6);
    Pow2Is64();
  }

  lemma {:induction false} Pow2Is64()
    ensures Pow2(8) == 256 && Pow2(16) == 0x1_0000 && Pow2(32) == TWO_32 && Pow2(64) == TWO_64
  {
    assert Pow2(8) == 256;
    Pow2Add(8, 8);
    Pow2Add(16, 16);
    Pow2Add(32, 32);
  }

  lemma {:induction false} ZigZagRoundTrip(n: int)
    requires -TWO_63 <= n < TWO_63
    ensures 0 <= ZigZag(n) < TWO_64
    ensures UnZigZag(ZigZag(n)) == n
  {
    if n < 0 {
      if n == -TWO_63 {
        assert (2 * n) % TWO_64 == 0;
      } else {
        assert (2 * n) % TWO_64 == 2 * n + TWO_64;
      }
    }
  }

  lemma {:induction false} Le32RoundTrip(v: int)
    requires 0 <= v < TWO_32
    ensures FromLe32(Le32(v)) == v
  {
    assert v / 0x1_0000 == v / 256 / 256;
    assert v / 0x100_0000 == v / 256 / 256 / 256;
  }

  lemma {:induction false} Le64RoundTrip(v: int)
    requires 0 <= v < TWO_64
    ensures FromLe64(Le64(v)) == v
  {
    assert Le64(v)[..4] == Le32(v % TWO_32);
    assert Le64(v)[4..] == Le32(v / TWO_32);
    Le32RoundTrip(v / TWO_32);
    Le32RoundTrip(v % TWO_32);
  }
}
