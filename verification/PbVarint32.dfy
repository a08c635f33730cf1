/** Exactly which of the encoder's varints the 32-bit decoder accepts.

    It is meant for uint32 values and for negative int32 values sign-extended to 64 bits. It
    also lets through other values whose bits above the 31st pass its sign test group by group,
    and it never looks at bits 32 to 34 of a varint of six or more bytes. */
module PbVarint32 {
  import opened Bits
  import opened PbTypes
  import opened Prelude
  import opened PbVarint

  /** The values accepted: those below 2^32, and those with bits 31 and 63 set in which each of
      the four groups of bits 35-41, 42-48, 49-55 and 56-62 is all zeros or all ones. */
  predicate Accepted32(v: nat)
  {
    v < TWO_32 ||
    (v >= TWO_63 && v / TWO_31 % 2 == 1 && SignGroup(v / 0x8_0000_0000) && SignGroup(v / 0x400_0000_0000) &&
     SignGroup(v / 0x2_0000_0000_0000) && SignGroup(v / 0x100_0000_0000_0000))
  }

  predicate SignGroup(w: nat)
  {
    w % 128 == 0 || w % 128 == 127
  }

  /** The groups from bit 35+7j on, j <= 4, of a value below 2^64 pass the sign test. */
  predicate HighGroups(w: nat, j: nat)
    requires j <= 4
    decreases 4 - j
  {
    if j == 4 then true else w >= 128 && SignGroup(w) && HighGroups(w / 128, j + 1)
  }

  /** One byte of an encoding. */
  lemma {:induction false} EncVarintStep(w: nat, rest: seq<byte>)
    ensures (EncVarint(w) + rest)[0] == (if w <= 0x7F then w else w % 128 + 128)
    ensures (EncVarint(w) + rest)[1..] == if w <= 0x7F then rest else EncVarint(w / 128) + rest
  {
    hide EncVarint;
    if w > 0x7F {
      EncVarintUnfold(w);
      assert (EncVarint(w) + rest)[1..] == EncVarint(w / 128) + rest;
    } else {
      EncVarintUnfold(w);
      assert (EncVarint(w) + rest)[1..] == rest;
    }
  }

  lemma {:induction false} EncVarintUnfold(w: nat)
    ensures EncVarint(w) == if w <= 0x7F then [w] else [w % 128 + 128] + EncVarint(w / 128)
  {
  }

  lemma {:induction false} Dec32FromUnfold(b: seq<byte>, bitpos: nat, result: nat)
    requires bitpos < 249 && result < TWO_32 && b != []
    ensures Dec32From(b, bitpos, result) ==
            if bitpos >= 32 && BadSignExtension(b[0], bitpos, result) then Bad
            else
              var result' := if bitpos >= 32 then result else OrGroup(result, b[0], bitpos);
              if b[0] >= 128 then Dec32From(b[1..], bitpos + 7, result')
              else if bitpos == 28 && b[0] % 128 / 16 != 0 then Bad
              else Good(result', b[1..])
  {
    hide OrGroup, BadSignExtension;
  }

  /** One group at bit position 35, 42, 49 or 56: all zeros or a sign extension, and not the last. */
  lemma {:induction false} HighStep(w: nat, bitpos: nat, result: nat, rest: seq<byte>)
    requires 35 <= bitpos <= 56 && w >= 1 && result < TWO_32
    ensures Dec32From(EncVarint(w) + rest, bitpos, result) ==
            if w >= 128 && (w % 128 == 0 || (result >= TWO_31 && w % 128 == 127))
            then Dec32From(EncVarint(w / 128) + rest, bitpos + 7, result) else Bad
  {
    hide EncVarint, OrGroup, Dec32From;
    EncVarintStep(w, rest);
    Dec32FromUnfold(EncVarint(w) + rest, bitpos, result);
  }

  /** The groups at bit positions 35 and up of a value that has some. */
  lemma {:induction false} High(w: nat, j: nat, result: nat, rest: seq<byte>)
    requires j <= 4 && 1 <= w < Pow2(29 - 7 * j) && result < TWO_32
    ensures Dec32From(EncVarint(w) + rest, 35 + 7 * j, result) ==
            if result >= TWO_31 && HighGroups(w, j) then Good(result, rest) else Bad
    decreases 4 - j
  {
    if j == 4 {
      hide EncVarint, OrGroup;
      EncVarintStep(1, rest);
      assert Pow2(1) == 2;
    } else {
      hide Dec32From, EncVarint;
      HighStep(w, 35 + 7 * j, result, rest);
      if w >= 128 {
        Pow2Add(7, 22 - 7 * j);
        assert Pow2(7) == 128;
        High(w / 128, j + 1, result, rest);
      }
    }
  }

  /** Or-ing a group above the bits assembled so far adds it. */
  lemma {:induction false} OrGroupAdds(result: nat, x: byte, bitpos: nat, g: nat)
    requires bitpos < 32 && result < Pow2(bitpos)
    requires x as int % 128 * Pow2(bitpos) % TWO_32 == g * Pow2(bitpos)
    requires result + g * Pow2(bitpos) < TWO_32
    ensures OrGroup(result, x, bitpos) == result + g * Pow2(bitpos)
  {
    hide BitOr, Pow2;
    BitOrDisjoint(result, g, bitpos);
  }

  lemma {:induction false} SmallPowers()
    ensures Pow2(7) == 0x80 && Pow2(14) == 0x4000 && Pow2(21) == 0x20_0000 && Pow2(28) == 0x1000_0000
    ensures Pow2(1) == 2 && Pow2(8) == 0x100 && Pow2(15) == 0x8000 && Pow2(22) == 0x40_0000 && Pow2(29) == 0x2000_0000
  {
    Pow2Add(7, 7);
    Pow2Add(14, 7);
    Pow2Add(21, 7);
    Pow2Add(1, 7);
    Pow2Add(1, 14);
    Pow2Add(1, 21);
    Pow2Add(1, 28);
  }

  /** The low phase at bit positions 7, 14 and 21: w is the value still to come. */
  lemma {:induction false} Low7(w: nat, result: nat, rest: seq<byte>)
    requires result < 0x80
    ensures Dec32From(EncVarint(w) + rest, 7, result) ==
            if w < 128 then Good(result + w * 0x80, rest)
            else Dec32From(EncVarint(w / 128) + rest, 14, result + w % 128 * 0x80)
  {
    hide EncVarint, OrGroup, Pow2, Dec32From;
    EncVarintStep(w, rest);
    Dec32FromUnfold(EncVarint(w) + rest, 7, result);
    SmallPowers();
    OrGroupAdds(result, (EncVarint(w) + rest)[0], 7, w % 128);
  }

  lemma {:induction false} Low14(w: nat, result: nat, rest: seq<byte>)
    requires result < 0x4000
    ensures Dec32From(EncVarint(w) + rest, 14, result) ==
            if w < 128 then Good(result + w * 0x4000, rest)
            else Dec32From(EncVarint(w / 128) + rest, 21, result + w % 128 * 0x4000)
  {
    hide EncVarint, OrGroup, Pow2, Dec32From;
    EncVarintStep(w, rest);
    Dec32FromUnfold(EncVarint(w) + rest, 14, result);
    SmallPowers();
    OrGroupAdds(result, (EncVarint(w) + rest)[0], 14, w % 128);
  }

  lemma {:induction false} Low21(w: nat, result: nat, rest: seq<byte>)
    requires result < 0x20_0000
    ensures Dec32From(EncVarint(w) + rest, 21, result) ==
            if w < 128 then Good(result + w * 0x20_0000, rest)
            else Dec32From(EncVarint(w / 128) + rest, 28, result + w % 128 * 0x20_0000)
  {
    hide EncVarint, OrGroup, Pow2, Dec32From;
    EncVarintStep(w, rest);
    Dec32FromUnfold(EncVarint(w) + rest, 21, result);
    SmallPowers();
    OrGroupAdds(result, (EncVarint(w) + rest)[0], 21, w % 128);
  }

  /** Bit position 28: four bits of the group fit; three are dropped, and checked only if it is the last. */
  lemma {:induction false} Low28(w: nat, result: nat, rest: seq<byte>)
    requires result < 0x1000_0000
    ensures Dec32From(EncVarint(w) + rest, 28, result) ==
            if w < 16 then Good(result + w * 0x1000_0000, rest)
            else if w < 128 then Bad
            else Dec32From(EncVarint(w / 128) + rest, 35, result + w % 16 * 0x1000_0000)
  {
    hide EncVarint, OrGroup, Pow2, Dec32From;
    EncVarintStep(w, rest);
    Dec32FromUnfold(EncVarint(w) + rest, 28, result);
    SmallPowers();
    Mod28(w % 128);
    TopBits(w);
    OrGroupAdds(result, (EncVarint(w) + rest)[0], 28, w % 16);
  }

  lemma {:induction false} TopBits(w: nat)
    ensures w < 128 ==> (w % 128 / 16 != 0 <==> w >= 16)
    ensures w < 16 ==> w % 16 == w
    ensures w % 128 % 16 == w % 16
  {
  }

  lemma {:induction false} Mod28(g: nat)
    requires g < 128
    ensures g * 0x1000_0000 % TWO_32 == g % 16 * 0x1000_0000
  {
  }

  /** Exact acceptance of the 32-bit decoder on every encoding of a uint64, and its value. */
  lemma {:induction false} Dec32Exact(v: nat, rest: seq<byte>)
    requires v < TWO_64
    ensures Dec32(EncVarint(v) + rest) == if Accepted32(v) then Good(v % TWO_32, rest) else Bad
  {
    hide Dec32From, EncVarint, Dec32;
    if v < 0x1000_0000 {
      LowShort(v, rest);
    } else {
      LowLong(v, rest);
      if v >= 0x8_0000_0000 {
        SmallPowers();
        High(v / 0x8_0000_0000, 0, v % TWO_32, rest);
        HighGroupsMeaning(v);
      }
    }
  }

  lemma {:induction false} LowShort(v: nat, rest: seq<byte>)
    requires v < 0x1000_0000
    ensures Dec32(EncVarint(v) + rest) == Good(v, rest)
  {
    EncVarintStep(v, rest);
    hide Dec32From, EncVarint;
    if v >= 128 {
      var w1 := v / 128;
      Low7(w1, v % 128, rest);
      if w1 >= 128 {
        var w2 := w1 / 128;
        Low14(w2, v % 128 + w1 % 128 * 0x80, rest);
        if w2 >= 128 {
          Low21(w2 / 128, v % 128 + w1 % 128 * 0x80 + w2 % 128 * 0x4000, rest);
        }
      }
    }
  }

  lemma {:induction false} LowLong(v: nat, rest: seq<byte>)
    requires v >= 0x1000_0000
    ensures Dec32(EncVarint(v) + rest) ==
            if v < TWO_32 then Good(v, rest)
            else if v < 0x8_0000_0000 then Bad
            else Dec32From(EncVarint(v / 0x8_0000_0000) + rest, 35, v % TWO_32)
  {
    hide Dec32From, EncVarint;
    EncVarintStep(v, rest);
    var g0, w1 := v % 128, v / 128;
    var g1, w2 := w1 % 128, w1 / 128;
    var g2, w3 := w2 % 128, w2 / 128;
    var g3, w4 := w3 % 128, w3 / 128;
    var low := g0 + g1 * 0x80 + g2 * 0x4000 + g3 * 0x20_0000;
    Groups(v);
    Low7(w1, g0, rest);
    Low14(w2, g0 + g1 * 0x80, rest);
    Low21(w3, g0 + g1 * 0x80 + g2 * 0x4000, rest);
    Low28(w4, low, rest);
    SplitAt28(v, low, w4);
  }

  /** A number by its four lowest groups. */
  lemma {:induction false} Groups(v: nat)
    ensures v == v % 128 + v / 128 % 128 * 0x80 + v / 128 / 128 % 128 * 0x4000 + v / 128 / 128 / 128 % 128 * 0x20_0000
                 + v / 128 / 128 / 128 / 128 * 0x1000_0000
  {
  }

  lemma {:induction false} SplitAt28(v: nat, low: nat, w: nat)
    requires v == low + w * 0x1000_0000 && low < 0x1000_0000
    ensures v % TWO_32 == low + w % 16 * 0x1000_0000
    ensures v / 0x8_0000_0000 == w / 128
  {
  }

  lemma {:induction false} HighGroupsMeaning(v: nat)
    requires 0x8_0000_0000 <= v < TWO_64
    ensures (v % TWO_32 >= TWO_31 && HighGroups(v / 0x8_0000_0000, 0)) <==> Accepted32(v)
  {
    var h := v / 0x8_0000_0000;
    assert h / 128 == v / 0x400_0000_0000;
    assert h / 128 / 128 == v / 0x2_0000_0000_0000;
    assert h / 128 / 128 / 128 == v / 0x100_0000_0000_0000;
    var h3 := h / 128 / 128 / 128;
    assert v % TWO_32 >= TWO_31 <==> v / TWO_31 % 2 == 1;
    assert HighGroups(h, 0) <==>
           h >= 128 && SignGroup(h) && HighGroups(h / 128, 1);
    assert HighGroups(h / 128, 1) <==>
           h / 128 >= 128 && SignGroup(h / 128) && HighGroups(h / 128 / 128, 2);
    assert HighGroups(h / 128 / 128, 2) <==>
           h / 128 / 128 >= 128 && SignGroup(h / 128 / 128) && HighGroups(h3, 3);
    assert HighGroups(h3, 3) <==> h3 >= 128 && SignGroup(h3);
    assert h3 >= 128 <==> v >= TWO_63;
  }

  /** The uint32 values are exactly the accepted ones below 2^63, and decode to themselves. */
  lemma {:induction false} Dec32BelowTwo63(v: nat, rest: seq<byte>)
    requires v < TWO_63
    ensures v < TWO_32 ==> Dec32(EncVarint(v) + rest) == Good(v, rest)
    ensures v >= TWO_32 ==> Dec32(EncVarint(v) + rest) == Bad
  {
    hide Dec32, Dec32From, EncVarint;
    Dec32Exact(v, rest);
  }

  /** Every negative int32, sign-extended to 64 bits, decodes to its low 32 bits. */
  lemma {:induction false} Dec32SignExtended(n: int, rest: seq<byte>)
    requires -TWO_31 <= n < 0
    ensures Dec32(EncVarint(n + TWO_64) + rest) == Good(n + TWO_32, rest)
  {
    hide Dec32, Dec32From, EncVarint;
    var v := n + TWO_64;
    assert v / TWO_31 == 0x1_FFFF_FFFF;
    assert v / 0x8_0000_0000 == 0x1FFF_FFFF;
    assert v / 0x400_0000_0000 == 0x3F_FFFF;
    assert v / 0x2_0000_0000_0000 == 0x7FFF;
    assert v / 0x100_0000_0000_0000 == 0xFF;
    Dec32Exact(v, rest);
  }

  /** Acceptance is wider than uint32 and sign-extended int32: 2^63 + 2^31 reads as 2^31. */
  lemma {:induction false} Dec32AcceptsMore()
    ensures Dec32(EncVarint(TWO_63 + TWO_31)) == Good(TWO_31, [])
  {
    hide Dec32, Dec32From, EncVarint;
    Dec32Exact(TWO_63 + TWO_31, []);
    assert EncVarint(TWO_63 + TWO_31) + [] == EncVarint(TWO_63 + TWO_31);
  }
}
