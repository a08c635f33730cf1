/** Exactly which bytes the 32-bit decoder accepts, whoever wrote them.

    An encoding can be longer than needed without limit. The bit position is kept in eight bits:
    after 37 groups it starts again below 32, and groups are or-ed into the result once more. */
module PbVarint32Any {
  import opened Bits
  import opened PbTypes
  import opened Prelude
  import opened PbVarint

  /** The bit position of group k. */
  function PosOf(k: nat): (p: nat)
    ensures p < 256
  {
    7 * k % 256
  }

  /** Group x at bit position pos sets bit i. */
  predicate Sets(x: byte, pos: nat, i: nat)
  {
    pos <= i < 32 && i - pos < 7 && Bit(x, i - pos)
  }

  /** One of the first k groups sets bit i. */
  predicate BitSet(b: seq<byte>, k: nat, i: nat)
    requires k <= |b|
  {
    exists j :: 0 <= j < k && Sets(b[j], PosOf(j), i)
  }

  /** A group that lies above the result is empty, or the sign extension of a result whose bit 31 is set. */
  predicate GroupFits(b: seq<byte>, k: nat)
    requires k < |b|
  {
    PosOf(k) >= 32 ==> b[k] % 128 == 0 || (BitSet(b, k, 31) && b[k] == if PosOf(k) < 63 then 0xFF else 0x01)
  }

  /** The encoding has n bytes; if the last one is at bit position 28, its upper bits are clear. */
  predicate Fits32(b: seq<byte>, n: nat)
    requires 1 <= n <= |b|
  {
    (forall k :: 1 <= k < n ==> GroupFits(b, k)) && (PosOf(n) == 35 ==> b[n - 1] % 128 < 16)
  }

  lemma {:induction false} TopBit(w: nat, n: nat)
    requires w < Pow2(n + 1)
    ensures Bit(w, n) <==> w >= Pow2(n)
  {
    if n > 0 {
      TopBit(w / 2, n - 1);
    }
  }

  lemma {:induction false} GroupBit(x: byte, i: nat)
    ensures Bit(x as int % 128, i) <==> i < 7 && Bit(x, i)
  {
    assert Pow2(7) == 128;
    BitOfMod(x, 7, i);
  }

  /** Or-ing a group in sets its bits below the 32nd. */
  lemma {:induction false} OrGroupBits(result: nat, x: byte, pos: nat, i: nat)
    requires i < 32
    ensures Bit(OrGroup(result, x, pos), i) <==> Bit(result, i) || Sets(x, pos, i)
  {
    hide Bit, BitOr;
    Pow2Is64();
    hide Pow2;
    var group: nat := x as int % 128;
    var shifted := group * Pow2(pos);
    BitOfMod(BitOr(result, shifted % TWO_32), 32, i);
    BitOfOr(result, shifted % TWO_32, i);
    BitOfMod(shifted, 32, i);
    BitOfShift(group, pos, i);
    if i >= pos {
      GroupBit(x, i - pos);
    }
  }

  /** The result so far holds exactly the bits set by the first k groups. */
  predicate Assembled(b: seq<byte>, k: nat, result: nat)
    requires k <= |b|
  {
    result < TWO_32 && forall i :: 0 <= i < 32 ==> (Bit(result, i) <==> BitSet(b, k, i))
  }

  lemma {:induction false} BitSetSnoc(b: seq<byte>, k: nat, i: nat)
    requires k < |b|
    ensures BitSet(b, k + 1, i) <==> BitSet(b, k, i) || Sets(b[k], PosOf(k), i)
  {
    hide Sets, PosOf;
  }

  lemma {:induction false} AssembledNext(b: seq<byte>, k: nat, result: nat)
    requires k < |b| && Assembled(b, k, result)
    ensures Assembled(b, k + 1, if PosOf(k) >= 32 then result else OrGroup(result, b[k], PosOf(k)))
  {
    hide Bit, OrGroup, BitSet;
    var next := if PosOf(k) >= 32 then result else OrGroup(result, b[k], PosOf(k));
    forall i | 0 <= i < 32 ensures Bit(next, i) <==> BitSet(b, k + 1, i) {
      BitSetSnoc(b, k, i);
      OrGroupBits(result, b[k], PosOf(k), i);
    }
  }

  lemma {:induction false} SignTest(b: seq<byte>, k: nat, result: nat)
    requires k < |b| && Assembled(b, k, result)
    ensures GroupFits(b, k) <==> !(PosOf(k) >= 32 && BadSignExtension(b[k], PosOf(k), result))
  {
    Pow2Is64();
    Pow2Step(31);
    hide Bit, Pow2, BitSet, PosOf;
    TopBit(result, 31);
    assert Bit(result, 31) <==> BitSet(b, k, 31);
  }

  lemma {:induction false} NextPos(k: nat)
    ensures PosOf(k + 1) == (PosOf(k) + 7) % 256
  {
    var q := 7 * k / 256;
    assert 7 * (k + 1) == PosOf(k) + 7 + q * 256;
    ModShift(PosOf(k) + 7, 256, q);
  }

  /** From group k on. */
  lemma {:induction false} Dec32FromExact(b: seq<byte>, k: nat, result: nat)
    requires k <= |b| && Assembled(b, k, result)
    ensures var d, n := Dec32From(b[k..], PosOf(k), result), VarintLen(b[k..]);
            d == Bad <==> n == None || !((forall j :: k <= j < k + n.value ==> GroupFits(b, j)) &&
                                         (PosOf(k + n.value) == 35 ==> b[k + n.value - 1] % 128 < 16))
    ensures var d, n := Dec32From(b[k..], PosOf(k), result), VarintLen(b[k..]);
            d.Good? ==> d.rest == b[k + n.value..] && Assembled(b, k + n.value, d.v)
    decreases |b| - k
  {
    hide Assembled, GroupFits, OrGroup, BadSignExtension, PosOf;
    if k < |b| {
      var next := if PosOf(k) >= 32 then result else OrGroup(result, b[k], PosOf(k));
      SignTest(b, k, result);
      AssembledNext(b, k, result);
      NextPos(k);
      AssembledBound(b, k, result);
      AssembledBound(b, k + 1, next);
      assert b[k..][0] == b[k] && b[k..][1..] == b[k + 1..];
      if b[k] >= 128 {
        Dec32FromExact(b, k + 1, next);
      }
    }
  }

  lemma {:induction false} AssembledBound(b: seq<byte>, k: nat, result: nat)
    requires k <= |b| && Assembled(b, k, result)
    ensures result < TWO_32
  {
  }

  lemma {:induction false} FirstGroup(b: seq<byte>)
    requires b != []
    ensures Assembled(b, 1, b[0] as int % 128)
  {
    hide Bit;
    forall i | 0 <= i < 32 ensures Bit(b[0] as int % 128, i) <==> BitSet(b, 1, i) {
      GroupBit(b[0], i);
      assert PosOf(0) == 0;
      assert BitSet(b, 1, i) <==> Sets(b[0], PosOf(0), i);
    }
  }

  /** The 32-bit decoder on any bytes: when it accepts, how much it reads, and each bit of its result. */
  lemma {:induction false} Dec32OnAnyBytes(b: seq<byte>)
    ensures Dec32(b).Good? <==> VarintLen(b).Some? && Fits32(b, VarintLen(b).value)
    ensures Dec32(b).Good? ==>
              && Dec32(b).rest == b[VarintLen(b).value..]
              && 0 <= Dec32(b).v < TWO_32
              && forall i :: 0 <= i < 32 ==> (Bit(Dec32(b).v, i) <==> BitSet(b, VarintLen(b).value, i))
  {
    hide Dec32From, GroupFits, BitSet, Bit;
    if b != [] {
      FirstGroup(b);
      if b[0] >= 128 {
        Dec32FromExact(b, 1, b[0] as int % 128);
        assert PosOf(1) == 7;
      }
    }
  }

  /** The group 1, n empty groups, and the last group 1. */
  function OverLong(n: nat): (b: seq<byte>)
    ensures |b| == n + 2
  {
    [0x81] + seq(n, _ => 0x80) + [1]
  }

  lemma {:induction false} PaddedLen(n: nat)
    ensures VarintLen(seq(n, _ => 0x80) + [1]) == Some(n + 1)
  {
    var b: seq<byte> := seq(n, _ => 0x80) + [1];
    if n > 0 {
      assert b[1..] == seq(n - 1, _ => 0x80) + [1];
      PaddedLen(n - 1);
    }
  }

  lemma {:induction false} OverLongFits()
    ensures VarintLen(OverLong(36)) == Some(38) && Fits32(OverLong(36), 38)
  {
    var b := OverLong(36);
    assert b[1..] == seq(36, _ => 0x80) + [1];
    PaddedLen(36);
    assert PosOf(37) == 3 && PosOf(38) == 10;
    hide BitSet, PosOf;
    forall k | 1 <= k < 38 ensures GroupFits(b, k) {
      assert k < 37 ==> b[k] == 0x80;
    }
  }

  /** The last of 38 groups is at bit position 3 again: 1 is read as 9. */
  lemma {:induction false} PositionWraps()
    ensures Dec32(OverLong(36)) == Good(9, [])
  {
    var b := OverLong(36);
    OverLongFits();
    hide Dec32, Fits32, VarintLen, Pow2, Bit, BitSet;
    Dec32OnAnyBytes(b);
    Pow2Is64();
    forall i | 0 <= i < 32 ensures Bit(Dec32(b).v, i) <==> Bit(9, i) {
      OverLongBits(i);
    }
    SameBits(Dec32(b).v, 9, 32);
  }

  lemma {:induction false} OverLongBits(i: nat)
    requires i < 32
    ensures BitSet(OverLong(36), 38, i) <==> Bit(9, i)
  {
    var b := OverLong(36);
    assert Bit(9, 0) && !Bit(9, 1) && !Bit(9, 2) && Bit(9, 3);
    assert PosOf(0) == 0 && PosOf(37) == 3;
    NoHighBits4(i);
    hide Bit, PosOf;
    forall j | 0 <= j < 38 ensures Sets(b[j], PosOf(j), i) <==> (j == 0 && i == 0) || (j == 37 && i == 3) {
      if PosOf(j) <= i {
        SmallGroups(i - PosOf(j));
      }
    }
    assert i == 0 ==> Sets(b[0], PosOf(0), i);
    assert i == 3 ==> Sets(b[37], PosOf(37), i);
  }

  lemma {:induction false} NoHighBits4(i: nat)
    ensures i >= 4 ==> !Bit(9, i)
  {
    assert Pow2(4) == 16;
    if i >= 4 {
      NoHighBits(9, 4, i);
    }
  }

  lemma {:induction false} SmallGroups(i: nat)
    ensures i < 7 ==> (Bit(0x81, i) <==> i == 0) && !Bit(0x80, i)
    ensures Bit(1, i) <==> i == 0
  {
    GroupBit(0x81, i);
    GroupBit(0x80, i);
    BitOfPow2(0, i);
    BitOfZero(i);
    assert Pow2(0) == 1;
  }
}
