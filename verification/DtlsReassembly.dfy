/** Reassembly of one handshake message in place: the data buffer and its bitmap of received bytes. */
module DtlsReassembly {
  import opened Prelude
  import opened Bits
  import opened DtlsMessages
  import opened DtlsReceive

  /** bit_range: ~((1 << start) - 1) & ((1 << end) - 1) on 32 bits, cut to a byte. */
  function BitRange(start: nat, end: nat): byte
    requires start <= 32
  {
    Pow2Monotone(start, 32);
    BitAnd(Pow2(32) - 1 - (Pow2(start) - 1), Pow2(end) - 1) % 256
  }

  lemma {:induction false} BitOfRange(start: nat, end: nat, i: nat)
    requires start <= 8 && end <= 8
    ensures Bit(BitRange(start, end), i) <==> start <= i < end
  {
    hide Bit, Pow2, BitAnd;
    Pow2Monotone(start, 32);
    var low := Pow2(32) - 1 - (Pow2(start) - 1);
    Pow2Is256();
    BitOfMod(BitAnd(low, Pow2(end) - 1), 8, i);
    BitOfAnd(low, Pow2(end) - 1, i);
    BitOfOnes(end, i);
    if i < 32 {
      BitOfNot(Pow2(start) - 1, 32, i);
      BitOfOnes(start, i);
    }
  }

  /** Bit k of the bitmap. */
  predicate Marked(re: seq<byte>, k: nat) {
    k / 8 < |re| && Bit(re[k / 8], k % 8)
  }

  lemma {:induction false} NothingMarked(re: seq<byte>)
    requires forall i: nat :: i < |re| ==> re[i] == 0
    ensures forall k: nat :: k < 8 * |re| ==> !Marked(re, k)
  {
    forall k: nat | k < 8 * |re| ensures !Marked(re, k) {
      BitOfZero(k % 8);
    }
  }

  lemma {:induction false} ByteIsWord(b: byte)
    ensures b < Pow2(8)
  {
  }

  predicate LowBitsSet(b: byte, n: nat) {
    forall i: nat :: i < n ==> Bit(b, i)
  }

  lemma {:induction false} AllOnes(b: byte)
    ensures b == 0xff <==> LowBitsSet(b, 8)
  {
    PrefixOnes(b, 8);
    assert Pow2(8) - 1 == 0xff;
  }

  /** A byte whose high bits are clear is bit_range(0, n) exactly when its n low bits are set. */
  lemma {:induction false} PrefixOnes(b: byte, n: nat)
    requires n <= 8
    requires forall i: nat :: n <= i < 8 ==> !Bit(b, i)
    ensures b == Pow2(n) - 1 <==> LowBitsSet(b, n)
  {
    hide Pow2;
    ByteIsWord(b);
    Pow2Monotone(n, 8);
    var ones := Pow2(n) - 1;
    forall i: nat | i < 8 ensures Bit(ones, i) <==> i < n {
      BitOfOnes(n, i);
    }
    if LowBitsSet(b, n) {
      SameBits(b, ones, 8);
    } else {
      var i: nat :| i < n && !Bit(b, i);
      assert Bit(ones, i);
    }
  }

  lemma {:induction false} RangeIsOnes(n: nat)
    requires n <= 8
    ensures BitRange(0, n) == Pow2(n) - 1
  {
    hide Bit, Pow2, BitRange;
    var r := BitRange(0, n);
    forall i: nat | i < 8 ensures Bit(r, i) <==> i < n {
      BitOfRange(0, n, i);
    }
    PrefixOnes(r, n);
  }

  /** re[j] |= bit_range(lo, hi) */
  method OrRange(re: array<byte>, j: nat, lo: nat, hi: nat)
    requires j < re.Length && lo <= 8 && hi <= 8
    modifies re
    ensures forall i: nat :: i < re.Length && i != j ==> re[i] == old(re[i])
    ensures forall i: nat :: i < 8 ==> (Bit(re[j], i) <==> old(Bit(re[j], i)) || lo <= i < hi)
  {
    hide Bit, Pow2, BitOr, BitRange;
    var w := BitOr(re[j], BitRange(lo, hi));
    assert w < 256 by {
      ByteIsWord(re[j]);
      ByteIsWord(BitRange(lo, hi));
      OrBound(re[j], BitRange(lo, hi), 8);
      Pow2Is256();
    }
    forall i: nat | i < 8 ensures Bit(w, i) <==> Bit(re[j], i) || lo <= i < hi {
      BitOfOr(re[j], BitRange(lo, hi), i);
      BitOfRange(lo, hi, i);
    }
    re[j] := w;
  }

  lemma {:induction false} InRange(k: nat, start: nat, end: nat)
    ensures start <= k < end <==>
            && (start / 8 < k / 8 || (start / 8 == k / 8 && start % 8 <= k % 8))
            && (k / 8 < end / 8 || (k / 8 == end / 8 && k % 8 < end % 8))
  {
  }

  /** The marking half of dtls1_hm_fragment_mark. */
  method MarkRange(re: array<byte>, start: nat, end: nat)
    requires start <= end <= 8 * re.Length
    modifies re
    ensures forall k: nat :: k < 8 * re.Length ==> (Marked(re[..], k) <==> old(Marked(re[..], k)) || start <= k < end)
  {
    hide BitRange;
    if start == end {
      return;
    }
    ghost var was := re[..];
    var first, last := start / 8, end / 8;
    if first == last {
      OrRange(re, first, start % 8, end % 8);
    } else {
      OrRange(re, first, start % 8, 8);
      var i := first + 1;
      while i < last
        invariant first < i <= last
        invariant forall j: nat :: j < first || i <= j < re.Length ==> re[j] == was[j]
        invariant forall j: nat :: j < 8 ==> (Bit(re[first], j) <==> Bit(was[first], j) || start % 8 <= j < 8)
        invariant forall j: nat :: first < j < i ==> re[j] == 0xff
      {
        re[i] := 0xff;
        i := i + 1;
      }
      if end % 8 != 0 {
        OrRange(re, last, 0, end % 8);
      }
      AllOnes(0xff);
    }
    forall k: nat | k < 8 * re.Length
      ensures Marked(re[..], k) <==> Marked(was, k) || start <= k < end
    {
      InRange(k, start, end);
      var j, b := k / 8, k % 8;
      assert Marked(re[..], k) <==> Bit(re[j], b);
      assert Marked(was, k) <==> Bit(was[j], b);
    }
  }

  /** The completeness half of dtls1_hm_fragment_mark. */
  method IsComplete(re: array<byte>, msgLen: nat) returns (complete: bool)
    requires re.Length == (msgLen + 7) / 8
    requires forall k: nat :: msgLen <= k < 8 * re.Length ==> !Marked(re[..], k)
    ensures complete <==> forall k: nat :: k < msgLen ==> Marked(re[..], k)
  {
    hide BitRange;
    var i := 0;
    while i < msgLen / 8
      invariant i <= msgLen / 8
      invariant forall k: nat :: k < 8 * i ==> Marked(re[..], k)
    {
      AllOnes(re[i]);
      if re[i] != 0xff {
        var j: nat :| j < 8 && !Bit(re[i], j);
        assert !Marked(re[..], 8 * i + j);
        return false;
      }
      forall k: nat | 8 * i <= k < 8 * (i + 1) ensures Marked(re[..], k) {
        var j := k % 8;
        assert k / 8 == i && Bit(re[i], j);
      }
      i := i + 1;
    }
    var n := msgLen % 8;
    if n != 0 {
      var last := msgLen / 8;
      forall j: nat | n <= j < 8 ensures !Bit(re[last], j) {
        assert !Marked(re[..], 8 * last + j);
      }
      PrefixOnes(re[last], n);
      RangeIsOnes(n);
      if re[last] != BitRange(0, n) {
        var j: nat :| j < n && !Bit(re[last], j);
        assert !Marked(re[..], 8 * last + j);
        return false;
      }
      forall k: nat | 8 * last <= k < msgLen ensures Marked(re[..], k) {
        var j := k % 8;
        assert k / 8 == last && j < n && Bit(re[last], j);
      }
    }
    complete := true;
  }

  /** OPENSSL_memcpy */
  method CopyAt(data: array<byte>, at: nat, body: seq<byte>)
    requires at + |body| <= data.Length
    modifies data
    ensures forall i: nat :: i < data.Length ==>
              data[i] == if at <= i < at + |body| then body[i - at] else old(data[i])
  {
    forall k | 0 <= k < |body| {
      data[at + k] := body[k];
    }
  }

  lemma {:induction false} ReceivedIs(got: map<nat, byte>, off: nat, body: seq<byte>)
    ensures forall k: nat :: k in Received(got, off, body) <==> k in got || off <= k < off + |body|
    ensures forall k: nat :: k in Received(got, off, body) ==>
              Received(got, off, body)[k] == if off <= k < off + |body| then body[k - off] else got[k]
  {
  }

  lemma {:induction false} CoveredIs(p: Partial, re: seq<byte>)
    requires p.msgLen <= 8 * |re|
    requires forall k: nat :: k < 8 * |re| ==> (Marked(re, k) <==> k in p.got)
    ensures Covered(p) <==> forall k: nat :: k < p.msgLen ==> Marked(re, k)
  {
    hide Marked;
    if Covered(p) {
      forall k: nat | k < p.msgLen ensures Marked(re, k) {
        assert k in p.got;
      }
    } else {
      var k: nat :| k < p.msgLen && k !in p.got;
      assert !Marked(re, k);
    }
  }

  /** hm_fragment: a message being received. */
  class HmFragment {
    const typ: byte
    const seqNum: nat
    const msgLen: nat
    /** The rebuilt header followed by the body. */
    const data: array<byte>
    /** One bit per body byte; null once the message is whole. */
    var reassembly: array?<byte>
    /** The body bytes received so far. */
    ghost var got: map<nat, byte>
    ghost const Repr: set<object>

    ghost predicate Valid()
      reads this, Repr
    {
      && this in Repr && data in Repr
      && msgLen < U24_LIMIT && seqNum < U16_LIMIT
      && data.Length == HM_HEADER_LENGTH + msgLen
      && data[..HM_HEADER_LENGTH] == EncHeader(typ, msgLen, seqNum, 0, msgLen)
      && (forall k: nat :: k in got ==> k < msgLen && got[k] == data[HM_HEADER_LENGTH + k])
      && (reassembly == null <==> Covered(View()))
      && (reassembly != null ==>
            && reassembly in Repr && reassembly != data
            && reassembly.Length == (msgLen + 7) / 8
            && forall k: nat :: k < 8 * reassembly.Length ==> (Marked(reassembly[..], k) <==> k in got))
    }

    ghost function View(): Partial
      reads this
    {
      Partial(typ, msgLen, got)
    }

    /** dtls1_hm_fragment_new */
    constructor (f: Fragment)
      requires WfFragment(f)
      ensures Valid() && this in Repr && fresh(Repr)
      ensures seqNum == f.seqNum && View() == Partial(f.typ, f.msgLen, map[])
    {
      hide Marked, Bit;
      typ, seqNum, msgLen := f.typ, f.seqNum, f.msgLen;
      var header := EncHeader(f.typ, f.msgLen, f.seqNum, 0, f.msgLen);
      var bytes := new byte[HM_HEADER_LENGTH + f.msgLen](i => if 0 <= i < |header| then header[i] else 0);
      var bits := new byte[(f.msgLen + 7) / 8](_ => 0);
      data := bytes;
      got := map[];
      reassembly := if f.msgLen > 0 then bits else null;
      Repr := {this, bytes, bits};
      new;
      assert data[..HM_HEADER_LENGTH] == header;
      NothingMarked(bits[..]);
      assert 0 !in got;
    }

    /** The copy of a fragment body and dtls1_hm_fragment_mark; a whole message drops its bitmap. */
    method Receive(off: nat, body: seq<byte>)
      requires Valid() && reassembly != null && off + |body| <= msgLen
      modifies Repr
      ensures Valid()
      ensures got == Received(old(got), off, body)
    {
      hide Marked, EncHeader, Received, Covered;
      ghost var header, marks := data[..HM_HEADER_LENGTH], reassembly[..];
      CopyAt(data, HM_HEADER_LENGTH + off, body);
      assert data[..HM_HEADER_LENGTH] == header && reassembly[..] == marks;
      MarkRange(reassembly, off, off + |body|);
      ReceivedIs(got, off, body);
      got := Received(got, off, body);
      assert forall k: nat :: k < 8 * reassembly.Length ==> (Marked(reassembly[..], k) <==> k in got) by {
        assert forall k: nat :: k < 8 * reassembly.Length ==> (Marked(marks, k) <==> k in old(got));
      }
      var complete := IsComplete(reassembly, msgLen);
      CoveredIs(View(), reassembly[..]);
      if complete {
        reassembly := null;
      }
    }

    /** The bytes handed to the handshake as the raw message. */
    method RawBytes() returns (raw: seq<byte>)
      requires Valid() && reassembly == null
      ensures raw == Raw(Message(typ, seqNum, Body(View())))
    {
      hide Marked, EncHeader;
      raw := data[..];
      assert raw == data[..HM_HEADER_LENGTH] + Body(View());
    }
  }
}
