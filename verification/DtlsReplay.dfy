/** The 64-record replay window of dtls_record.cc (RFC 6347, section 4.1.2.6) and the opening of records behind it. */
module DtlsReplay {
  import opened Prelude
  import opened Bits

  const WINDOW: nat := 64

  /** DTLS1_BITMAP */
  datatype Window = Window(map_: nat, max: nat)

  const EMPTY := Window(0, 0)

  /** Bit i of the map is set exactly when max - i was recorded, and nothing above max was. */
  ghost predicate Refines(w: Window, seen: set<nat>) {
    && w.map_ < Pow2(WINDOW)
    && (forall i: nat :: i < WINDOW ==> (Bit(w.map_, i) <==> i <= w.max && w.max - i in seen))
    && (forall n :: n in seen ==> n <= w.max)
  }

  /** dtls1_bitmap_should_discard; the test of bit idx is map & (1 << idx). */
  predicate Discarded(w: Window, n: nat) {
    n <= w.max && (w.max - n >= WINDOW || BitAnd(w.map_, Pow2(w.max - n)) != 0)
  }

  /** dtls1_bitmap_record on 64-bit words */
  function Record(w: Window, n: nat): Window {
    var moved :=
      if n > w.max then
        var shift := n - w.max;
        Window(if shift >= WINDOW then 0 else w.map_ * Pow2(shift) % Pow2(WINDOW), n)
      else w;
    var idx := moved.max - n;
    if idx < WINDOW then moved.(map_ := BitOr(moved.map_, Pow2(idx))) else moved
  }

  lemma {:induction false} TestBit(w: nat, k: nat)
    ensures BitAnd(w, Pow2(k)) != 0 <==> Bit(w, k)
  {
    if w == 0 {
      BitOfZero(k);
    } else if k > 0 {
      TestBit(w / 2, k - 1);
      assert Pow2(k) % 2 == 0 && Pow2(k) / 2 == Pow2(k - 1);
    } else {
      assert BitAnd(w / 2, 0) == 0;
    }
  }

  /** No number recorded before gets through, and none of the last 64 that was not recorded is turned away. */
  lemma {:induction false} DiscardExact(w: Window, seen: set<nat>, n: nat)
    requires Refines(w, seen)
    ensures Discarded(w, n) <==> n in seen || n + WINDOW <= w.max
  {
    hide Bit, BitAnd, Pow2;
    if n <= w.max {
      TestBit(w.map_, w.max - n);
    }
  }

  lemma {:induction false} Slide(w: Window, seen: set<nat>, n: nat)
    requires Refines(w, seen) && n > w.max
    ensures var shift := n - w.max;
            Refines(Window(if shift >= WINDOW then 0 else w.map_ * Pow2(shift) % Pow2(WINDOW), n), seen)
  {
    hide Bit, BitAnd, Pow2;
    var shift := n - w.max;
    var m := if shift >= WINDOW then 0 else w.map_ * Pow2(shift) % Pow2(WINDOW);
    assert m < Pow2(WINDOW) by { Pow2Monotone(0, WINDOW); }
    forall i: nat | i < WINDOW ensures Bit(m, i) <==> i <= n && n - i in seen {
      if shift >= WINDOW {
        BitOfZero(i);
      } else {
        BitOfMod(w.map_ * Pow2(shift), WINDOW, i);
        BitOfShift(w.map_, shift, i);
        if i >= shift {
          assert n - i == w.max - (i - shift);
        }
      }
    }
  }

  lemma {:induction false} RecordRefines(w: Window, seen: set<nat>, n: nat)
    requires Refines(w, seen)
    ensures Refines(Record(w, n), seen + {n})
    ensures Record(w, n).max == if n > w.max then n else w.max
  {
    hide Bit, BitAnd, Pow2, BitOr;
    if n > w.max {
      Slide(w, seen, n);
      var shift := n - w.max;
      Mark(Window(if shift >= WINDOW then 0 else w.map_ * Pow2(shift) % Pow2(WINDOW), n), seen, n);
    } else {
      Mark(w, seen, n);
    }
  }

  lemma {:induction false} Mark(w: Window, seen: set<nat>, n: nat)
    requires Refines(w, seen) && n <= w.max
    ensures var idx := w.max - n;
            Refines(if idx < WINDOW then w.(map_ := BitOr(w.map_, Pow2(idx))) else w, seen + {n})
  {
    hide Bit, BitAnd, Pow2, BitOr;
    var idx := w.max - n;
    if idx < WINDOW {
      var m := BitOr(w.map_, Pow2(idx));
      assert m < Pow2(WINDOW) by {
        Pow2Monotone(idx + 1, WINDOW);
        Pow2Step(idx);
        OrBound(w.map_, Pow2(idx), WINDOW);
      }
      forall i: nat | i < WINDOW ensures Bit(m, i) <==> i <= w.max && w.max - i in seen + {n} {
        BitOfOr(w.map_, Pow2(idx), i);
        BitOfPow2(idx, i);
      }
    }
  }

  lemma {:induction false} EmptyRefines()
    ensures Refines(EMPTY, {})
  {
    hide Bit;
    forall i: nat | i < WINDOW ensures !Bit(0, i) {
      BitOfZero(i);
    }
  }

  /** The numbers an epoch accepts when authentic records arrive with the given numbers. */
  datatype Epoch = Epoch(w: Window, accepted: seq<nat>)

  function RunEpoch(arrivals: seq<nat>): Epoch {
    if arrivals == [] then Epoch(EMPTY, [])
    else
      var e, n := RunEpoch(arrivals[..|arrivals| - 1]), arrivals[|arrivals| - 1];
      if Discarded(e.w, n) then e else Epoch(Record(e.w, n), e.accepted + [n])
  }

  ghost function SetOf(s: seq<nat>): set<nat> {
    set n | n in s
  }

  ghost predicate Distinct(s: seq<nat>) {
    forall i, j :: 0 <= i < j < |s| ==> s[i] != s[j]
  }

  /** Whether the run accepts its last arrival. */
  predicate AcceptsLast(arrivals: seq<nat>)
    requires arrivals != []
  {
    RunEpoch(arrivals).accepted == RunEpoch(arrivals[..|arrivals| - 1]).accepted + [arrivals[|arrivals| - 1]]
  }

  /** In every run of an epoch the window refines the set of accepted numbers, and none is accepted twice. */
  lemma {:induction false} AcceptedOnce(arrivals: seq<nat>)
    ensures var e := RunEpoch(arrivals);
            && Refines(e.w, SetOf(e.accepted))
            && Distinct(e.accepted)
            && (e.accepted != [] ==> e.w.max in e.accepted)
            && (e.accepted == [] ==> e.w.max == 0)
  {
    hide Refines, Discarded, Record;
    if arrivals == [] {
      EmptyRefines();
      assert SetOf([]) == {};
    } else {
      var pre, n := arrivals[..|arrivals| - 1], arrivals[|arrivals| - 1];
      AcceptedOnce(pre);
      var e := RunEpoch(pre);
      DiscardExact(e.w, SetOf(e.accepted), n);
      if !Discarded(e.w, n) {
        RecordRefines(e.w, SetOf(e.accepted), n);
        assert SetOf(e.accepted + [n]) == SetOf(e.accepted) + {n};
        if e.accepted == [] && n < e.w.max {
          assert false;
        }
        MaxAccepted(e, n);
      }
    }
  }

  lemma {:induction false} MaxAccepted(e: Epoch, n: nat)
    requires e.accepted != [] ==> e.w.max in e.accepted
    requires e.accepted == [] ==> e.w.max == 0
    requires Record(e.w, n).max == if n > e.w.max then n else e.w.max
    ensures Record(e.w, n).max in e.accepted + [n]
  {
    hide Record;
    assert (e.accepted + [n])[|e.accepted|] == n;
  }

  /** A record is accepted exactly when its number is new and among the last 64 up to the highest accepted one. */
  lemma {:induction false} AcceptedExactly(arrivals: seq<nat>, n: nat)
    ensures var e := RunEpoch(arrivals);
            AcceptsLast(arrivals + [n]) <==> n !in e.accepted && e.w.max < n + WINDOW
  {
    hide Refines, Discarded, Record;
    var all := arrivals + [n];
    assert all[..|all| - 1] == arrivals;
    AcceptedOnce(arrivals);
    var e := RunEpoch(arrivals);
    DiscardExact(e.w, SetOf(e.accepted), n);
    assert |e.accepted + [n]| != |e.accepted|;
  }

  /** to_u64_be */
  function BeValue(b: seq<byte>): nat {
    if b == [] then 0 else BeValue(b[..|b| - 1]) * 256 + b[|b| - 1] as int
  }

  lemma {:induction false} BeValueBound(b: seq<byte>)
    ensures BeValue(b) < Pow2(8 * |b|)
  {
    if b != [] {
      BeValueBound(b[..|b| - 1]);
      var v := BeValue(b[..|b| - 1]);
      Pow2Add(8 * (|b| - 1), 8);
      assert Pow2(8) == 256;
      assert v * 256 + 255 < Pow2(8 * (|b| - 1)) * 256;
    }
  }

  /** ret <<= 8; ret |= x */
  lemma {:induction false} ShiftIn(ret: nat, x: byte, i: nat)
    requires ret < Pow2(8 * i) && i < 8
    ensures BitOr(x, ret * 256 % Pow2(64)) == ret * 256 + x as int
  {
    hide Pow2, BitOr;
    Pow2Is256();
    Pow2Add(8 * i, 8);
    Pow2Monotone(8 * i + 8, 64);
    MulLess(ret, Pow2(8 * i));
    ModUnique(ret * 256, Pow2(64), 0, ret * 256);
    BitOrDisjoint(x, ret, 8);
  }

  lemma {:induction false} MulLess(x: nat, y: nat)
    requires x < y
    ensures x * 256 < y * 256
  {
  }

  method ToU64Be(b: seq<byte>) returns (ret: nat)
    requires |b| == 8
    ensures ret == BeValue(b) && ret < Pow2(64)
  {
    hide Pow2, BitOr;
    ret := 0;
    for i := 0 to 8
      invariant ret == BeValue(b[..i])
    {
      assert b[..i + 1][..i] == b[..i];
      BeValueBound(b[..i]);
      ShiftIn(ret, b[i], i);
      ret := BitOr(b[i], ret * 256 % Pow2(64));
    }
    assert b[..8] == b;
    BeValueBound(b);
  }

  /** DTLS1_BITMAP, updated in place. */
  class Bitmap {
    var map_: nat
    var maxSeqNum: nat

    ghost function View(): Window
      reads this
    {
      Window(map_, maxSeqNum)
    }

    constructor ()
      ensures View() == EMPTY
    {
      map_, maxSeqNum := 0, 0;
    }

    method ShouldDiscard(seqNum: seq<byte>) returns (discard: bool)
      requires |seqNum| == 8
      ensures discard <==> Discarded(View(), BeValue(seqNum))
    {
      hide Pow2, BitAnd;
      var n := ToU64Be(seqNum);
      if n > maxSeqNum {
        return false;
      }
      var idx := maxSeqNum - n;
      discard := idx >= WINDOW || BitAnd(map_, Pow2(idx)) != 0;
    }

    method RecordReceipt(seqNum: seq<byte>)
      requires |seqNum| == 8
      modifies this
      ensures View() == Record(old(View()), BeValue(seqNum))
    {
      hide Pow2, BitOr;
      var n := ToU64Be(seqNum);
      if n > maxSeqNum {
        var shift := n - maxSeqNum;
        if shift >= WINDOW {
          map_ := 0;
        } else {
          map_ := map_ * Pow2(shift) % Pow2(WINDOW);
        }
        maxSeqNum := n;
      }
      var idx := maxSeqNum - n;
      if idx < WINDOW {
        map_ := BitOr(map_, Pow2(idx));
      }
    }
  }
}
