/** Machine words as naturals: bits, or, and, shifts and masks. */
module Bits {

  function Pow2(n: nat): (p: nat)
    ensures p >= 1
  {
    if n == 0 then 1 else 2 * Pow2(n - 1)
  }

  lemma {:induction false} Pow2Add(m: nat, n: nat)
    ensures Pow2(m + n) == Pow2(m) * Pow2(n)
  {
    if m > 0 {
      Pow2Add(m - 1, n);
    }
  }

  lemma {:induction false} Pow2Monotone(m: nat, n: nat)
    requires m <= n
    ensures Pow2(m) <= Pow2(n)
  {
    if m > 0 {
      Pow2Monotone(m - 1, n - 1);
    }
  }

  lemma {:induction false} Pow2Step(n: nat)
    ensures Pow2(n + 1) == 2 * Pow2(n)
  {
  }

  lemma {:induction false} Pow2Is256()
    ensures Pow2(8) == 256
  {
  }

  /** Bit i of w: (w >> i) & 1. */
  predicate Bit(w: nat, i: nat)
  {
    if i == 0 then w % 2 == 1 else Bit(w / 2, i - 1)
  }

  /** a | b */
  function BitOr(a: nat, b: nat): nat
    decreases a + b
  {
    if a == 0 then b
    else if b == 0 then a
    else (if a % 2 == 1 || b % 2 == 1 then 1 else 0) + 2 * BitOr(a / 2, b / 2)
  }

  /** a & b */
  function BitAnd(a: nat, b: nat): nat
    decreases a + b
  {
    if a == 0 || b == 0 then 0
    else (if a % 2 == 1 && b % 2 == 1 then 1 else 0) + 2 * BitAnd(a / 2, b / 2)
  }

  lemma {:induction false} BitOfZero(i: nat)
    ensures !Bit(0, i)
  {
    if i > 0 {
      BitOfZero(i - 1);
    }
  }

  lemma {:induction false} BitOfOr(a: nat, b: nat, i: nat)
    ensures Bit(BitOr(a, b), i) <==> Bit(a, i) || Bit(b, i)
  {
    if a == 0 || b == 0 {
      BitOfZero(i);
    } else if i > 0 {
      BitOfOr(a / 2, b / 2, i - 1);
    }
  }

  lemma {:induction false} BitOfAnd(a: nat, b: nat, i: nat)
    ensures Bit(BitAnd(a, b), i) <==> Bit(a, i) && Bit(b, i)
  {
    if a == 0 || b == 0 {
      BitOfZero(i);
    } else if i > 0 {
      BitOfAnd(a / 2, b / 2, i - 1);
    }
  }

  /** 1 << k */
  lemma {:induction false} BitOfPow2(k: nat, i: nat)
    ensures Bit(Pow2(k), i) <==> i == k
  {
    if k == 0 {
      if i > 0 {
        BitOfZero(i - 1);
      }
    } else if i > 0 {
      BitOfPow2(k - 1, i - 1);
    }
  }

  /** w << s */
  lemma {:induction false} BitOfShift(w: nat, s: nat, i: nat)
    ensures Bit(w * Pow2(s), i) <==> i >= s && Bit(w, i - s)
  {
    if s > 0 {
      assert w * Pow2(s) == 2 * (w * Pow2(s - 1));
      if i > 0 {
        BitOfShift(w, s - 1, i - 1);
      }
    }
  }

  /** Truncation to n bits. */
  lemma {:induction false} BitOfMod(w: nat, n: nat, i: nat)
    ensures Bit(w % Pow2(n), i) <==> i < n && Bit(w, i)
  {
    if n == 0 {
      BitOfZero(i);
    } else {
      ModHalves(w, Pow2(n - 1));
      if i > 0 {
        BitOfMod(w / 2, n - 1, i - 1);
      }
    }
  }

  lemma {:induction false} ModHalves(w: nat, p: nat)
    requires p >= 1
    ensures w % (2 * p) % 2 == w % 2 && w % (2 * p) / 2 == w / 2 % p
  {
    var q, r := w / 2 / p, w / 2 % p;
    assert w / 2 == q * p + r;
    assert w == q * (2 * p) + (2 * r + w % 2);
    ModUnique(w, 2 * p, q, 2 * r + w % 2);
  }

  lemma {:induction false} ModUnique(w: int, d: int, q: int, m: int)
    requires d > 0 && w == q * d + m && 0 <= m < d
    ensures w % d == m && w / d == q
  {
    EuclidUnique(d, q, m, w / d, w % d);
  }

  lemma {:induction false} EuclidUnique(d: int, q: int, m: int, q': int, m': int)
    requires q * d + m == q' * d + m' && 0 <= m < d && 0 <= m' < d
    ensures q == q' && m == m'
  {
    if q < q' {
      MulAtLeast(q' - q, d);
      Distribute(q', q, d);
    } else if q' < q {
      MulAtLeast(q - q', d);
      Distribute(q, q', d);
    }
  }

  lemma {:induction false} Distribute(x: int, y: int, d: int)
    ensures (x - y) * d == x * d - y * d
  {
  }

  lemma {:induction false} MulAtLeast(k: int, d: int)
    requires k >= 1 && d > 0
    ensures k * d >= d
  {
    if k > 1 {
      MulAtLeast(k - 1, d);
      Distribute(k, 1, d);
    }
  }

  lemma {:induction false} ModAtMost(x: nat, m: nat)
    requires m > 0
    ensures 0 <= x % m <= x
  {
    if x < m {
      ModUnique(x, m, 0, x);
    }
  }

  lemma {:induction false} ModShift(x: int, m: int, q: int)
    requires m > 0
    ensures (x + q * m) % m == x % m
  {
    Distribute(x / m, -q, m);
    ModUnique(x + q * m, m, x / m + q, x % m);
  }

  lemma {:induction false} NoHighBits(w: nat, n: nat, i: nat)
    requires w < Pow2(n) && i >= n
    ensures !Bit(w, i)
  {
    if n == 0 {
      BitOfZero(i);
    } else {
      NoHighBits(w / 2, n - 1, i - 1);
    }
  }

  /** (1 << n) - 1 */
  lemma {:induction false} BitOfOnes(n: nat, i: nat)
    ensures Bit(Pow2(n) - 1, i) <==> i < n
  {
    if n == 0 {
      BitOfZero(i);
    } else {
      var p := Pow2(n - 1);
      assert (2 * p - 1) % 2 == 1 && (2 * p - 1) / 2 == p - 1;
      if i > 0 {
        BitOfOnes(n - 1, i - 1);
      }
    }
  }

  /** Words of n bits are equal when their bits are. */
  lemma {:induction false} SameBits(u: nat, w: nat, n: nat)
    requires u < Pow2(n) && w < Pow2(n)
    requires forall i :: 0 <= i < n ==> (Bit(u, i) <==> Bit(w, i))
    ensures u == w
  {
    if n > 0 {
      assert Bit(u, 0) <==> Bit(w, 0);
      forall i | 0 <= i < n - 1 ensures Bit(u / 2, i) <==> Bit(w / 2, i) {
        assert Bit(u, i + 1) <==> Bit(w, i + 1);
      }
      SameBits(u / 2, w / 2, n - 1);
    }
  }

  /** Or does not leave the word. */
  lemma {:induction false} OrBound(a: nat, b: nat, n: nat)
    requires a < Pow2(n) && b < Pow2(n)
    ensures BitOr(a, b) < Pow2(n)
  {
    if a != 0 && b != 0 {
      OrBound(a / 2, b / 2, n - 1);
    }
  }

  lemma {:induction false} BitOrDisjoint(a: nat, x: nat, k: nat)
    requires a < Pow2(k)
    ensures BitOr(a, x * Pow2(k)) == a + x * Pow2(k)
  {
    if a != 0 && x != 0 {
      assert k > 0;
      assert x * Pow2(k) == 2 * (x * Pow2(k - 1));
      BitOrDisjoint(a / 2, x, k - 1);
    }
  }

  /** ~w on n bits */
  lemma {:induction false} BitOfNot(w: nat, n: nat, i: nat)
    requires w < Pow2(n) && i < n
    ensures Bit(Pow2(n) - 1 - w, i) <==> !Bit(w, i)
  {
    var p := Pow2(n - 1);
    NotHalves(w, p);
    if i > 0 {
      BitOfNot(w / 2, n - 1, i - 1);
    }
  }

  lemma {:induction false} NotHalves(w: nat, p: nat)
    requires w < 2 * p
    ensures (2 * p - 1 - w) % 2 == 1 - w % 2 && (2 * p - 1 - w) / 2 == p - 1 - w / 2
  {
  }
}
