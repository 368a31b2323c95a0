/** Powers of two, and the shifts and masks the sources write, on unbounded naturals. */
module Bits {

  function Pow2(k: nat): (p: nat)
    ensures p > 0
  {
    if k == 0 then 1 else 2 * Pow2(k - 1)
  }

  lemma {:induction false} Pow2Sum(a: nat, b: nat)
    ensures Pow2(a + b) == Pow2(a) * Pow2(b)
  {
    if a > 0 {
      Pow2Sum(a - 1, b);
      assert Pow2(a + b) == 2 * Pow2((a - 1) + b);
      TwiceProduct(Pow2(a - 1), Pow2(b));
    }
  }

  lemma TwiceProduct(p: nat, q: nat)
    ensures 2 * (p * q) == (2 * p) * q
  {
  }

  lemma {:induction false} Pow2Monotone(a: nat, b: nat)
    requires a <= b
    ensures Pow2(a) <= Pow2(b)
    decreases b
  {
    if a < b {
      Pow2Monotone(a, b - 1);
    }
  }

  lemma MulLe(a: int, b: int, c: int)
    requires a <= b && 0 <= c
    ensures a * c <= b * c
  {
  }

  /** Quotient and remainder are the only way to write n as q * d + r with r below d. */
  lemma DivModUnique(n: int, d: int, q: int, r: int)
    requires d > 0 && 0 <= r < d
    requires n == q * d + r
    ensures n / d == q && n % d == r
  {
    var q' := n / d;
    assert n == q' * d + n % d;
    if q' < q {
      MulLe(q' + 1, q, d);
    } else if q' > q {
      MulLe(q + 1, q', d);
    }
  }

  lemma DivBounds(n: int, d: int)
    requires d > 0
    ensures n / d * d <= n < n / d * d + d
    ensures n == n / d * d + n % d
  {
  }

  // ---- Shifts and masks, one bit at a time ---------------------------------

  /** `x >> k` */
  function Shr(x: nat, k: nat): nat {
    if k == 0 then x else Shr(x / 2, k - 1)
  }

  /** `x << k` without a word size; in a w-bit word it is `Low(Shl(x, k), w)`. */
  function Shl(x: nat, k: nat): nat {
    if k == 0 then x else 2 * Shl(x, k - 1)
  }

  /** `x & ((1 << k) - 1)` */
  function Low(x: nat, k: nat): nat {
    if k == 0 then 0 else 2 * Low(x / 2, k - 1) + x % 2
  }

  lemma {:induction false} LowBound(x: nat, k: nat)
    ensures Low(x, k) < Pow2(k)
  {
    if k > 0 {
      LowBound(x / 2, k - 1);
    }
  }

  /** Shifting and masking cut a number into its bits above k and those below. */
  lemma {:induction false} HighAndLow(x: nat, k: nat)
    ensures x == Shr(x, k) * Pow2(k) + Low(x, k)
  {
    if k > 0 {
      HighAndLow(x / 2, k - 1);
      var q, p := Shr(x / 2, k - 1), Pow2(k - 1);
      ProductTwice(q, p);
      assert x == 2 * (x / 2) + x % 2;
    }
  }

  lemma ProductTwice(q: nat, p: nat)
    ensures q * (2 * p) == 2 * (q * p)
  {
  }

  /** A number of at most k bits is its own low part, and nothing is left above. */
  lemma {:induction false} Small(x: nat, k: nat)
    requires x < Pow2(k)
    ensures Low(x, k) == x && Shr(x, k) == 0
  {
    if k > 0 {
      Small(x / 2, k - 1);
    }
  }

  lemma {:induction false} ShrBound(x: nat, lo: nat, width: nat)
    requires x < Pow2(lo + width)
    ensures Shr(x, lo) < Pow2(width)
  {
    if lo > 0 {
      ShrBound(x / 2, lo - 1, width);
    }
  }

  /** Masking after a right shift reads the bits just above lo. */
  lemma {:induction false} ShrThenLow(x: nat, lo: nat, width: nat)
    ensures Low(Shr(x, lo), width) == Shr(Low(x, lo + width), lo)
  {
    if lo > 0 {
      ShrThenLow(x / 2, lo - 1, width);
    }
  }

  lemma {:induction false} LowOfLow(x: nat, lo: nat, hi: nat)
    requires lo <= hi
    ensures Low(Low(x, hi), lo) == Low(x, lo)
  {
    if lo > 0 {
      LowOfLow(x / 2, lo - 1, hi - 1);
    }
  }

  /** In a word of k + n bits, a left shift by k keeps exactly the low n bits. */
  lemma {:induction false} ShlKeepsLow(x: nat, k: nat, n: nat)
    ensures Low(Shl(x, k), k + n) == Shl(Low(x, n), k)
  {
    if k > 0 {
      var y := Shl(x, k - 1);
      ShlKeepsLow(x, k - 1, n);
      assert (2 * y) / 2 == y && (2 * y) % 2 == 0;
      assert Low(2 * y, k + n) == 2 * Low(y, k - 1 + n);
    }
  }

  lemma {:induction false} ShlThenShr(x: nat, k: nat, n: nat)
    ensures Shr(Shl(x, k), k + n) == Shr(x, n)
  {
    if k > 0 {
      var y := Shl(x, k - 1);
      ShlThenShr(x, k - 1, n);
      assert (2 * y) / 2 == y;
      assert Shr(2 * y, k + n) == Shr(y, k - 1 + n);
    }
  }

  lemma {:induction false} ShlSum(x: nat, a: nat, b: nat)
    ensures Shl(Shl(x, a), b) == Shl(x, a + b)
  {
    if b > 0 {
      ShlSum(x, a, b - 1);
    }
  }
}
