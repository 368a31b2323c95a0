/**
  Unsigned division by a constant through multiplication and a shift: the
  search that `reciprocal.py` performs for the multiplier and the shift.
 */
module Reciprocal {
  import opened Bits

  /** Length of Python's `bin(n)` without its prefix; zero is written with one digit. */
  function BitLength(n: nat): nat {
    if n < 2 then 1 else 1 + BitLength(n / 2)
  }

  lemma {:induction false} BitLengthBound(n: nat)
    ensures n < Pow2(BitLength(n))
  {
    if n >= 2 {
      BitLengthBound(n / 2);
    } else {
      assert Pow2(1) == 2 * Pow2(0);
    }
  }

  /** The amount by which 2^p falls short of the next multiple of d. */
  function Shortfall(p: nat, d: nat): (e: nat)
    requires d > 0
    ensures e < d
    ensures (Pow2(p) + e) % d == 0
  {
    var r := (Pow2(p) - 1) % d;
    DivModUnique(Pow2(p) + d - 1 - r, d, (Pow2(p) - 1) / d + 1, 0);
    d - 1 - r
  }

  /** The largest n at most nmax that leaves remainder d - 1; -1 when d exceeds nmax + 1. */
  function CriticalN(nmax: nat, d: nat): int
    requires d > 0
  {
    (nmax + 1) / d * d - 1
  }

  /** The test in the search loop. */
  predicate Suffices(nmax: nat, d: nat, p: nat)
    requires d > 0
  {
    Pow2(p) > CriticalN(nmax, d) * Shortfall(p, d)
  }

  function Multiplier(p: nat, d: nat): nat
    requires d > 0
  {
    (Pow2(p) + Shortfall(p, d)) / d
  }

  /** `(n * m) >> p` is the quotient of n by d for every n up to nmax. */
  ghost predicate Divides(m: nat, p: nat, nmax: nat, d: nat)
    requires d > 0
  {
    forall n: nat :: n <= nmax ==> (n * m) / Pow2(p) == n / d
  }

  lemma MultiplierExact(p: nat, d: nat)
    requires d > 0
    ensures Multiplier(p, d) * d == Pow2(p) + Shortfall(p, d)
  {
  }

  /** The number k of whole multiples of d among 0 .. nmax fixes the critical n. */
  lemma WholeMultiples(nmax: nat, d: nat) returns (k: nat)
    requires d > 0
    ensures k * d <= nmax + 1 < k * d + d
    ensures CriticalN(nmax, d) == k * d - 1
    ensures d <= nmax + 1 ==> k >= 1
    ensures k >= 1 ==> k * d >= d
  {
    k := (nmax + 1) / d;
    DivBounds(nmax + 1, d);
    if k >= 1 {
      MulLe(1, k, d);
    }
  }

  /** The search cannot run past twice the bit length. */
  lemma SearchSucceeds(nmax: nat, d: nat)
    requires d > 0
    ensures Suffices(nmax, d, 2 * BitLength(nmax))
  {
    var b := BitLength(nmax);
    var k := WholeMultiples(nmax, d);
    BitLengthBound(nmax);
    Pow2Sum(b, b);
    ProductBelowSquare(k * d - 1, Shortfall(2 * b, d), nmax, Pow2(b), d);
  }

  lemma ProductBelowSquare(nc: int, e: nat, nmax: nat, w: nat, d: nat)
    requires nmax < w && -1 <= nc <= nmax && e < d && (nc >= 0 ==> d <= nmax + 1)
    ensures nc * e < w * w
  {
    if nc >= 0 {
      MulLe(nc, nmax, e);
      MulLe(e, nmax, nmax);
      MulLe(nmax, w - 1, nmax);
      MulLe(nmax, w - 1, w);
      assert (w - 1) * w == w * w - w;
    }
  }

  /** Every quotient comes out right when the loop's test holds. */
  lemma SufficientShiftDivides(nmax: nat, d: nat, p: nat, n: nat)
    requires 0 < d <= nmax + 1 && Suffices(nmax, d, p) && n <= nmax
    ensures (n * Multiplier(p, d)) / Pow2(p) == n / d
  {
    var k := WholeMultiples(nmax, d);
    MultiplierExact(p, d);
    DivBounds(n, d);
    QuotientSurvives(n, Multiplier(p, d), Pow2(p), Shortfall(p, d), d, n / d, n % d, k, nmax);
  }

  lemma QuotientSurvives(n: nat, m: nat, w: nat, e: nat, d: nat, q: nat, r: nat, k: nat, nmax: nat)
    requires m * d == w + e && n == q * d + r && r < d && w > 0 && n <= nmax
    requires k >= 1 && d <= k * d <= nmax + 1 < k * d + d && (k * d - 1) * e < w
    ensures (n * m) / w == q
  {
    ErrorBelowGap(n, w, e, d, q, r, k, nmax);
    var rest := ScaledQuotient(n, m, w, e, d, q, r);
    DivModUnique(n * m, w, q, rest);
  }

  /** The rounding error of the multiplier never reaches the distance to the next quotient. */
  lemma ErrorBelowGap(n: nat, w: nat, e: nat, d: nat, q: nat, r: nat, k: nat, nmax: nat)
    requires n == q * d + r && r < d && w > 0 && n <= nmax
    requires k >= 1 && d <= k * d <= nmax + 1 < k * d + d && (k * d - 1) * e < w
    ensures n * e < (d - r) * w
  {
    var nc := k * d - 1;
    if n <= nc {
      MulLe(n, nc, e);
      MulLe(1, d - r, w);
    } else {
      DivModUnique(n, d, k, n - k * d);
      DivModUnique(n, d, q, r);
      MulLe(n, 2 * nc, e);
      assert (2 * nc) * e == 2 * (nc * e);
      MulLe(2, d - r, w);
    }
  }

  /** n * m lies in the w-wide interval of quotient q, seen after scaling everything by d. */
  lemma ScaledQuotient(n: nat, m: nat, w: nat, e: nat, d: nat, q: nat, r: nat) returns (rest: int)
    requires m * d == w + e && n == q * d + r && r < d && w > 0
    requires n * e < (d - r) * w
    ensures n * m == q * w + rest && 0 <= rest < w
  {
    rest := n * m - q * w;
    calc {
      d * rest;
      d * (n * m) - d * (q * w);
      n * (m * d) - (q * d) * w;
      n * (w + e) - (n - r) * w;
      n * e + r * w;
    }
    assert (d - r) * w == d * w - r * w;
    assert 0 <= d * rest < d * w;
    if rest < 0 { MulLe(rest, -1, d); }
    if rest >= w { MulLe(w, rest, d); }
  }

  /** A shift the loop rejects admits no multiplier at all. */
  lemma RejectedShiftHopeless(nmax: nat, d: nat, p: nat, m: nat)
    requires 0 < d <= nmax && !Suffices(nmax, d, p)
    ensures !Divides(m, p, nmax, d)
  {
    if Divides(m, p, nmax, d) {
      var k := WholeMultiples(nmax, d);
      MultiplierAtLeast(nmax, d, p, m);
      assert ((k * d - 1) * m) / Pow2(p) == (k * d - 1) / d;
      CriticalQuotientTooBig(k * d - 1, m, k, Pow2(p), Shortfall(p, d), d);
    }
  }

  /** A correct quotient at the critical n would leave the scaled shortfall below the shift. */
  lemma CriticalQuotientTooBig(nc: nat, m: nat, k: nat, w: nat, e: nat, d: nat)
    requires nc == k * d - 1 && m * d >= w + e && d > 0 && w > 0
    requires (nc * m) / w == nc / d
    ensures nc * e < w
  {
    DivModUnique(nc, d, k - 1, d - 1);
    DivBounds(nc * m, w);
    TwoProducts(k - 1, 1, w);
    MulLe(nc * m + 1, k * w, d);
    MulLe(w + e, m * d, nc);
    TwoProducts(w, e, nc);
    ThreeProducts(nc, m, d);
    ThreeProducts(k, w, d);
    TwoProducts(nc, 1, w);
    TwoProducts(nc * m, 1, d);
  }

  lemma TwoProducts(a: int, b: int, c: int)
    ensures (a + b) * c == a * c + b * c && c * (a + b) == c * a + c * b
    ensures a * c == c * a
  {
  }

  lemma ThreeProducts(a: int, b: int, c: int)
    ensures (a * b) * c == a * (b * c) && (a * b) * c == (a * c) * b && (a * c) * b == b * (a * c)
  {
  }

  /** Dividing d itself correctly already needs a multiplier as large as the one returned. */
  lemma MultiplierAtLeast(nmax: nat, d: nat, p: nat, m: nat)
    requires 0 < d <= nmax && Divides(m, p, nmax, d)
    ensures m * d >= Pow2(p) + Shortfall(p, d)
    ensures m >= Multiplier(p, d)
  {
    MultiplierExact(p, d);
    assert (d * m) / Pow2(p) == d / d;
    LeastMultiplier(d, m, Pow2(p), Shortfall(p, d), Multiplier(p, d));
  }

  lemma LeastMultiplier(d: nat, m: nat, w: nat, e: nat, least: nat)
    requires least * d == w + e && e < d && w > 0
    requires (d * m) / w == d / d
    ensures m >= least && m * d >= w + e
  {
    DivModUnique(d, d, 1, 0);
    DivBounds(d * m, w);
    if m < least {
      MulLe(m, least - 1, d);
    } else {
      MulLe(least, m, d);
    }
  }

  /**
    `magicgu`.  The search always ends within its bound.  For a divisor up to
    nmax + 1 the result divides every n up to nmax, and for a divisor up to nmax
    no smaller shift has any multiplier that does, and no smaller multiplier
    does at this shift.
   */
  method MagicGu(nmax: nat, d: nat) returns (m: nat, p: nat)
    requires d > 0
    ensures p <= 2 * BitLength(nmax)
    ensures Divides(m, p, nmax, d) <==> d <= nmax + 1 || nmax == 0
    ensures d <= nmax ==> forall m': nat, p': nat :: p' < p ==> !Divides(m', p', nmax, d)
    ensures d <= nmax ==> forall m': nat :: m' < m ==> !Divides(m', p, nmax, d)
  {
    var nc := (nmax + 1) / d * d - 1;
    var nbits := BitLength(nmax);
    p := 0;
    while !(Pow2(p) > nc * (d - 1 - (Pow2(p) - 1) % d))
      invariant p <= 2 * nbits
      invariant forall q: nat :: q < p ==> !Suffices(nmax, d, q)
      decreases 2 * nbits - p
    {
      assert !Suffices(nmax, d, p);
      SearchSucceeds(nmax, d);
      p := p + 1;
    }
    assert Suffices(nmax, d, p);
    m := (Pow2(p) + d - 1 - (Pow2(p) - 1) % d) / d;
    assert m == Multiplier(p, d);
    if d <= nmax + 1 {
      forall n: nat | n <= nmax ensures (n * m) / Pow2(p) == n / d {
        SufficientShiftDivides(nmax, d, p, n);
      }
    } else {
      OversizedDivisor(nmax, d, p);
    }
    if d <= nmax {
      forall m': nat, p': nat | p' < p ensures !Divides(m', p', nmax, d) {
        RejectedShiftHopeless(nmax, d, p', m');
      }
      forall m': nat | m' < m ensures !Divides(m', p, nmax, d) {
        if Divides(m', p, nmax, d) { MultiplierAtLeast(nmax, d, p, m'); }
      }
    }
  }

  /** Beyond nmax + 1 the first shift is accepted, and the result is the identity instead of zero. */
  lemma OversizedDivisor(nmax: nat, d: nat, p: nat)
    requires d > nmax + 1
    requires Suffices(nmax, d, p) && forall q: nat :: q < p ==> !Suffices(nmax, d, q)
    ensures p == 0 && Multiplier(p, d) == 1
    ensures Divides(1, 0, nmax, d) <==> nmax == 0
  {
    DivModUnique(nmax + 1, d, 0, nmax + 1);
    assert CriticalN(nmax, d) == -1;
    assert Suffices(nmax, d, 0);
    DivModUnique(0, d, 0, 0);
    DivModUnique(d, d, 1, 0);
    assert Shortfall(0, d) == d - 1;
    if nmax > 0 {
      DivModUnique(1, d, 0, 1);
      assert (1 * 1) / Pow2(0) == 1;
    }
  }
}
