/** Numbers as sets of bits: what masking and or-ing test. */
module BitSets {
  import opened Bits

  predicate Bit(x: nat, i: nat) {
    Shr(x, i) % 2 == 1
  }

  /** `x & y` */
  function And(x: nat, y: nat): nat {
    if x == 0 || y == 0 then 0 else (if x % 2 == 1 && y % 2 == 1 then 1 else 0) + 2 * And(x / 2, y / 2)
  }

  /** `x | y` */
  function Or(x: nat, y: nat): nat {
    if x == 0 then y else if y == 0 then x else (if x % 2 == 1 || y % 2 == 1 then 1 else 0) + 2 * Or(x / 2, y / 2)
  }

  /** Every bit of m is a bit of x. */
  ghost predicate Includes(x: nat, m: nat) {
    forall i :: 0 <= i && Bit(m, i) ==> Bit(x, i)
  }

  lemma BitUp(x: nat, i: nat)
    ensures Bit(x, i + 1) <==> Bit(x / 2, i)
  {
  }

  lemma {:induction false} IncludesHalf(x: nat, m: nat)
    ensures Includes(x, m) <==> (m % 2 == 1 ==> x % 2 == 1) && Includes(x / 2, m / 2)
  {
    assert Bit(m, 0) <==> m % 2 == 1;
    assert Bit(x, 0) <==> x % 2 == 1;
    if Includes(x, m) {
      forall i: nat | Bit(m / 2, i) ensures Bit(x / 2, i) {
        BitUp(m, i);
        BitUp(x, i);
      }
    }
    if (m % 2 == 1 ==> x % 2 == 1) && Includes(x / 2, m / 2) {
      forall i: nat | Bit(m, i) ensures Bit(x, i) {
        if i > 0 {
          BitUp(m, i - 1);
          BitUp(x, i - 1);
        }
      }
    }
  }

  lemma {:induction false} ZeroBits(i: nat)
    ensures !Bit(0, i)
  {
    if i > 0 {
      ZeroBits(i - 1);
    }
  }

  /** `(x & m) == m` tests for all bits of m. */
  lemma {:induction false} AndMask(x: nat, m: nat)
    ensures And(x, m) == m <==> Includes(x, m)
    decreases m
  {
    IncludesHalf(x, m);
    if m == 0 {
      forall i: nat ensures !Bit(m, i) { ZeroBits(i); }
    } else {
      AndMask(x / 2, m / 2);
    }
  }

  /** `(m | x) == x` says that m has no bit outside x. */
  lemma {:induction false} OrWithin(m: nat, x: nat)
    ensures Or(m, x) == x <==> Includes(x, m)
    decreases m
  {
    IncludesHalf(x, m);
    if m == 0 {
      forall i: nat ensures !Bit(m, i) { ZeroBits(i); }
    } else {
      OrWithin(m / 2, x / 2);
    }
  }

  // ---- Bits of shifted and cut numbers ---------------------------------------------------

  lemma {:induction false} ShrBit(x: nat, k: nat, i: nat)
    ensures Bit(Shr(x, k), i) <==> Bit(x, k + i)
  {
    if k > 0 {
      ShrBit(x / 2, k - 1, i);
      BitUp(x, k - 1 + i);
    }
  }

  lemma {:induction false} ShlBit(x: nat, k: nat, i: nat)
    ensures Bit(Shl(x, k), i) <==> i >= k && Bit(x, i - k)
    decreases k
  {
    if k > 0 {
      if i > 0 {
        ShlBit(x, k - 1, i - 1);
        BitUp(Shl(x, k), i - 1);
      }
    }
  }

  lemma {:induction false} LowBit(x: nat, k: nat, i: nat)
    ensures Bit(Low(x, k), i) <==> i < k && Bit(x, i)
    decreases k
  {
    if k == 0 {
      ZeroBits(i);
    } else if i > 0 {
      LowBit(x / 2, k - 1, i - 1);
      BitUp(x, i - 1);
      BitUp(Low(x, k), i - 1);
    }
  }

  /** `(1 << w) - 1` has exactly the low w bits. */
  lemma {:induction false} OnesBit(w: nat, i: nat)
    ensures Bit(Pow2(w) - 1, i) <==> i < w
    decreases w
  {
    if w == 0 {
      ZeroBits(i);
    } else if i > 0 {
      OnesBit(w - 1, i - 1);
      BitUp(Pow2(w) - 1, i - 1);
      assert (Pow2(w) - 1) / 2 == Pow2(w - 1) - 1;
    }
  }
}
