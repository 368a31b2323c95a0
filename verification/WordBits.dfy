/** Counting leading and trailing zeros by halving, and alignment. */
module WordBits {
  import opened Bits

  // ---- Facts about shifts -----------------------------------------------------------

  lemma {:induction false} ShrSum(x: nat, a: nat, b: nat)
    ensures Shr(Shr(x, a), b) == Shr(x, a + b)
  {
    if a > 0 {
      ShrSum(x / 2, a - 1, b);
    }
  }

  lemma {:induction false} ShrPositive(x: nat, k: nat)
    requires x >= Pow2(k)
    ensures Shr(x, k) > 0
  {
    if k > 0 {
      ShrPositive(x / 2, k - 1);
    }
  }

  /** Shifting down to 1 tells the highest bit. */
  lemma {:induction false} ShrToOne(x: nat, s: nat)
    requires Shr(x, s) == 1
    ensures Pow2(s) <= x < Pow2(s + 1)
  {
    if s > 0 {
      ShrToOne(x / 2, s - 1);
      assert Pow2(s + 1) == 2 * Pow2(s);
    } else {
      assert Pow2(1) == 2 * Pow2(0);
    }
  }

  lemma {:induction false} LowZeroSplit(x: nat, s: nat, h: nat)
    ensures Low(x, s + h) == 0 <==> Low(x, s) == 0 && Low(Shr(x, s), h) == 0
  {
    if s > 0 {
      LowZeroSplit(x / 2, s - 1, h);
    }
  }

  // ---- Alignment ------------------------------------------------------------------------

  /** The low bits of x are zero. */
  predicate Aligned(x: nat, bits: nat) {
    Low(x, bits) == 0
  }

  lemma AlignedIsMultiple(x: nat, k: nat)
    ensures Aligned(x, k) <==> x % Pow2(k) == 0
  {
    HighAndLow(x, k);
    LowBound(x, k);
    DivModUnique(x, Pow2(k), Shr(x, k), Low(x, k));
  }

  lemma AlignedDown(x: nat, b: nat, c: nat)
    requires c <= b && Aligned(x, b)
    ensures Aligned(x, c)
  {
    LowZeroSplit(x, c, b - c);
  }

  lemma {:induction false} AlignedSum(x: nat, y: nat, b: nat)
    requires Aligned(x, b) && Aligned(y, b)
    ensures Aligned(x + y, b)
  {
    if b > 0 {
      AlignedSum(x / 2, y / 2, b - 1);
      assert (x + y) / 2 == x / 2 + y / 2;
    }
  }

  lemma {:induction false} AlignedDifference(x: nat, y: nat, b: nat)
    requires Aligned(x, b) && Aligned(y, b) && y <= x
    ensures Aligned(x - y, b)
  {
    if b > 0 {
      AlignedDifference(x / 2, y / 2, b - 1);
      assert (x - y) / 2 == x / 2 - y / 2;
    }
  }

  lemma {:induction false} Pow2Aligned(b: nat, c: nat)
    requires c <= b
    ensures Aligned(Pow2(b), c)
  {
    if c > 0 {
      Pow2Aligned(b - 1, c - 1);
      assert Pow2(b) / 2 == Pow2(b - 1);
    }
  }

  lemma {:induction false} AlignedAtLeast(x: nat, b: nat)
    requires x > 0 && Aligned(x, b)
    ensures x >= Pow2(b)
  {
    if b > 0 {
      AlignedAtLeast(x / 2, b - 1);
    }
  }

  /** Adding the lowest set bit raises the alignment. */
  lemma {:induction false} AlignedUp(x: nat, b: nat)
    requires Aligned(x, b) && !Aligned(x, b + 1)
    ensures Aligned(x + Pow2(b), b + 1)
  {
    if b > 0 {
      AlignedUp(x / 2, b - 1);
      assert (x + Pow2(b)) / 2 == x / 2 + Pow2(b - 1);
    } else {
      assert Low(x / 2, 0) == 0 && Low((x + 1) / 2, 0) == 0;
    }
  }

  /** An aligned chunk does not cross the top of the address space. */
  lemma AlignedBelowTop(x: nat, b: nat)
    requires b <= 64 && Aligned(x, b) && x < 0x1_0000_0000_0000_0000
    ensures x + Pow2(b) <= 0x1_0000_0000_0000_0000
  {
    Pow2Of64();
    AlignedBelow(x, b, 64);
  }

  lemma {:induction false} AlignedBelow(x: nat, b: nat, w: nat)
    requires b <= w && Aligned(x, b) && x < Pow2(w)
    ensures x + Pow2(b) <= Pow2(w)
  {
    if b > 0 {
      AlignedBelow(x / 2, b - 1, w - 1);
    }
  }

  lemma Pow2Of64()
    ensures Pow2(64) == 0x1_0000_0000_0000_0000
  {
    assert Pow2(8) == 0x100;
    assert Pow2(16) == 0x1_0000;
    assert Pow2(24) == 0x100_0000;
    assert Pow2(32) == 0x1_0000_0000;
    assert Pow2(40) == 0x100_0000_0000;
    assert Pow2(48) == 0x1_0000_0000_0000;
    assert Pow2(56) == 0x100_0000_0000_0000;
  }

  // ---- Leading zeros ----------------------------------------------------------------------

  /** One round of `clz64`: if the upper half of the focus has a bit, move it down. */
  method ClzRound(x: nat, count: nat, half: nat, ghost x0: nat) returns (x': nat, count': nat)
    requires half <= count <= 64 && x < Pow2(2 * half) && x == Shr(x0, 64 - count) && (x0 > 0 ==> x > 0)
    ensures x' < Pow2(half) && count - half <= count' <= count
    ensures x' == Shr(x0, 64 - count') && (x0 > 0 ==> x' > 0)
    ensures x == 0 ==> x' == 0 && count' == count
  {
    var mask := Pow2(half) - 1;
    var bits := if mask < x then half else 0;
    ShrSum(x0, 64 - count, half);
    ShrBound(x, half, half);
    if mask < x { ShrPositive(x, half); }
    x', count' := Shr(x, bits), count - bits;
  }

  /** `clz64` */
  method Clz64(x0: nat) returns (zeros: nat)
    requires x0 < 0x1_0000_0000_0000_0000
    ensures x0 == 0 ==> zeros == 64
    ensures x0 > 0 ==> zeros <= 63 && Pow2(63 - zeros) <= x0 < Pow2(64 - zeros)
  {
    var x, count := ClzToByte(x0);
    x, count := ClzRound(x, count, 4, x0);
    x, count := ClzRound(x, count, 2, x0);
    x, count := ClzRound(x, count, 1, x0);
    assert Pow2(1) == 2 * Pow2(0);
    if x == 1 { ShrToOne(x0, 64 - count); }
    zeros := count - x;
  }

  /** The first three rounds. */
  method ClzToByte(x0: nat) returns (x: nat, count: nat)
    requires x0 < 0x1_0000_0000_0000_0000
    ensures x < Pow2(8) && 8 <= count <= 64 && x == Shr(x0, 64 - count) && (x0 > 0 ==> x > 0)
    ensures x0 == 0 ==> x == 0 && count == 64
  {
    Pow2Of64();
    x, count := ClzRound(x0, 64, 32, x0);
    x, count := ClzRound(x, count, 16, x0);
    x, count := ClzRound(x, count, 8, x0);
  }

  // ---- Trailing zeros -----------------------------------------------------------------------

  /** One round of `ctz64`: if the lower half of the focus has no bit, drop it. */
  method CtzRound(x: nat, count: nat, half: nat, ghost x0: nat) returns (x': nat, count': nat)
    requires if x0 == 0 then x == 0 else x == Shr(x0, count) && Low(x0, count) == 0 && Low(x, 2 * half) != 0
    ensures count <= count' <= count + half
    ensures if x0 == 0 then x' == 0 && count' == count + half
            else x' == Shr(x0, count') && Low(x0, count') == 0 && Low(x', half) != 0
  {
    var bits := if Low(x, half) == 0 then half else 0;
    ShrSum(x0, count, half);
    LowZeroSplit(x0, count, half);
    LowZeroSplit(x, half, half);
    if x == 0 { ZeroShifted(half); }
    x', count' := Shr(x, bits), count + bits;
  }

  lemma {:induction false} ZeroShifted(k: nat)
    ensures Low(0, k) == 0 && Shr(0, k) == 0
  {
    if k > 0 {
      ZeroShifted(k - 1);
    }
  }

  /** `ctz64` */
  method Ctz64(x0: nat) returns (zeros: nat)
    requires x0 < 0x1_0000_0000_0000_0000
    ensures x0 == 0 ==> zeros == 64
    ensures x0 > 0 ==> zeros <= 63 && Aligned(x0, zeros) && !Aligned(x0, zeros + 1)
  {
    Pow2Of64();
    Small(x0, 64);
    var x, count := x0, if x0 == 0 then 1 else 0;
    x, count := CtzRound(x, count, 32, x0);
    x, count := CtzRound(x, count, 16, x0);
    x, count := CtzRound(x, count, 8, x0);
    x, count := CtzRound(x, count, 4, x0);
    x, count := CtzRound(x, count, 2, x0);
    x, count := CtzRound(x, count, 1, x0);
    LowZeroSplit(x0, count, 1);
    zeros := count;
  }
}
