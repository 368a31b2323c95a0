/**
  Cutting a region of a 64-bit address space, wrapped or not, into aligned chunks
  whose sizes are powers of two.
 */
module Chunks {
  import opened Bits
  import opened WordBits
  import opened Regions

  datatype Chunk = Chunk(start: nat, bits: nat)

  // ---- Wrapped regions -----------------------------------------------------------------

  predicate Word(x: int) {
    0 <= x < 0x1_0000_0000_0000_0000
  }

  /** x - from in a word: how far above `from` the address x lies, going round at the top. */
  function Dist(x: int, from: int): int {
    if from <= x then x - from else x - from + 0x1_0000_0000_0000_0000
  }

  /** A sum of two words, kept to a word. */
  function Wrap(x: int): int {
    if x < 0x1_0000_0000_0000_0000 then x else x - 0x1_0000_0000_0000_0000
  }

  /** x is in the region, which goes round the top if its end is below its start. */
  predicate HasWrapped(r: Region, x: int) {
    Word(x) && Dist(x, r.start) < Dist(r.end, r.start)
  }

  predicate HasChunk(c: Chunk, x: int) {
    c.start <= x < c.start + Pow2(c.bits)
  }

  predicate InChunks(cs: seq<Chunk>, x: int) {
    exists k :: 0 <= k < |cs| && HasChunk(cs[k], x)
  }

  // ---- One chunk -----------------------------------------------------------------------

  /** The largest chunk for what is left: aligned, within the length, and of at most 2^max bytes. */
  predicate Largest(start: nat, length: nat, bits: nat, max: nat) {
    && bits <= max && Pow2(bits) <= length && Aligned(start, bits)
    && (bits < max && Pow2(bits + 1) <= length ==> !Aligned(start, bits + 1))
  }

  /** Where the next chunk begins. */
  function After(start: nat, bits: nat): nat {
    Wrap(start + Pow2(bits))
  }

  lemma AfterAligned(start: nat, bits: nat, b: nat)
    requires Word(start) && bits <= 63 && b <= 64 && Aligned(start, bits) && Aligned(start + Pow2(bits), b)
    ensures Aligned(After(start, bits), b)
    ensures
      || After(start, bits) == start + Pow2(bits)
      || (After(start, bits) == 0 && start + Pow2(bits) == 0x1_0000_0000_0000_0000)
  {
    AlignedBelowTop(start, bits);
    if After(start, bits) == 0 { ZeroAligned(b); }
  }

  lemma {:induction false} ZeroAligned(b: nat)
    ensures Aligned(0, b)
  {
    if b > 0 {
      ZeroAligned(b - 1);
    }
  }

  // ---- A whole cutting -------------------------------------------------------------------

  /** cs cuts off the front of what starts at `start` with `length`, and leaves what starts at `rest` with `left`. */
  predicate Cuts(cs: seq<Chunk>, start: nat, length: nat, rest: nat, left: nat, max: nat) {
    if cs == [] then rest == start && left == length
    else
      var c := cs[|cs| - 1];
      && Word(c.start)
      && Largest(c.start, left + Pow2(c.bits), c.bits, max)
      && rest == After(c.start, c.bits)
      && Cuts(cs[..|cs| - 1], start, length, c.start, left + Pow2(c.bits), max)
  }

  /** The part cut off is exactly covered, and the rest begins where it ends. */
  lemma {:induction false} CutsCover(cs: seq<Chunk>, start: nat, length: nat, rest: nat, left: nat, x: int, max: nat)
    requires max <= 63 && Word(start) && Word(x) && length < 0x1_0000_0000_0000_0000
    requires Cuts(cs, start, length, rest, left, max)
    ensures left <= length && Word(rest) && (left > 0 ==> Dist(rest, start) == length - left)
    ensures InChunks(cs, x) <==> Dist(x, start) < length - left
    decreases |cs|
  {
    if cs != [] {
      var init, c := cs[..|cs| - 1], cs[|cs| - 1];
      CutsCover(init, start, length, c.start, left + Pow2(c.bits), x, max);
      AlignedBelowTop(c.start, c.bits);
      LastChunk(init, c, x);
      assert cs == init + [c];
      CoverStep(c.start, Pow2(c.bits), start, length, left, x);
    }
  }

  lemma CoverStep(at: nat, size: nat, start: nat, length: nat, left: nat, x: int)
    requires Word(start) && Word(x) && Word(at) && size > 0 && at + size <= 0x1_0000_0000_0000_0000
    requires left + size <= length < 0x1_0000_0000_0000_0000 && Dist(at, start) == length - left - size
    ensures Word(Wrap(at + size))
    ensures Dist(Wrap(at + size), start) == length - left
    ensures Dist(x, start) < length - left <==> Dist(x, start) < length - left - size || at <= x < at + size
  {
    ChunkByDistance(at, size, start, length - left - size, x);
  }

  lemma LastChunk(init: seq<Chunk>, c: Chunk, x: int)
    ensures InChunks(init + [c], x) <==> InChunks(init, x) || HasChunk(c, x)
  {
    var cs := init + [c];
    if InChunks(init, x) {
      var k :| 0 <= k < |init| && HasChunk(init[k], x);
      assert HasChunk(cs[k], x);
    }
    if HasChunk(c, x) {
      assert HasChunk(cs[|init|], x);
    }
  }

  lemma ChunkByDistance(at: nat, size: nat, start: nat, d: nat, x: int)
    requires Word(start) && Word(x) && Word(at) && size > 0 && at + size <= 0x1_0000_0000_0000_0000
    requires Dist(at, start) == d && d + size < 0x1_0000_0000_0000_0000
    ensures at <= x < at + size <==> d <= Dist(x, start) < d + size
    ensures Dist(Wrap(at + size), start) == d + size
  {
  }

  /** Two chunks of a cutting have no address in common. */
  lemma {:induction false} CutsDisjoint(
    cs: seq<Chunk>, start: nat, length: nat, rest: nat, left: nat, i: nat, j: nat, x: int, max: nat)
    requires max <= 63 && Word(start) && Word(x) && length < 0x1_0000_0000_0000_0000
    requires Cuts(cs, start, length, rest, left, max)
    requires i < j < |cs|
    ensures !(HasChunk(cs[i], x) && HasChunk(cs[j], x))
    decreases |cs|
  {
    var init, c := cs[..|cs| - 1], cs[|cs| - 1];
    if j < |init| {
      CutsDisjoint(init, start, length, c.start, left + Pow2(c.bits), i, j, x, max);
    } else {
      CutsCover(init, start, length, c.start, left + Pow2(c.bits), x, max);
      AlignedBelowTop(c.start, c.bits);
      ChunkByDistance(c.start, Pow2(c.bits), start, length - left - Pow2(c.bits), x);
      if HasChunk(init[i], x) { assert InChunks(init, x); }
    }
  }

  /** Every chunk is aligned and within the limit. */
  lemma {:induction false} CutFits(
    cs: seq<Chunk>, start: nat, length: nat, rest: nat, left: nat, max: nat, i: nat)
    requires Cuts(cs, start, length, rest, left, max) && i < |cs|
    ensures cs[i].bits <= max && Aligned(cs[i].start, cs[i].bits)
    decreases |cs|
  {
    if i < |cs| - 1 {
      var c := cs[|cs| - 1];
      CutFits(cs[..|cs| - 1], start, length, c.start, left + Pow2(c.bits), max, i);
    }
  }

  /** The chunks of a complete cutting tile the region: every address in it is in a chunk, and none outside. */
  lemma CuttingTiles(cs: seq<Chunk>, r: Region, x: int, max: nat)
    requires max <= 63 && Word(r.start) && Word(r.end) && Word(x)
    requires Cuts(cs, r.start, Dist(r.end, r.start), r.end, 0, max)
    ensures InChunks(cs, x) <==> HasWrapped(r, x)
  {
    CutsCover(cs, r.start, Dist(r.end, r.start), r.end, 0, x, max);
  }

  // ---- No chunk is too small ---------------------------------------------------------------

  lemma {:induction false} CutsStayAligned(
    cs: seq<Chunk>, start: nat, length: nat, rest: nat, left: nat, b: nat, max: nat)
    requires b <= max <= 63 && Word(start) && Aligned(start, b) && Aligned(length, b)
    requires Cuts(cs, start, length, rest, left, max)
    ensures Aligned(rest, b) && Aligned(left, b)
    decreases |cs|
  {
    if cs != [] {
      var c := cs[|cs| - 1];
      CutsStayAligned(cs[..|cs| - 1], start, length, c.start, left + Pow2(c.bits), b, max);
      LargeEnough(c.start, left + Pow2(c.bits), c.bits, b, max);
      StaysAligned(c.start, left, c.bits, b);
    }
  }

  /** With both ends aligned, no chunk is smaller than the alignment. */
  lemma {:induction false} CutsLargeEnough(
    cs: seq<Chunk>, start: nat, length: nat, rest: nat, left: nat, b: nat, k: nat, max: nat)
    requires b <= max <= 63 && Word(start) && Aligned(start, b) && Aligned(length, b)
    requires Cuts(cs, start, length, rest, left, max)
    requires k < |cs|
    ensures cs[k].bits >= b
    decreases |cs|
  {
    var init, c := cs[..|cs| - 1], cs[|cs| - 1];
    if k < |init| {
      CutsLargeEnough(init, start, length, c.start, left + Pow2(c.bits), b, k, max);
    } else {
      CutsStayAligned(init, start, length, c.start, left + Pow2(c.bits), b, max);
      LargeEnough(c.start, left + Pow2(c.bits), c.bits, b, max);
    }
  }

  lemma LargeEnough(start: nat, length: nat, bits: nat, b: nat, max: nat)
    requires b <= max <= 63 && Aligned(start, b) && Aligned(length, b) && Largest(start, length, bits, max)
    ensures bits >= b
  {
    if bits < b {
      Pow2Monotone(bits + 1, b);
      AlignedAtLeast(length, b);
      AlignedDown(start, b, bits + 1);
    }
  }

  lemma StaysAligned(start: nat, left: nat, bits: nat, b: nat)
    requires Word(start) && b <= bits <= 63 && Aligned(start, bits) && Aligned(left + Pow2(bits), b)
    ensures Aligned(left, b) && Aligned(After(start, bits), b)
  {
    Pow2Aligned(bits, b);
    AlignedDown(start, bits, b);
    AlignedDifference(left + Pow2(bits), Pow2(bits), b);
    AlignedSum(start, Pow2(bits), b);
    AfterAligned(start, bits, b);
  }

  /** The distance between two aligned addresses is aligned, also round the top. */
  lemma AlignedDist(end: nat, start: nat, b: nat)
    requires b <= 64 && Word(start) && Word(end) && Aligned(start, b) && Aligned(end, b)
    ensures Dist(end, start) >= 0 && Aligned(Dist(end, start), b)
  {
    if start <= end {
      AlignedDifference(end, start, b);
    } else {
      Pow2Of64();
      Pow2Aligned(64, b);
      AlignedSum(end, 0x1_0000_0000_0000_0000, b);
      AlignedDifference(end + 0x1_0000_0000_0000_0000, start, b);
    }
  }

  /** With both ends of a region aligned, wrapped or not, none of its chunks is smaller than the alignment. */
  lemma CuttingLargeEnough(cs: seq<Chunk>, r: Region, b: nat, k: nat, max: nat)
    requires b <= max <= 63 && Word(r.start) && Word(r.end) && Aligned(r.start, b) && Aligned(r.end, b)
    requires Cuts(cs, r.start, Dist(r.end, r.start), r.end, 0, max) && k < |cs|
    ensures cs[k].bits >= b
  {
    AlignedDist(r.end, r.start, b);
    CutsLargeEnough(cs, r.start, Dist(r.end, r.start), r.end, 0, b, k, max);
  }

  // ---- How often a size occurs -----------------------------------------------------------------

  function Occurs(cs: seq<Chunk>, bits: nat): nat {
    if cs == [] then 0 else Occurs(cs[..|cs| - 1], bits) + (if cs[|cs| - 1].bits == bits then 1 else 0)
  }

  predicate OccurAtMost(cs: seq<Chunk>, below: nat, times: nat) {
    forall b :: 0 <= b < below ==> Occurs(cs, b) <= times
  }

  /**
    Sizes rise while alignment limits them, stay at the largest, then fall while
    the length limits them; m is the last size.
   */
  predicate Rising(cs: seq<Chunk>, rest: nat, m: nat, max: nat) {
    && m < max && Aligned(rest, m + 1) && OccurAtMost(cs, max, 1)
    && (forall b :: m < b < max ==> Occurs(cs, b) == 0)
  }

  predicate Level(cs: seq<Chunk>, rest: nat, m: nat, max: nat) {
    m == max && Aligned(rest, max) && OccurAtMost(cs, max, 1)
  }

  predicate Falling(cs: seq<Chunk>, rest: nat, left: nat, m: nat, max: nat) {
    m <= max && Aligned(rest, m) && left < Pow2(m) && OccurAtMost(cs, m, 1) && OccurAtMost(cs, max, 2)
  }

  predicate Profile(cs: seq<Chunk>, rest: nat, left: nat, max: nat) {
    cs != [] ==>
      var m := cs[|cs| - 1].bits;
      Rising(cs, rest, m, max) || Level(cs, rest, m, max) || Falling(cs, rest, left, m, max)
  }

  lemma {:induction false} CutsProfile(cs: seq<Chunk>, start: nat, length: nat, rest: nat, left: nat, max: nat)
    requires max <= 63 && Word(start) && Cuts(cs, start, length, rest, left, max)
    ensures Profile(cs, rest, left, max)
    decreases |cs|
  {
    if cs != [] {
      var init, c := cs[..|cs| - 1], cs[|cs| - 1];
      CutsProfile(init, start, length, c.start, left + Pow2(c.bits), max);
      assert forall b :: 0 <= b <= max ==> Occurs(cs, b) == Occurs(init, b) + (if c.bits == b then 1 else 0);
      if init == [] || (Rising(init, c.start, init[|init| - 1].bits, max) && c.bits > init[|init| - 1].bits) {
        AfterRise(init, cs, c, rest, left, max);
      } else if Level(init, c.start, init[|init| - 1].bits, max) && c.bits == max {
        AfterLevel(init, cs, c, rest, left, max);
      } else {
        AfterFall(init, cs, c, rest, left, max);
      }
    }
  }

  predicate OneMore(init: seq<Chunk>, cs: seq<Chunk>, c: Chunk, rest: nat, left: nat, max: nat) {
    && cs != [] && cs[|cs| - 1] == c
    && Word(c.start) && Largest(c.start, left + Pow2(c.bits), c.bits, max) && rest == After(c.start, c.bits)
    && (forall b :: 0 <= b <= max ==> Occurs(cs, b) == Occurs(init, b) + (if c.bits == b then 1 else 0))
  }

  /** A size that has not occurred yet. */
  lemma AfterRise(init: seq<Chunk>, cs: seq<Chunk>, c: Chunk, rest: nat, left: nat, max: nat)
    requires max <= 63 && OneMore(init, cs, c, rest, left, max) && OccurAtMost(init, max, 1)
    requires forall b :: c.bits <= b < max ==> Occurs(init, b) == 0
    ensures Profile(cs, rest, left, max)
  {
    AlignedRest(c, rest, c.bits);
    if c.bits < max && Pow2(c.bits + 1) <= left + Pow2(c.bits) {
      AlignedUp(c.start, c.bits);
      AfterAligned(c.start, c.bits, c.bits + 1);
      assert Rising(cs, rest, c.bits, max);
    } else if c.bits < max {
      assert Pow2(c.bits + 1) == 2 * Pow2(c.bits);
      assert Falling(cs, rest, left, c.bits, max);
    }
  }

  lemma AlignedRest(c: Chunk, rest: nat, b: nat)
    requires Word(c.start) && b <= c.bits <= 63 && Aligned(c.start, c.bits) && rest == After(c.start, c.bits)
    ensures Aligned(rest, b)
  {
    Pow2Aligned(c.bits, c.bits);
    AlignedSum(c.start, Pow2(c.bits), c.bits);
    AfterAligned(c.start, c.bits, c.bits);
    AlignedDown(rest, c.bits, b);
  }

  lemma AfterLevel(init: seq<Chunk>, cs: seq<Chunk>, c: Chunk, rest: nat, left: nat, max: nat)
    requires max <= 63 && OneMore(init, cs, c, rest, left, max) && OccurAtMost(init, max, 1) && c.bits == max
    ensures Profile(cs, rest, left, max)
  {
    AlignedRest(c, rest, max);
  }

  /** A chunk that alignment does not limit leaves less than its own size. */
  lemma AfterFall(init: seq<Chunk>, cs: seq<Chunk>, c: Chunk, rest: nat, left: nat, max: nat)
    requires max <= 63 && OneMore(init, cs, c, rest, left, max) && init != []
    requires Profile(init, c.start, left + Pow2(c.bits), max)
    requires var m := init[|init| - 1].bits;
      !(Rising(init, c.start, m, max) && c.bits > m) && !(Level(init, c.start, m, max) && c.bits == max)
    ensures Profile(cs, rest, left, max)
  {
    var m := init[|init| - 1].bits;
    if Falling(init, c.start, left + Pow2(c.bits), m, max) && c.bits >= m {
      Pow2Monotone(m, c.bits);
      assert false;
    }
    assert c.bits < max && OccurAtMost(init, c.bits, 1) && Occurs(init, c.bits) <= 1;
    AlignedDown(c.start, if Rising(init, c.start, m, max) then m + 1 else m, c.bits + 1);
    assert Pow2(c.bits + 1) == 2 * Pow2(c.bits);
    assert left < Pow2(c.bits);
    AlignedRest(c, rest, c.bits);
    assert Falling(cs, rest, left, c.bits, max);
  }

  /** Every size below the largest occurs at most twice. */
  lemma SizesAtMostTwice(cs: seq<Chunk>, start: nat, length: nat, rest: nat, left: nat, bits: nat, max: nat)
    requires max <= 63 && Word(start) && Cuts(cs, start, length, rest, left, max) && bits < max
    ensures Occurs(cs, bits) <= 2
  {
    CutsProfile(cs, start, length, rest, left, max);
  }
}
