/** Memory bookkeeping while the kernel boots: the reserved table and the free list. */
module BootMemory {
  import opened Regions
  import opened ReservedTable

  // ---- Adding a region to the table ------------------------------------------------

  /** The i-th region grown to take in reg, which touches it. */
  function Grown(rs: seq<Region>, i: nat, reg: Region): seq<Region>
    requires i < |rs|
  {
    rs[i := if rs[i].start == reg.end then Region(reg.start, rs[i].end) else Region(rs[i].start, reg.end)]
  }

  lemma GrownCovers(rs: seq<Region>, i: nat, reg: Region, x: int)
    requires i < |rs| && NonEmpty(rs) && reg.start < reg.end && (rs[i].start == reg.end || rs[i].end == reg.start)
    ensures Covers(Grown(rs, i, reg), x) <==> Covers(rs, x) || Has(reg, x)
    ensures NonEmpty(Grown(rs, i, reg))
  {
    var r := Grown(rs, i, reg)[i];
    CoversUpdate(rs, i, r, x);
    if Has(r, x) && !Has(reg, x) { assert Has(rs[i], x); }
  }

  lemma GrownOrdered(rs: seq<Region>, i: nat, reg: Region)
    requires i < |rs| && Separated(rs) && reg.start < reg.end && (rs[i].start == reg.end || rs[i].end == reg.start)
    requires ApartFromAll(reg, rs)
    ensures Ordered(Grown(rs, i, reg))
  {
    var t := Grown(rs, i, reg);
    forall p, q | 0 <= p < q < |t| ensures t[p].end <= t[q].start {
      assert Apart(reg, rs[p]) && Apart(reg, rs[q]);
    }
  }

  lemma PlacedCovers(rs: seq<Region>, i: nat, reg: Region, x: int)
    requires i <= |rs| && NonEmpty(rs) && reg.start < reg.end
    ensures Covers(rs[..i] + [reg] + rs[i..], x) <==> Covers(rs, x) || Has(reg, x)
    ensures NonEmpty(rs[..i] + [reg] + rs[i..])
  {
    CoversConcat(rs[..i] + [reg], rs[i..], x);
    CoversConcat(rs[..i], [reg], x);
    CoversConcat(rs[..i], rs[i..], x);
    assert rs[..i] + rs[i..] == rs;
    assert Covers([reg], x) <==> Has([reg][0], x);
  }

  /** Nothing before place i touches reg or lies above it, and what is at i lies above it with a gap. */
  predicate Place(rs: seq<Region>, i: nat, reg: Region)
  {
    && i <= |rs|
    && (forall k :: 0 <= k < i ==> rs[k].start != reg.end && rs[k].end != reg.start && rs[k].start <= reg.end)
    && (i < |rs| ==> rs[i].start > reg.end)
  }

  lemma PlacedSeparated(rs: seq<Region>, i: nat, reg: Region)
    requires Place(rs, i, reg) && Separated(rs) && reg.start < reg.end && ApartFromAll(reg, rs)
    ensures Separated(rs[..i] + [reg] + rs[i..])
  {
    var t := rs[..i] + [reg] + rs[i..];
    forall k | 0 <= k < |rs|
      ensures k < i ==> rs[k].end < reg.start
      ensures k >= i ==> reg.end < rs[k].start
    {
      assert Apart(reg, rs[k]);
      if k > i { assert rs[i].end < rs[k].start; }
    }
    forall p, q | 0 <= p < q < |t| ensures t[p].end < t[q].start {
      assert t[p] == if p < i then rs[p] else if p == i then reg else rs[p - 1];
      assert t[q] == if q < i then rs[q] else if q == i then reg else rs[q - 1];
    }
  }

  // ---- The boot state ----------------------------------------------------------------

  class Memory {
    const reserved: array<Region>
    const freemem: array<Region>
    const offset: nat          // kernel-virtual minus physical address
    var resvCount: nat
    ghost var lost: bool       // some region found no place in the table
    ghost var dropped: bool    // some region found no place in the free list

    constructor (maxReserved: nat, maxFree: nat, virtualOffset: nat)
      requires maxReserved > 0 && maxFree > 0
      ensures Valid() && Table() == [] && Holds([]) && !lost && fresh(reserved) && fresh(freemem)
      ensures reserved.Length == maxReserved && freemem.Length == maxFree && offset == virtualOffset
    {
      reserved, freemem := new Region[maxReserved](_ => Region(0, 0)), new Region[maxFree](_ => Region(0, 0));
      offset, resvCount, lost, dropped := virtualOffset, 0, false, false;
      new;
      assert Filled(0);
    }

    ghost predicate Valid()
      reads this, reserved
    {
      && reserved != freemem && resvCount < reserved.Length && NonEmpty(reserved[..resvCount])
      && (forall x :: Covers(reserved[..resvCount], x) ==> 0 <= x < 0xFFFF_FFFF_FFFF_FFFF)
    }

    /** Exactly the first n places of the free list are in use. */
    ghost predicate Filled(n: nat)
      reads freemem
    {
      && n <= freemem.Length
      && (forall k :: 0 <= k < n ==> 0 <= freemem[k].start < freemem[k].end < 0x1_0000_0000_0000_0000)
      && (forall k :: n <= k < freemem.Length ==> freemem[k] == Region(0, 0))
    }

    /** The list holds the regions found, as far as it goes; beyond that they were dropped. */
    ghost predicate Holds(found: seq<Region>)
      reads this`dropped, freemem
    {
      var n := if |found| < freemem.Length then |found| else freemem.Length;
      Filled(n) && freemem[..n] == found[..n] && (dropped <==> |found| > freemem.Length)
    }

    /** The reserved physical regions. */
    ghost function Table(): seq<Region>
      requires Valid()
      reads this, reserved
    {
      reserved[..resvCount]
    }

    /** `reserve_region` */
    method ReserveRegion(reg: Region) returns (ok: bool)
      requires Valid() && 0 <= reg.start <= reg.end < 0x1_0000_0000_0000_0000
      modifies this`resvCount, this`lost, reserved
      ensures Valid() && lost == (old(lost) || !ok)
      ensures ok ==> forall x :: Covers(Table(), x) <==> old(Covers(Table(), x)) || Has(reg, x)
      ensures ok && old(Separated(Table())) && ApartFromAll(reg, old(Table())) ==> Separated(Table())
      ensures !ok ==> Table() == old(Table()) && resvCount + 1 == reserved.Length
      ensures resvCount <= old(resvCount) + 1
    {
      if reg.start == reg.end {
        return true;
      }
      var i := 0;
      ghost var rs := Table();
      while i < resvCount
        invariant Valid() && Table() == rs && i <= resvCount && lost == old(lost)
        invariant forall k :: 0 <= k < i ==> rs[k].start != reg.end && rs[k].end != reg.start && rs[k].start <= reg.end
      {
        if reserved[i].start == reg.end || reserved[i].end == reg.start {
          Grow(i, reg);
          return true;
        }
        if reserved[i].start > reg.end {
          if resvCount + 1 >= reserved.Length {
            lost := true;
            return false;
          }
          Put(i, reg);
          return true;
        }
        i := i + 1;
      }
      if i + 1 == reserved.Length {
        lost := true;
        return false;
      }
      Put(i, reg);
      return true;
    }

    /** Extending the i-th region by one that touches it, downwards if possible, and merging. */
    method Grow(i: nat, reg: Region)
      requires Valid() && i < resvCount && 0 <= reg.start < reg.end < 0x1_0000_0000_0000_0000
      requires reserved[i].start == reg.end || reserved[i].end == reg.start
      modifies this`resvCount, reserved
      ensures Valid()
      ensures forall x :: Covers(Table(), x) <==> old(Covers(Table(), x)) || Has(reg, x)
      ensures old(Separated(Table())) && ApartFromAll(reg, old(Table())) ==> Separated(Table())
      ensures resvCount <= old(resvCount)
    {
      ghost var rs := Table();
      if reserved[i].start == reg.end {
        reserved[i] := Region(reg.start, reserved[i].end);
      } else {
        reserved[i] := Region(reserved[i].start, reg.end);
      }
      assert reserved[..resvCount] == Grown(rs, i, reg);
      forall x ensures Covers(Grown(rs, i, reg), x) <==> Covers(rs, x) || Has(reg, x) {
        GrownCovers(rs, i, reg, x);
      }
      GrownCovers(rs, i, reg, 0);
      if Separated(rs) && ApartFromAll(reg, rs) { GrownOrdered(rs, i, reg); }
      resvCount := MergeRegions(reserved, resvCount);
    }

    /** A new entry at place i. */
    method Put(i: nat, reg: Region)
      requires Valid() && Place(Table(), i, reg) && resvCount + 1 < reserved.Length
      requires 0 <= reg.start < reg.end < 0x1_0000_0000_0000_0000
      modifies this`resvCount, reserved
      ensures Valid()
      ensures forall x :: Covers(Table(), x) <==> old(Covers(Table(), x)) || Has(reg, x)
      ensures old(Separated(Table())) && ApartFromAll(reg, old(Table())) ==> Separated(Table())
      ensures resvCount == old(resvCount) + 1
    {
      ghost var rs := Table();
      InsertAt(reserved, i, resvCount, reg);
      resvCount := resvCount + 1;
      assert reserved[..resvCount] == rs[..i] + [reg] + rs[i..];
      forall x ensures Covers(reserved[..resvCount], x) <==> Covers(rs, x) || Has(reg, x) {
        PlacedCovers(rs, i, reg, x);
      }
      PlacedCovers(rs, i, reg, 0);
      if Separated(rs) && ApartFromAll(reg, rs) { PlacedSeparated(rs, i, reg); }
    }

    /**
      `insert_region`: the region goes to the first free place, and its physical
      addresses are reserved; whether that succeeded is not looked at.
     */
    method InsertRegion(reg: Region, ghost found: seq<Region>) returns (ok: bool)
      requires Valid() && Holds(found) && offset <= reg.start <= reg.end < 0x1_0000_0000_0000_0000
      modifies this`resvCount, this`lost, this`dropped, reserved, freemem
      ensures Valid() && dropped == (old(dropped) || !ok) && (old(lost) ==> lost)
      ensures reg.start == reg.end ==>
        ok && lost == old(lost) && Table() == old(Table()) && freemem[..] == old(freemem[..])
      ensures reg.start < reg.end ==> (ok <==> |found| < freemem.Length) && Holds(found + [reg])
      ensures forall x :: Covers(Table(), x) ==> old(Covers(Table(), x)) || Has(reg, x + offset)
      ensures ok && !lost ==> forall x :: old(Covers(Table(), x)) || Has(reg, x + offset) ==> Covers(Table(), x)
      ensures old(Separated(Table())) ==>
        ApartFromAll(Region(reg.start - offset, reg.end - offset), old(Table())) ==> Separated(Table())
      ensures old(resvCount) + 1 < reserved.Length ==> lost == old(lost)
      ensures resvCount <= old(resvCount) + 1
      ensures !ok ==> freemem[..] == old(freemem[..]) && Table() == old(Table()) && lost == old(lost)
    {
      if reg.start == reg.end {
        return true;
      }
      var i := FirstEmpty(freemem, if |found| < freemem.Length then |found| else freemem.Length);
      if i == freemem.Length {
        dropped := true;
        assert (found + [reg])[..i] == found[..i];
        return false;
      }
      var _ := ReserveRegion(Region(reg.start - offset, reg.end - offset));
      freemem[i] := reg;
      assert freemem[..i] == found;
      return true;
    }
  }

  /** The first empty place of an array whose used places come first. */
  method FirstEmpty(a: array<Region>, ghost n: nat) returns (i: nat)
    requires n <= a.Length
    requires forall k :: 0 <= k < n ==> a[k].start != a[k].end
    requires n < a.Length ==> a[n].start == a[n].end
    ensures i == n
  {
    i := 0;
    while i < a.Length && a[i].start != a[i].end
      invariant i <= n
    {
      i := i + 1;
    }
  }
}
