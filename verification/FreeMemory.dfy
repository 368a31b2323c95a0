/** `init_freemem`: the free list, and the block for the root server's objects cut out of it. */
module FreeMemory {
  import opened Bits
  import opened WordBits
  import opened Regions
  import opened Sweep
  import opened BootMemory

  // ---- The checks on the inputs ------------------------------------------------------

  /** `check_available_memory` */
  method CheckAvailable(available: seq<Region>) returns (ok: bool)
    ensures ok <==> available != [] && Ordered(available)
  {
    if |available| == 0 {
      return false;
    }
    var i := 0;
    while i < |available|
      invariant 0 <= i <= |available| && Ordered(available[..i])
    {
      if available[i].start > available[i].end || available[i].start == available[i].end {
        return false;
      }
      if i > 0 && available[i].start < available[i - 1].end {
        return false;
      }
      OneMoreOrdered(available, i);
      i := i + 1;
    }
    assert available[..i] == available;
    return true;
  }

  lemma OneMoreOrdered(rs: seq<Region>, i: nat)
    requires i < |rs| && Ordered(rs[..i]) && rs[i].start < rs[i].end && (i > 0 ==> rs[i - 1].end <= rs[i].start)
    ensures Ordered(rs[..i + 1])
  {
    forall p, q | 0 <= p < q < i + 1 ensures rs[p].end <= rs[q].start {
      if q < i {
        assert rs[..i][p].end <= rs[..i][q].start;
      } else if p < i - 1 {
        assert rs[..i][p].end <= rs[..i][i - 1].start && rs[..i][i - 1].start < rs[..i][i - 1].end;
      }
    }
    assert forall p :: 0 <= p < i ==> rs[..i][p] == rs[p];
  }

  /** `check_reserved_memory` */
  method CheckReserved(reserved: seq<Region>) returns (ok: bool)
    ensures ok <==> Sorted(reserved)
  {
    var i := 0;
    while i < |reserved|
      invariant 0 <= i <= |reserved| && Sorted(reserved[..i])
    {
      if reserved[i].start > reserved[i].end {
        return false;
      }
      if i > 0 && reserved[i].start < reserved[i - 1].end {
        return false;
      }
      OneMoreSorted(reserved, i);
      i := i + 1;
    }
    assert reserved[..i] == reserved;
    return true;
  }

  lemma OneMoreSorted(rs: seq<Region>, i: nat)
    requires i < |rs| && Sorted(rs[..i]) && rs[i].start <= rs[i].end && (i > 0 ==> rs[i - 1].end <= rs[i].start)
    ensures Sorted(rs[..i + 1])
  {
    forall p, q | 0 <= p < q < i + 1 ensures rs[p].end <= rs[q].start {
      if q < i {
        assert rs[..i][p].end <= rs[..i][q].start;
      } else if p < i - 1 {
        assert rs[..i][p].end <= rs[..i][i - 1].start && rs[..i][i - 1].start <= rs[..i][i - 1].end;
      }
    }
    assert forall p :: 0 <= p < i ==> rs[..i][p] == rs[p];
  }

  // ---- Into the kernel window --------------------------------------------------------

  /** The kernel-virtual address of a physical one, in 64 bits. */
  function ToVirtual(p: int, offset: nat): int {
    (p + offset) % 0x1_0000_0000_0000_0000
  }

  /** `ceiling_kernel_window`, for a window that ends at physical address `top` */
  function Ceiling(v: int, offset: nat, top: nat): int {
    if (v - offset) % 0x1_0000_0000_0000_0000 > top then top + offset else v
  }

  /** Comparing physical addresses makes the ceiling right even where the virtual address wrapped. */
  lemma CeilingExact(p: nat, offset: nat, top: nat)
    requires p < 0x1_0000_0000_0000_0000 && offset + top < 0x1_0000_0000_0000_0000
    ensures Ceiling(ToVirtual(p, offset), offset, top) == (if p < top then p else top) + offset
  {
  }

  /** The part of a physical region inside the window, at its kernel-virtual address. */
  function Clipped(r: Region, offset: nat, top: nat): Region {
    Region((if r.start < top then r.start else top) + offset, (if r.end < top then r.end else top) + offset)
  }

  function ClippedAll(rs: seq<Region>, offset: nat, top: nat): (s: seq<Region>)
    ensures |s| == |rs| && forall i :: 0 <= i < |rs| ==> s[i] == Clipped(rs[i], offset, top)
  {
    seq(|rs|, i requires 0 <= i < |rs| => Clipped(rs[i], offset, top))
  }

  method ConvertAvailable(available: seq<Region>, avail: array<Region>, offset: nat, top: nat)
    requires |available| <= avail.Length && offset + top < 0x1_0000_0000_0000_0000
    requires forall i :: 0 <= i < |available| ==>
      0 <= available[i].start < 0x1_0000_0000_0000_0000 && 0 <= available[i].end < 0x1_0000_0000_0000_0000
    modifies avail
    ensures avail[..|available|] == ClippedAll(available, offset, top)
  {
    var i := 0;
    while i < |available|
      invariant 0 <= i <= |available|
      invariant forall k :: 0 <= k < i ==> avail[k] == Clipped(available[k], offset, top)
    {
      CeilingExact(available[i].start, offset, top);
      CeilingExact(available[i].end, offset, top);
      var r := Region(ToVirtual(available[i].start, offset), ToVirtual(available[i].end, offset));
      avail[i] := Region(Ceiling(r.start, offset, top), Ceiling(r.end, offset, top));
      i := i + 1;
    }
  }

  // ---- What the reserved table knows ---------------------------------------------------

  /** What the table held before, the free regions found and the reserved regions passed. */
  predicate ToNote(before: seq<Region>, offset: nat, free: seq<Region>, passed: seq<Region>, x: int) {
    Covers(before, x) || Covers(free, x + offset) || Covers(passed, x + offset)
  }

  /** The table holds nothing else, and if it is complete, all of that. */
  ghost predicate Noted(
    before: seq<Region>, now: seq<Region>, offset: nat, free: seq<Region>, passed: seq<Region>, complete: bool)
  {
    && (forall x :: Covers(now, x) ==> ToNote(before, offset, free, passed, x))
    && (complete ==> forall x :: ToNote(before, offset, free, passed, x) ==> Covers(now, x))
  }

  /** What was reserved before is neither available nor to be reserved again. */
  ghost predicate Clear(before: seq<Region>, offset: nat, avail: seq<Region>, reserved: seq<Region>) {
    forall x :: Covers(before, x) ==> !Covers(avail, x + offset) && !Covers(reserved, x + offset)
  }

  /** The table knows of what the pass has found and passed, of all if it is complete, and is as tidy as it was. */
  ghost predicate Tidy(
    before: seq<Region>, now: seq<Region>, offset: nat, avail: seq<Region>, reserved: seq<Region>, p: Pass,
    complete: bool)
    requires p.r <= |reserved|
  {
    && NonEmpty(now)
    && Noted(before, now, offset, p.free, reserved[..p.r], complete)
    && (Separated(before) && Clear(before, offset, avail, reserved) ==> Separated(now))
  }

  lemma DisjointApart(rs: seq<Region>, r: Region)
    requires NonEmpty(rs) && r.start < r.end && forall x :: Has(r, x) ==> !Covers(rs, x)
    ensures ApartFromAll(r, rs)
  {
    forall i | 0 <= i < |rs| ensures Apart(r, rs[i]) {
      var x := if r.start < rs[i].start then rs[i].start else r.start;
      if !Apart(r, rs[i]) {
        assert Has(rs[i], x) && Has(r, x);
      }
    }
  }

  lemma PrefixCovers(rs: seq<Region>, n: nat, y: int)
    requires n <= |rs|
    ensures Covers(rs[..n], y) ==> Covers(rs, y)
  {
    CoversConcat(rs[..n], rs[n..], y);
    assert rs[..n] + rs[n..] == rs;
  }

  lemma PrefixBelow(rs: seq<Region>, n: nat, y: int)
    requires n < |rs| && Sorted(rs) && Has(rs[n], y)
    ensures !Covers(rs[..n], y)
  {
  }

  /** A newly found free region is not in the table yet. */
  lemma FreshFree(
    before: seq<Region>, now: seq<Region>, offset: nat,
    avail: seq<Region>, reserved: seq<Region>, p: Pass, end: int, complete: bool)
    requires Sorted(reserved) && Inv(avail, reserved, p) && Tidy(before, now, offset, avail, reserved, p, complete)
    requires p.a < |avail| && Clear(before, offset, avail, reserved)
    requires p.start < end <= avail[p.a].end && (p.r < |reserved| ==> end <= reserved[p.r].start)
    ensures ApartFromAll(Region(p.start - offset, end - offset), now)
  {
    FreeUpTo(avail, reserved, p, end);
    forall x | p.start <= x + offset < end ensures !Covers(now, x) {
      assert Has(avail[p.a], x + offset);
      assert !Covers(p.free, x + offset);
      PrefixCovers(reserved, p.r, x + offset);
    }
    DisjointApart(now, Region(p.start - offset, end - offset));
  }

  /** The next reserved region is not in the table yet. */
  lemma FreshReserved(
    before: seq<Region>, now: seq<Region>, offset: nat, avail: seq<Region>, reserved: seq<Region>, p: Pass,
    complete: bool)
    requires Sorted(reserved) && Inv(avail, reserved, p) && p.r < |reserved|
    requires Tidy(before, now, offset, avail, reserved, p, complete)
    requires Clear(before, offset, avail, reserved) && reserved[p.r].start < reserved[p.r].end
    ensures ApartFromAll(Region(reserved[p.r].start - offset, reserved[p.r].end - offset), now)
  {
    forall x | Has(reserved[p.r], x + offset) ensures !Covers(now, x) {
      assert Covers(reserved, x + offset);
      PrefixBelow(reserved, p.r, x + offset);
    }
    DisjointApart(now, Region(reserved[p.r].start - offset, reserved[p.r].end - offset));
  }

  /** From now on the table is complete only if it was, and holds m too. */
  ghost predicate Grows(
    now: seq<Region>, now': seq<Region>, offset: nat, m: Region, complete: bool, complete': bool)
  {
    && (forall x :: Covers(now', x) ==> Covers(now, x) || Has(m, x + offset))
    && (complete' ==> complete && forall x :: Covers(now, x) || Has(m, x + offset) ==> Covers(now', x))
  }

  lemma NotedFree(
    before: seq<Region>, now: seq<Region>, now': seq<Region>, offset: nat,
    free: seq<Region>, passed: seq<Region>, m: Region, complete: bool, complete': bool)
    requires Noted(before, now, offset, free, passed, complete) && Grows(now, now', offset, m, complete, complete')
    ensures Noted(before, now', offset, free + [m], passed, complete')
  {
    forall y ensures Covers(free + [m], y) <==> Covers(free, y) || Has(m, y) {
      CoversConcat(free, [m], y);
      assert Covers([m], y) <==> Has([m][0], y);
    }
  }

  lemma NotedReserved(
    before: seq<Region>, now: seq<Region>, now': seq<Region>, offset: nat,
    free: seq<Region>, reserved: seq<Region>, r: nat, complete: bool, complete': bool)
    requires r < |reserved| && Noted(before, now, offset, free, reserved[..r], complete)
    requires Grows(now, now', offset, reserved[r], complete, complete')
    ensures Noted(before, now', offset, free, reserved[..r + 1], complete')
  {
    assert reserved[..r + 1] == reserved[..r] + [reserved[r]];
    forall y ensures Covers(reserved[..r + 1], y) <==> Covers(reserved[..r], y) || Has(reserved[r], y) {
      CoversConcat(reserved[..r], [reserved[r]], y);
      assert Covers([reserved[r]], y) <==> Has([reserved[r]][0], y);
    }
  }

  // ---- The pass over both lists --------------------------------------------------------

  /** The regions lie above the bottom of the kernel window, and their addresses fit a word. */
  predicate InWindow(rs: seq<Region>, offset: nat) {
    forall i :: 0 <= i < |rs| ==> offset <= rs[i].start && rs[i].end < 0x1_0000_0000_0000_0000
  }

  /** Nothing that was found is missing from the table. */
  ghost predicate Complete(mem: Memory)
    reads mem
  {
    !mem.lost && !mem.dropped
  }

  /** The free list holds what the pass found; unless something was lost, the table knows it. */
  ghost predicate Current(mem: Memory, before: seq<Region>, avail: seq<Region>, reserved: seq<Region>, p: Pass)
    requires mem.Valid()
    reads mem, mem.reserved, mem.freemem
  {
    var current :=
      && Inv(avail, reserved, p)
      && mem.Holds(p.free)
      && mem.resvCount <= |before| + |p.free| + p.r
      && Tidy(before, mem.Table(), mem.offset, avail, reserved, p, Complete(mem));
    current
  }

  /** How many free regions there can be: each ends where an available one ends or a reserved one begins. */
  predicate Few(avail: seq<Region>, reserved: seq<Region>, p: Pass) {
    |p.free| <= p.a + p.r + (if p.a < |avail| && p.r < |reserved| && reserved[p.r].end <= p.start then 1 else 0)
  }

  /** The table is large enough for whatever the pass can find. */
  predicate RoomyTable(mem: Memory, before: seq<Region>, avail: seq<Region>, reserved: seq<Region>) {
    |before| + |avail| + 2 * |reserved| + 1 < mem.reserved.Length
  }

  /** And so is the list. */
  predicate Roomy(mem: Memory, before: seq<Region>, avail: seq<Region>, reserved: seq<Region>) {
    RoomyTable(mem, before, avail, reserved) && |avail| + |reserved| < mem.freemem.Length
  }

  /** With the reserved region entered, or lost, the pass can leave it behind. */
  lemma StillTidy(
    before: seq<Region>, now: seq<Region>, now': seq<Region>, offset: nat, avail: seq<Region>, reserved: seq<Region>,
    p: Pass, complete: bool, complete': bool)
    requires Sorted(avail) && Sorted(reserved) && Inv(avail, reserved, p) && p.r < |reserved|
    requires reserved[p.r].start < reserved[p.r].end && (p.a < |avail| ==> reserved[p.r].end <= p.start)
    requires Tidy(before, now, offset, avail, reserved, p, complete) && NonEmpty(now')
    requires Grows(now, now', offset, reserved[p.r], complete, complete')
    requires Separated(now) && ApartFromAll(Region(reserved[p.r].start - offset, reserved[p.r].end - offset), now) ==>
      Separated(now')
    ensures Inv(avail, reserved, p.(r := p.r + 1))
    ensures Tidy(before, now', offset, avail, reserved, p.(r := p.r + 1), complete')
  {
    if p.a < |avail| { PassReserved(avail, reserved, p); } else { PassLastReserved(avail, reserved, p); }
    if Clear(before, offset, avail, reserved) { FreshReserved(before, now, offset, avail, reserved, p, complete); }
    NotedReserved(before, now, now', offset, p.free, reserved, p.r, complete, complete');
  }

  /** Reserving the region the pass is about to leave behind. */
  method Note(
    mem: Memory, ghost before: seq<Region>, ghost avail: seq<Region>, reserved: seq<Region>, r: nat, ghost p: Pass)
    requires mem.Valid() && Sorted(avail) && Sorted(reserved) && InWindow(reserved, mem.offset)
    requires r < |reserved| && reserved[r].start < reserved[r].end
    requires Current(mem, before, avail, reserved, p) && p.r == r
    requires p.a < |avail| ==> reserved[r].end <= p.start
    modifies mem`resvCount, mem`lost, mem.reserved
    ensures mem.Valid() && (old(mem.lost) ==> mem.lost)
    ensures Current(mem, before, avail, reserved, p.(r := r + 1))
    ensures old(mem.resvCount) + 1 < mem.reserved.Length ==> mem.lost == old(mem.lost)
  {
    ghost var now, complete := mem.Table(), Complete(mem);
    var _ := mem.ReserveRegion(Region(reserved[r].start - mem.offset, reserved[r].end - mem.offset));
    StillTidy(before, now, mem.Table(), mem.offset, avail, reserved, p, complete, Complete(mem));
  }

  /** Adding the free part of the available region up to `end` to the list. */
  method Found(
    mem: Memory, ghost before: seq<Region>, ghost avail: seq<Region>, ghost reserved: seq<Region>,
    start: int, end: int, ghost p: Pass)
    requires mem.Valid() && Sorted(reserved) && mem.offset <= start < end < 0x1_0000_0000_0000_0000
    requires Current(mem, before, avail, reserved, p) && p.start == start && p.a < |avail| && end <= avail[p.a].end
    requires p.r < |reserved| ==> end <= reserved[p.r].start
    requires end == avail[p.a].end || Covers(reserved, end)
    modifies mem`resvCount, mem`lost, mem`dropped, mem.reserved, mem.freemem
    ensures mem.Valid() && (old(mem.lost) ==> mem.lost)
    ensures Current(mem, before, avail, reserved, p.(start := end, free := p.free + [Region(start, end)]))
    ensures old(mem.resvCount) + 1 < mem.reserved.Length ==> mem.lost == old(mem.lost)
  {
    ghost var now, complete := mem.Table(), Complete(mem);
    var ok := mem.InsertRegion(Region(start, end), p.free);
    Take(avail, reserved, p, end);
    if Clear(before, mem.offset, avail, reserved) {
      FreshFree(before, now, mem.offset, avail, reserved, p, end, complete);
    }
    ghost var passed := reserved[..p.r];
    NotedFree(before, now, mem.Table(), mem.offset, p.free, passed, Region(start, end), complete, Complete(mem));
  }

  /** All that is left of the available region is free. */
  method FoundWhole(
    mem: Memory, ghost before: seq<Region>, ghost avail: seq<Region>, ghost reserved: seq<Region>,
    left: Region, ghost p0: Pass)
    returns (ghost p: Pass)
    requires mem.Valid() && Sorted(avail) && Sorted(reserved)
    requires mem.offset <= left.start < left.end < 0x1_0000_0000_0000_0000
    requires Current(mem, before, avail, reserved, p0) && p0.a < |avail|
    requires left == Region(p0.start, avail[p0.a].end) && (p0.r < |reserved| ==> left.end <= reserved[p0.r].start)
    modifies mem`resvCount, mem`lost, mem`dropped, mem.reserved, mem.freemem
    ensures mem.Valid() && (old(mem.lost) ==> mem.lost)
    ensures Current(mem, before, avail, reserved, p)
    ensures p.a == p0.a + 1 && p.r == p0.r && p.start == StartOf(avail, p.a) && |p.free| == |p0.free| + 1
    ensures old(mem.resvCount) + 1 < mem.reserved.Length ==> mem.lost == old(mem.lost)
  {
    Found(mem, before, avail, reserved, left.start, left.end, p0);
    p := p0.(start := left.end, free := p0.free + [left]);
    DropRest(avail, reserved, p);
    p := p.(a := p.a + 1, start := StartOf(avail, p.a + 1));
  }

  /** Where the loops stand: region a is trimmed to what is left of it, later ones are untouched. */
  ghost predicate Trimmed(was: seq<Region>, avail: array<Region>, a: nat)
    requires |was| <= avail.Length
    reads avail
  {
    && a <= |was|
    && (forall k :: a < k < |was| ==> avail[k] == was[k])
    && (a < |was| ==> avail[a].end == was[a].end && was[a].start <= avail[a].start <= was[a].end)
  }

  /** The free list and the table agree with the pass, which stands at a and r. */
  ghost predicate Stands(
    mem: Memory, before: seq<Region>, was: seq<Region>, avail: array<Region>, a: nat,
    reserved: seq<Region>, r: nat, p: Pass)
    requires mem.Valid() && |was| <= avail.Length
    reads mem, mem.reserved, mem.freemem, avail
  {
    && Trimmed(was, avail, a) && r <= |reserved|
    && Current(mem, before, was, reserved, p) && p.a == a && p.r == r && Few(was, reserved, p)
    && (a < |was| ==> p.start == avail[a].start)
  }

  /** What was lost stays lost, and with enough room in the table nothing more gets lost. */
  twostate predicate Kept(mem: Memory, before: seq<Region>, was: seq<Region>, reserved: seq<Region>)
    reads mem
  {
    && (old(mem.lost) ==> mem.lost)
    && (RoomyTable(mem, before, was, reserved) ==> mem.lost == old(mem.lost))
  }

  /** Leaving the available region at a: what is left of it lies below the next reserved region, or is empty. */
  method TakeOne(
    mem: Memory, ghost before: seq<Region>, ghost was: seq<Region>, avail: array<Region>, a: nat,
    ghost reserved: seq<Region>, ghost r: nat, ghost p0: Pass)
    returns (ghost p: Pass)
    requires mem.Valid() && avail != mem.reserved && avail != mem.freemem
    requires a < |was| <= avail.Length && Sorted(was) && Sorted(reserved) && InWindow(was, mem.offset)
    requires Stands(mem, before, was, avail, a, reserved, r, p0)
    requires r < |reserved| && avail[a].start < avail[a].end ==>
      avail[a].end <= reserved[r].start < reserved[r].end
    modifies mem`resvCount, mem`lost, mem`dropped, mem.reserved, mem.freemem
    ensures mem.Valid() && Kept(mem, before, was, reserved)
    ensures Stands(mem, before, was, avail, a + 1, reserved, r, p)
  {
    p := p0;
    assert was[a].end == avail[a].end;
    if avail[a].start < avail[a].end {
      p := FoundWhole(mem, before, was, reserved, avail[a], p);
    } else {
      DropRest(was, reserved, p);
      p := p.(a := a + 1, start := StartOf(was, a + 1));
    }
  }

  /** Leaving the reserved region at r: it is empty, or lies below what is left of the available ones. */
  method NoteOne(
    mem: Memory, ghost before: seq<Region>, ghost was: seq<Region>, ghost avail: array<Region>, ghost a: nat,
    reserved: seq<Region>, r: nat, ghost p0: Pass)
    returns (ghost p: Pass)
    requires mem.Valid() && Sorted(was) && Sorted(reserved) && InWindow(reserved, mem.offset) && r < |reserved|
    requires avail != mem.reserved && avail != mem.freemem && |was| <= avail.Length
    requires Stands(mem, before, was, avail, a, reserved, r, p0)
    requires a == |was| || reserved[r].start == reserved[r].end || reserved[r].end <= avail[a].start
    modifies mem`resvCount, mem`lost, mem.reserved
    ensures mem.Valid() && Kept(mem, before, was, reserved)
    ensures Stands(mem, before, was, avail, a, reserved, r + 1, p)
  {
    p := p0.(r := r + 1);
    if reserved[r].start < reserved[r].end {
      Note(mem, before, was, reserved, r, p0);
    } else {
      SkipEmpty(mem, before, was, reserved, p0);
    }
  }

  /** How much is left to do. */
  ghost function Left(avail: array<Region>, a: nat, count: nat): int
    requires count <= avail.Length
    reads avail
  {
    if a < count then avail[a].end - avail[a].start else 0
  }

  /**
    The main loop.  Where a reserved region overlaps an available one neither
    index moves; what is left of the available region shrinks instead.
   */
  method SubtractReserved(mem: Memory, avail: array<Region>, count: nat, reserved: seq<Region>)
    returns (a: nat, r: nat, ghost p: Pass)
    requires mem.Valid() && mem.Holds([])
    requires count <= avail.Length && avail != mem.reserved && avail != mem.freemem
    requires Sorted(avail[..count]) && Sorted(reserved)
    requires InWindow(avail[..count], mem.offset) && InWindow(reserved, mem.offset)
    modifies mem`resvCount, mem`lost, mem`dropped, mem.reserved, mem.freemem, avail
    ensures mem.Valid() && Kept(mem, old(mem.Table()), old(avail[..count]), reserved)
    ensures Stands(mem, old(mem.Table()), old(avail[..count]), avail, a, reserved, r, p)
    ensures a == count || r == |reserved|
  {
    ghost var before, was := mem.Table(), avail[..count];
    a, r := 0, 0;
    p := Pass(0, 0, StartOf(was, 0), []);
    Begin(was, reserved);
    while a < count && r < |reserved|
      invariant mem.Valid() && Kept(mem, before, was, reserved)
      invariant Stands(mem, before, was, avail, a, reserved, r, p)
      decreases count - a + |reserved| - r, Left(avail, a, count)
    {
      a, r, p := SubtractStep(mem, before, was, avail, a, reserved, r, p);
    }
  }

  /** One turn of the loop. */
  method SubtractStep(
    mem: Memory, ghost before: seq<Region>, ghost was: seq<Region>, avail: array<Region>, a0: nat,
    reserved: seq<Region>, r0: nat, ghost p0: Pass)
    returns (a: nat, r: nat, ghost p: Pass)
    requires mem.Valid() && avail != mem.reserved && avail != mem.freemem
    requires |was| <= avail.Length && Sorted(was) && Sorted(reserved)
    requires InWindow(was, mem.offset) && InWindow(reserved, mem.offset)
    requires Stands(mem, before, was, avail, a0, reserved, r0, p0) && a0 < |was| && r0 < |reserved|
    modifies mem`resvCount, mem`lost, mem`dropped, mem.reserved, mem.freemem, avail
    ensures mem.Valid() && Kept(mem, before, was, reserved)
    ensures Stands(mem, before, was, avail, a, reserved, r, p)
    ensures a + r == a0 + r0 + 1 || (a == a0 && r == r0 && 0 <= Left(avail, a, |was|) < old(Left(avail, a0, |was|)))
  {
    a, r, p := a0, r0, p0;
    assert was[a].end == avail[a].end;
    if reserved[r].start == reserved[r].end {
      p := NoteOne(mem, before, was, avail, a, reserved, r, p);
      r := r + 1;
    } else if avail[a].start >= avail[a].end {
      p := TakeOne(mem, before, was, avail, a, reserved, r, p);
      a := a + 1;
    } else if reserved[r].end <= avail[a].start {
      p := NoteOne(mem, before, was, avail, a, reserved, r, p);
      r := r + 1;
    } else if reserved[r].start >= avail[a].end {
      p := TakeOne(mem, before, was, avail, a, reserved, r, p);
      a := a + 1;
    } else {
      a, p := Overlap(mem, before, was, avail, a, reserved, r, p);
    }
  }

  /** The step where the reserved region overlaps what is left of the available one. */
  method Overlap(
    mem: Memory, ghost before: seq<Region>, ghost was: seq<Region>, avail: array<Region>, a0: nat,
    reserved: seq<Region>, r: nat, ghost p0: Pass)
    returns (a: nat, ghost p: Pass)
    requires mem.Valid() && avail != mem.reserved && avail != mem.freemem
    requires |was| <= avail.Length && Sorted(was) && Sorted(reserved) && InWindow(was, mem.offset)
    requires Stands(mem, before, was, avail, a0, reserved, r, p0) && a0 < |was| && r < |reserved|
    requires avail[a0].start < reserved[r].end && reserved[r].start < avail[a0].end && avail[a0].start < avail[a0].end
    requires reserved[r].start < reserved[r].end
    modifies mem`resvCount, mem`lost, mem`dropped, mem.reserved, mem.freemem, avail
    ensures mem.Valid() && Kept(mem, before, was, reserved)
    ensures Stands(mem, before, was, avail, a, reserved, r, p)
    ensures a == a0 + 1 || (a == a0 && avail[a].start > old(avail[a0].start))
  {
    a, p := a0, p0;
    assert was[a].end == avail[a].end;
    if reserved[r].start <= avail[a].start {
      var start := if avail[a].end < reserved[r].end then avail[a].end else reserved[r].end;
      TrimReserved(was, reserved, p, start);
      avail[a] := Region(start, avail[a].end);
      p := p.(start := start);
    } else {
      a, p := OverlapInside(mem, before, was, avail, a, reserved, r, p);
    }
  }

  /** The same where the reserved region starts inside: what is below it is free. */
  method OverlapInside(
    mem: Memory, ghost before: seq<Region>, ghost was: seq<Region>, avail: array<Region>, a0: nat,
    reserved: seq<Region>, r: nat, ghost p0: Pass)
    returns (a: nat, ghost p: Pass)
    requires mem.Valid() && avail != mem.reserved && avail != mem.freemem
    requires |was| <= avail.Length && Sorted(was) && Sorted(reserved) && InWindow(was, mem.offset)
    requires Stands(mem, before, was, avail, a0, reserved, r, p0) && a0 < |was| && r < |reserved|
    requires avail[a0].start < reserved[r].start < avail[a0].end && reserved[r].start < reserved[r].end
    modifies mem`resvCount, mem`lost, mem`dropped, mem.reserved, mem.freemem, avail
    ensures mem.Valid() && Kept(mem, before, was, reserved)
    ensures Stands(mem, before, was, avail, a, reserved, r, p)
    ensures a == a0 + 1 || (a == a0 && avail[a].start > old(avail[a0].start))
  {
    a := a0;
    assert was[a].end == avail[a].end;
    p := FoundBelow(mem, before, was, reserved, avail[a].start, r, p0);
    if avail[a].end > reserved[r].end {
      avail[a] := Region(reserved[r].end, avail[a].end);
    } else {
      a := a + 1;
    }
  }

  /** The part below reserved region r is free; what r covers of the rest is passed. */
  method FoundBelow(
    mem: Memory, ghost before: seq<Region>, ghost was: seq<Region>, reserved: seq<Region>, start: int, r: nat,
    ghost p0: Pass)
    returns (ghost p: Pass)
    requires mem.Valid() && Sorted(was) && Sorted(reserved) && r < |reserved| && p0.a < |was|
    requires Current(mem, before, was, reserved, p0) && p0.start == start && p0.r == r && mem.offset <= start
    requires start < reserved[r].start < was[p0.a].end < 0x1_0000_0000_0000_0000
    requires reserved[r].start < reserved[r].end
    modifies mem`resvCount, mem`lost, mem`dropped, mem.reserved, mem.freemem
    ensures mem.Valid() && (old(mem.lost) ==> mem.lost)
    ensures Current(mem, before, was, reserved, p) && p.r == r && |p.free| == |p0.free| + 1
    ensures old(mem.resvCount) + 1 < mem.reserved.Length ==> mem.lost == old(mem.lost)
    ensures
      if was[p0.a].end > reserved[r].end then p.a == p0.a && p.start == reserved[r].end
      else p.a == p0.a + 1 && p.start == StartOf(was, p0.a + 1)
  {
    var end := reserved[r].start;
    assert Covers(reserved, end) by { assert Has(reserved[r], end); }
    Found(mem, before, was, reserved, start, end, p0);
    p := p0.(start := end, free := p0.free + [Region(start, end)]);
    if was[p.a].end > reserved[r].end {
      TrimReserved(was, reserved, p, reserved[r].end);
      p := p.(start := reserved[r].end);
    } else {
      RestReserved(was, reserved, p);
      p := p.(a := p.a + 1, start := StartOf(was, p.a + 1));
    }
  }

  /** An empty reserved region is passed without being recorded. */
  lemma SkipEmpty(mem: Memory, before: seq<Region>, avail: seq<Region>, reserved: seq<Region>, p: Pass)
    requires mem.Valid() && Sorted(avail) && Sorted(reserved) && Current(mem, before, avail, reserved, p)
    requires p.r < |reserved| && reserved[p.r].start == reserved[p.r].end
    ensures Current(mem, before, avail, reserved, p.(r := p.r + 1))
  {
    if p.a < |avail| { PassReserved(avail, reserved, p); } else { PassLastReserved(avail, reserved, p); }
    NotedReserved(
      before, mem.Table(), mem.Table(), mem.offset, p.free, reserved, p.r, Complete(mem), Complete(mem));
  }

  lemma TrimReserved(avail: seq<Region>, reserved: seq<Region>, p: Pass, start: int)
    requires Inv(avail, reserved, p) && p.a < |avail| && p.r < |reserved|
    requires reserved[p.r].start <= p.start <= start <= avail[p.a].end && start <= reserved[p.r].end
    ensures Inv(avail, reserved, p.(start := start))
  {
    forall x | p.start <= x < start ensures Covers(reserved, x) {
      assert Has(reserved[p.r], x);
    }
    Trim(avail, reserved, p, start);
  }

  lemma RestReserved(avail: seq<Region>, reserved: seq<Region>, p: Pass)
    requires Sorted(avail) && Inv(avail, reserved, p) && p.a < |avail| && p.r < |reserved|
    requires reserved[p.r].start <= p.start && avail[p.a].end <= reserved[p.r].end
    ensures Inv(avail, reserved, p.(a := p.a + 1, start := StartOf(avail, p.a + 1)))
  {
    forall x | p.start <= x < avail[p.a].end ensures Covers(reserved, x) {
      assert Has(reserved[p.r], x);
    }
    DropRest(avail, reserved, p);
  }

  /** What is left of one list when the other is used up. */
  method TakeRest(
    mem: Memory, ghost before: seq<Region>, ghost was: seq<Region>, avail: array<Region>, a0: nat, count: nat,
    reserved: seq<Region>, r0: nat, ghost p0: Pass)
    returns (ghost p: Pass)
    requires mem.Valid() && avail != mem.reserved && avail != mem.freemem
    requires count == |was| <= avail.Length && Sorted(was) && Sorted(reserved)
    requires InWindow(was, mem.offset) && InWindow(reserved, mem.offset)
    requires Stands(mem, before, was, avail, a0, reserved, r0, p0) && (a0 == count || r0 == |reserved|)
    modifies mem`resvCount, mem`lost, mem`dropped, mem.reserved, mem.freemem
    ensures mem.Valid() && Kept(mem, before, was, reserved)
    ensures Stands(mem, before, was, avail, count, reserved, |reserved|, p)
  {
    p := NoteRest(mem, before, was, avail, a0, reserved, r0, p0);
    p := TakeAvailable(mem, before, was, avail, a0, count, reserved, p);
  }

  method TakeAvailable(
    mem: Memory, ghost before: seq<Region>, ghost was: seq<Region>, avail: array<Region>, a0: nat, count: nat,
    ghost reserved: seq<Region>, ghost p0: Pass)
    returns (ghost p: Pass)
    requires mem.Valid() && avail != mem.reserved && avail != mem.freemem
    requires count == |was| <= avail.Length && Sorted(was) && Sorted(reserved) && InWindow(was, mem.offset)
    requires Stands(mem, before, was, avail, a0, reserved, |reserved|, p0)
    modifies mem`resvCount, mem`lost, mem`dropped, mem.reserved, mem.freemem
    ensures mem.Valid() && Kept(mem, before, was, reserved)
    ensures Stands(mem, before, was, avail, count, reserved, |reserved|, p)
  {
    p := p0;
    var a := a0;
    while a < count
      invariant mem.Valid() && Kept(mem, before, was, reserved)
      invariant Stands(mem, before, was, avail, a, reserved, |reserved|, p)
    {
      p := TakeOne(mem, before, was, avail, a, reserved, |reserved|, p);
      a := a + 1;
    }
  }

  method NoteRest(
    mem: Memory, ghost before: seq<Region>, ghost was: seq<Region>, ghost avail: array<Region>, ghost a: nat,
    reserved: seq<Region>, r0: nat, ghost p0: Pass)
    returns (ghost p: Pass)
    requires mem.Valid() && Sorted(was) && Sorted(reserved) && InWindow(reserved, mem.offset)
    requires avail != mem.reserved && avail != mem.freemem && |was| <= avail.Length
    requires Stands(mem, before, was, avail, a, reserved, r0, p0) && (a == |was| || r0 == |reserved|)
    modifies mem`resvCount, mem`lost, mem.reserved
    ensures mem.Valid() && Kept(mem, before, was, reserved)
    ensures Stands(mem, before, was, avail, a, reserved, |reserved|, p)
  {
    p := p0;
    var r := r0;
    while r < |reserved|
      invariant mem.Valid() && Kept(mem, before, was, reserved) && (a == |was| || r == |reserved|)
      invariant Stands(mem, before, was, avail, a, reserved, r, p)
    {
      p := NoteOne(mem, before, was, avail, a, reserved, r, p);
      r := r + 1;
    }
  }

  // ---- The root server's memory ----------------------------------------------------------

  /** `ROUND_DOWN(x, bits)` */
  function RoundDown(x: nat, bits: nat): int {
    x / Pow2(bits) * Pow2(bits)
  }

  /** It is the greatest aligned address not above x. */
  lemma RoundDownGreatest(x: nat, bits: nat)
    ensures 0 <= RoundDown(x, bits) <= x && Aligned(RoundDown(x, bits), bits)
    ensures forall s: nat :: s <= x && Aligned(s, bits) ==> s <= RoundDown(x, bits)
  {
    MultipleBelow(x, Pow2(bits));
    AlignedIsMultiple(RoundDown(x, bits), bits);
    forall s: nat | s <= x && Aligned(s, bits) ensures s <= RoundDown(x, bits) {
      AlignedIsMultiple(s, bits);
      MultipleNotAbove(s, x, Pow2(bits));
    }
  }

  lemma MultipleBelow(x: nat, d: nat)
    requires d > 0
    ensures 0 <= x / d * d <= x && (x / d * d) % d == 0
  {
    DivBounds(x, d);
    MulLe(0, x / d, d);
    DivModUnique(x / d * d, d, x / d, 0);
  }

  lemma MultipleNotAbove(s: nat, x: nat, d: nat)
    requires d > 0 && s <= x && s % d == 0
    ensures s <= x / d * d
  {
    DivBounds(s, d);
    DivBounds(x, d);
    if s / d > x / d { MulLe(x / d + 1, s / d, d); }
    MulLe(s / d, x / d, d);
  }

  /** An aligned block of the given size fits at s in r. */
  predicate Fits(r: Region, s: nat, size: nat, bits: nat) {
    Aligned(s, bits) && r.start <= s && s + size <= r.end
  }

  /** The i-th region without the block at start. */
  function CutAt(free: seq<Region>, i: nat, start: int, size: nat): seq<Region>
    requires i < |free|
  {
    free[..i] + [Region(free[i].start, start), Region(start + size, free[i].end)] + free[i + 1..]
  }

  /** Cutting removes exactly the block, and keeps the order. */
  lemma CutCovers(free: seq<Region>, i: nat, start: int, size: nat, x: int)
    requires i < |free| && Ordered(free) && free[i].start <= start && start + size <= free[i].end
    ensures Covers(CutAt(free, i, start, size), x) <==> Covers(free, x) && !(start <= x < start + size)
  {
    var two := [Region(free[i].start, start), Region(start + size, free[i].end)];
    var a, b := free[..i], free[i + 1..];
    CoversConcat(a + two, b, x);
    CoversConcat(a, two, x);
    CoversConcat(a + [free[i]], b, x);
    CoversConcat(a, [free[i]], x);
    assert free == a + [free[i]] + b;
    assert Covers(two, x) <==> Has(two[0], x) || Has(two[1], x);
    assert Covers([free[i]], x) <==> Has([free[i]][0], x);
    assert Covers(a, x) ==> x < free[i].start;
    assert Covers(b, x) ==> x >= free[i].end;
  }

  lemma CutSorted(free: seq<Region>, i: nat, start: int, size: nat)
    requires i < |free| && Ordered(free) && free[i].start <= start && start + size <= free[i].end
    ensures Sorted(CutAt(free, i, start, size))
  {
    var t := CutAt(free, i, start, size);
    forall k | 0 <= k < |t|
      ensures k < i ==> t[k] == free[k]
      ensures k == i ==> t[k] == Region(free[i].start, start)
      ensures k == i + 1 ==> t[k] == Region(start + size, free[i].end)
      ensures k > i + 1 ==> t[k] == free[k - 1]
    {
    }
  }

  /** The last used place, or -1. */
  method LastUsed(a: array<Region>, ghost n: nat) returns (i: int)
    requires n < a.Length
    requires forall k :: 0 <= k < n ==> a[k].start != a[k].end
    requires forall k :: n <= k < a.Length ==> a[k].start == a[k].end
    ensures i == n - 1
  {
    i := a.Length - 1;
    while i >= 0 && a[i].start == a[i].end
      invariant n - 1 <= i < a.Length
    {
      i := i - 1;
    }
  }

  ghost predicate NoFit(r: Region, size: nat, bits: nat) {
    forall s: nat :: !Fits(r, s, size, bits)
  }

  /** The block at s fits, and none that starts higher does. */
  ghost predicate FitsHighest(r: Region, s: nat, size: nat, bits: nat) {
    Fits(r, s, size, bits) && forall t: nat :: Fits(r, t, size, bits) ==> t <= s
  }

  /** The top-most aligned block in r; rounding down finds one whenever there is one. */
  method TopFit(r: Region, size: nat, bits: nat) returns (ok: bool, start: nat)
    requires 0 <= r.start < r.end < 0x1_0000_0000_0000_0000 && size < 0x1_0000_0000_0000_0000
    ensures if ok then FitsHighest(r, start, size, bits) else NoFit(r, size, bits)
  {
    var unalignedStart := (r.end - size) % 0x1_0000_0000_0000_0000;
    RoundDownGreatest(unalignedStart, bits);
    start := RoundDown(unalignedStart, bits);
    ok := unalignedStart <= r.end && start >= r.start;
  }

  /** After the search came down to place j: what it tried in vain moved up one place. */
  ghost predicate Shuffled(a: seq<Region>, free: seq<Region>, j: int) {
    && -1 <= j < |free| < |a|
    && (forall k :: 0 <= k <= j ==> a[k] == free[k])
    && a[j + 1] == Region(0, 0)
    && (forall k :: j + 1 < k <= |free| ==> a[k] == free[k - 1])
    && (forall k :: |free| < k < |a| ==> a[k] == Region(0, 0))
  }

  /** What the list looks like once the block is cut from region j. */
  lemma CutShuffled(a: seq<Region>, a': seq<Region>, free: seq<Region>, j: nat, start: int, size: nat)
    requires Shuffled(a, free, j)
    requires a' == a[j + 1 := Region(start + size, a[j].end)][j := Region(a[j].start, start)]
    ensures a'[..|free| + 1] == CutAt(free, j, start, size)
    ensures forall k :: |free| < k < |a'| ==> a'[k] == Region(0, 0)
  {
    var t := CutAt(free, j, start, size);
    forall k | 0 <= k <= |free| ensures a'[k] == t[k] {
      if k > j + 1 { assert a'[k] == free[k - 1] && t[k] == free[j + 1..][k - j - 2]; }
    }
  }

  /**
    The end of `init_freemem`: the top-most aligned block that fits is cut from the
    last region that has one.  Regions tried in vain move up one place, so that
    there is always room for a second remainder.
   */
  method CarveOut(mem: Memory, size: nat, bits: nat, ghost free: seq<Region>)
    returns (ok: bool, start: nat, ghost i: nat)
    requires mem.Filled(|free|) && mem.freemem[..|free|] == free && size < 0x1_0000_0000_0000_0000
    modifies mem.freemem
    ensures ok ==> i < |free| < mem.freemem.Length && FitsHighest(free[i], start, size, bits)
    ensures ok ==> forall k :: i < k < |free| ==> NoFit(free[k], size, bits)
    ensures ok ==> mem.freemem[..|free| + 1] == CutAt(free, i, start, size)
    ensures ok ==> forall k :: |free| < k < mem.freemem.Length ==> mem.freemem[k] == Region(0, 0)
    ensures !ok && |free| < mem.freemem.Length ==> forall k :: 0 <= k < |free| ==> NoFit(free[k], size, bits)
  {
    var a := mem.freemem;
    start, i := 0, 0;
    if a.Length == 0 || a[a.Length - 1].start != a[a.Length - 1].end {
      return false, 0, 0;
    }
    var j := LastUsed(a, |free|);
    while j >= 0
      invariant Shuffled(a[..], free, j)
      invariant forall k :: j < k < |free| ==> NoFit(free[k], size, bits)
    {
      var fits, at := TopFit(a[j], size, bits);
      ghost var was := a[..];
      if fits {
        a[j + 1] := Region(at + size, a[j].end);
        a[j] := Region(a[j].start, at);
        CutShuffled(was, a[..], free, j, at, size);
        return true, at, j;
      }
      a[j + 1] := a[j];
      a[j] := Region(0, 0);
      j := j - 1;
    }
    return false, 0, 0;
  }

  // ---- The whole of init_freemem -----------------------------------------------------------

  lemma ClippedSorted(rs: seq<Region>, offset: nat, top: nat)
    requires Ordered(rs) && offset + top < 0x1_0000_0000_0000_0000 && forall i :: 0 <= i < |rs| ==> 0 <= rs[i].start
    ensures Sorted(ClippedAll(rs, offset, top)) && InWindow(ClippedAll(rs, offset, top), offset)
  {
  }

  method ClearFree(mem: Memory)
    modifies mem`dropped, mem.freemem
    ensures mem.Holds([])
  {
    var a, i := mem.freemem, 0;
    while i < a.Length
      invariant 0 <= i <= a.Length
      invariant forall k :: 0 <= k < i ==> a[k] == Region(0, 0)
    {
      a[i] := Region(0, 0);
      i := i + 1;
    }
    mem.dropped := false;
  }

  /** The free regions, in order, are what is available in the window and not reserved. */
  ghost predicate Subtracted(avail: seq<Region>, reserved: seq<Region>, free: seq<Region>) {
    Ordered(free) && forall x :: Covers(free, x) <==> Covers(avail, x) && !Covers(reserved, x)
  }

  /**
    The table knows of free and reserved regions, of all of them if it is complete, and
    is separated if it was and nothing is reserved twice.
   */
  ghost predicate Recorded(
    before: seq<Region>, now: seq<Region>, offset: nat,
    avail: seq<Region>, reserved: seq<Region>, free: seq<Region>, complete: bool)
  {
    && Noted(before, now, offset, free, reserved, complete)
    && (Separated(before) && Clear(before, offset, avail, reserved) ==> Separated(now))
  }

  /** The free list after the root server's block was taken out. */
  ghost predicate Carved(free: seq<Region>, list: seq<Region>, start: nat, size: nat, bits: nat) {
    && Aligned(start, bits)
    && (forall x :: start <= x < start + size ==> Covers(free, x))
    && InOrder(list)
    && (forall x :: Covers(list, x) <==> Covers(free, x) && !(start <= x < start + size))
  }

  /** Regions that are not empty are in ascending order without overlap. */
  predicate InOrder(rs: seq<Region>) {
    && (forall i :: 0 <= i < |rs| ==> rs[i].start <= rs[i].end)
    && (forall i, j :: 0 <= i < j < |rs| && rs[i].start < rs[i].end && rs[j].start < rs[j].end ==>
          rs[i].end <= rs[j].start)
  }

  /** The inputs pass the checks. */
  predicate Checked(available: seq<Region>, reserved: seq<Region>) {
    available != [] && Ordered(available) && Sorted(reserved)
  }

  /** An aligned block at s lies in one available region, and none of it is reserved. */
  ghost predicate Room(avail: seq<Region>, reserved: seq<Region>, s: nat, size: nat, bits: nat) {
    Aligned(s, bits) && InsideOne(Region(s, s + size), avail) && Unreserved(Region(s, s + size), reserved)
  }

  /** There is room for the root server's block somewhere. */
  ghost predicate HasRoom(avail: seq<Region>, reserved: seq<Region>, size: nat, bits: nat) {
    exists s: nat :: Room(avail, reserved, s, size, bits)
  }

  /** There is room exactly if the block fits in a piece. */
  lemma RoomIsFit(avail: seq<Region>, reserved: seq<Region>, free: seq<Region>, size: nat, bits: nat)
    requires Pieces(avail, reserved, free) && size > 0
    ensures HasRoom(avail, reserved, size, bits) <==> exists k :: 0 <= k < |free| && !NoFit(free[k], size, bits)
  {
    if HasRoom(avail, reserved, size, bits) {
      var s: nat :| Room(avail, reserved, s, size, bits);
      assert InsideOne(Region(s, s + size), free);
      var k :| 0 <= k < |free| && Inside(Region(s, s + size), free[k]);
      assert Fits(free[k], s, size, bits);
    }
    if k :| 0 <= k < |free| && !NoFit(free[k], size, bits) {
      var s: nat :| Fits(free[k], s, size, bits);
      FitIsRoom(avail, reserved, free, k, s, size, bits);
    }
  }

  lemma FitIsRoom(
    avail: seq<Region>, reserved: seq<Region>, free: seq<Region>, k: nat, s: nat, size: nat, bits: nat)
    requires Pieces(avail, reserved, free) && size > 0 && k < |free| && Fits(free[k], s, size, bits)
    ensures Room(avail, reserved, s, size, bits)
  {
    var q := Region(s, s + size);
    assert InsideOne(free[k], avail) && Unreserved(free[k], reserved);
    var i :| 0 <= i < |avail| && Inside(free[k], avail[i]);
    assert Inside(q, avail[i]);
    forall x | Has(q, x) ensures !Covers(reserved, x) {
      assert Has(free[k], x);
    }
  }

  /** The block at s has room, and no higher one does. */
  ghost predicate HighestRoom(avail: seq<Region>, reserved: seq<Region>, s: nat, size: nat, bits: nat) {
    Room(avail, reserved, s, size, bits) && forall t: nat :: Room(avail, reserved, t, size, bits) ==> t <= s
  }

  /** The highest fit in the last piece that has one is the highest of all. */
  lemma {:induction false} LastFitHighest(
    avail: seq<Region>, reserved: seq<Region>, free: seq<Region>, i: nat, s: nat, size: nat, bits: nat)
    requires Pieces(avail, reserved, free) && size > 0 && i < |free| && FitsHighest(free[i], s, size, bits)
    requires forall k :: i < k < |free| ==> NoFit(free[k], size, bits)
    ensures HighestRoom(avail, reserved, s, size, bits)
  {
    FitIsRoom(avail, reserved, free, i, s, size, bits);
    forall t: nat | Room(avail, reserved, t, size, bits) ensures t <= s {
      assert InsideOne(Region(t, t + size), free);
      var k :| 0 <= k < |free| && Inside(Region(t, t + size), free[k]);
      assert Fits(free[k], t, size, bits);
      if k < i { assert free[k].end <= free[i].start; }
    }
  }

  /** The list is that of the free regions, with the block cut from one of them, and nothing else. */
  ghost predicate CutFromOne(free: seq<Region>, list: seq<Region>, start: nat, size: nat) {
    && |free| < |list|
    && (exists i :: 0 <= i < |free| && list[..|free| + 1] == CutAt(free, i, start, size))
    && (forall k :: |free| < k < |list| ==> list[k] == Region(0, 0))
  }

  /**
    `init_freemem`.  The ghost result are the free regions before the root server's
    block was taken, which the inputs determine.  It succeeds exactly if the inputs pass
    the checks, the list has a place more than there are free regions, and there is room
    for the block; then the list is exact.
   */
  method InitFreemem(
    mem: Memory, available: seq<Region>, reserved: seq<Region>, availReg: array<Region>,
    top: nat, size: nat, bits: nat)
    returns (ok: bool, start: nat, ghost free: seq<Region>)
    requires mem.Valid() && availReg != mem.reserved && availReg != mem.freemem && |available| <= availReg.Length
    requires mem.offset + top < 0x1_0000_0000_0000_0000 && size < 0x1_0000_0000_0000_0000
    requires forall i :: 0 <= i < |available| ==>
      0 <= available[i].start < 0x1_0000_0000_0000_0000 && 0 <= available[i].end < 0x1_0000_0000_0000_0000
    requires InWindow(reserved, mem.offset)
    modifies mem`resvCount, mem`lost, mem`dropped, mem.reserved, mem.freemem, availReg
    ensures mem.Valid() && (old(mem.lost) ==> mem.lost)
    ensures Checked(available, reserved) ==>
      && Pieces(ClippedAll(available, mem.offset, top), reserved, free)
      && (mem.dropped <==> |free| > mem.freemem.Length)
    ensures ok ==> !mem.dropped && Checked(available, reserved) && |free| < mem.freemem.Length
    ensures size > 0 ==>
      (ok <==>
        && Checked(available, reserved) && |free| < mem.freemem.Length
        && HasRoom(ClippedAll(available, mem.offset, top), reserved, size, bits))
    ensures ok ==> Subtracted(ClippedAll(available, mem.offset, top), reserved, free)
    ensures ok ==> Carved(free, mem.freemem[..], start, size, bits)
    ensures ok ==> CutFromOne(free, mem.freemem[..], start, size)
    ensures ok && size > 0 ==> HighestRoom(ClippedAll(available, mem.offset, top), reserved, start, size, bits)
    ensures ok ==> start + size < 0x1_0000_0000_0000_0000 && InWords(mem.freemem[..])
    ensures ok ==>
      Recorded(
        old(mem.Table()), mem.Table(), mem.offset, ClippedAll(available, mem.offset, top), reserved, free, !mem.lost)
    ensures Checked(available, reserved) && !ok ==>
      |free| >= mem.freemem.Length || forall k :: 0 <= k < |free| ==> NoFit(free[k], size, bits)
    ensures RoomyTable(mem, old(mem.Table()), available, reserved) ==> mem.lost == old(mem.lost)
    ensures Checked(available, reserved) && Roomy(mem, old(mem.Table()), available, reserved) ==>
      !mem.dropped && |free| < mem.freemem.Length
  {
    start, free := 0, [];
    ok := CheckAvailable(available);
    if !ok {
      return;
    }
    ok := CheckReserved(reserved);
    if !ok {
      return;
    }
    free := FindFree(mem, available, reserved, availReg, top);
    ghost var kept := if |free| < mem.freemem.Length then free else mem.freemem[..];
    ghost var i;
    ok, start, i := CarveOut(mem, size, bits, kept);
    if ok {
      CutInWords(free, mem.freemem[..], i, start, size);
      AllCarved(free, mem.freemem[..], i, start, size, bits);
      if size > 0 { LastFitHighest(ClippedAll(available, mem.offset, top), reserved, free, i, start, size, bits); }
    }
    if size > 0 {
      RoomIsFit(ClippedAll(available, mem.offset, top), reserved, free, size, bits);
      assert ok ==> !NoFit(free[i], size, bits);
    }
  }

  /** The main loop and the two that follow it. */
  method PassBoth(mem: Memory, avail: array<Region>, count: nat, reserved: seq<Region>) returns (ghost p: Pass)
    requires mem.Valid() && mem.Holds([])
    requires count <= avail.Length && avail != mem.reserved && avail != mem.freemem
    requires Sorted(avail[..count]) && Sorted(reserved)
    requires InWindow(avail[..count], mem.offset) && InWindow(reserved, mem.offset)
    modifies mem`resvCount, mem`lost, mem`dropped, mem.reserved, mem.freemem, avail
    ensures mem.Valid() && Kept(mem, old(mem.Table()), old(avail[..count]), reserved)
    ensures Current(mem, old(mem.Table()), old(avail[..count]), reserved, p)
    ensures p.a == count && p.r == |reserved| && Few(old(avail[..count]), reserved, p)
  {
    ghost var before, was := mem.Table(), avail[..count];
    var a, r;
    a, r, p := SubtractReserved(mem, avail, count, reserved);
    p := TakeRest(mem, before, was, avail, a, count, reserved, r, p);
  }

  /** The free list before the root server's block is taken. */
  method FindFree(
    mem: Memory, available: seq<Region>, reserved: seq<Region>, availReg: array<Region>, top: nat)
    returns (ghost free: seq<Region>)
    requires mem.Valid() && availReg != mem.reserved && availReg != mem.freemem && |available| <= availReg.Length
    requires mem.offset + top < 0x1_0000_0000_0000_0000 && Ordered(available) && Sorted(reserved)
    requires forall i :: 0 <= i < |available| ==>
      0 <= available[i].start < 0x1_0000_0000_0000_0000 && 0 <= available[i].end < 0x1_0000_0000_0000_0000
    requires InWindow(reserved, mem.offset)
    modifies mem`resvCount, mem`lost, mem`dropped, mem.reserved, mem.freemem, availReg
    ensures mem.Valid() && (old(mem.lost) ==> mem.lost)
    ensures mem.Holds(free) && Pieces(ClippedAll(available, mem.offset, top), reserved, free)
    ensures Subtracted(ClippedAll(available, mem.offset, top), reserved, free)
    ensures
      Recorded(
        old(mem.Table()), mem.Table(), mem.offset, ClippedAll(available, mem.offset, top), reserved, free,
        Complete(mem))
    ensures RoomyTable(mem, old(mem.Table()), available, reserved) ==> mem.lost == old(mem.lost)
    ensures |free| <= |available| + |reserved|
  {
    ClearFree(mem);
    ghost var avail := ClippedAll(available, mem.offset, top);
    ConvertAvailable(available, availReg, mem.offset, top);
    ClippedSorted(available, mem.offset, top);
    ghost var p := PassBoth(mem, availReg, |available|, reserved);
    free := p.free;
    Finish(avail, reserved, p);
    assert reserved[..|reserved|] == reserved;
  }

  /** Every region has word addresses and does not wrap. */
  predicate InWords(rs: seq<Region>) {
    forall k :: 0 <= k < |rs| ==> 0 <= rs[k].start <= rs[k].end < 0x1_0000_0000_0000_0000
  }

  lemma CutInWords(free: seq<Region>, list: seq<Region>, i: nat, start: nat, size: nat)
    requires i < |free| < |list| && InWords(free) && free[i].start <= start && start + size <= free[i].end
    requires list[..|free| + 1] == CutAt(free, i, start, size)
    requires forall k :: |free| < k < |list| ==> list[k] == Region(0, 0)
    ensures InWords(list)
  {
    var t := CutAt(free, i, start, size);
    assert forall k :: 0 <= k <= |free| ==> list[k] == t[k];
  }

  lemma AllCarved(free: seq<Region>, list: seq<Region>, i: nat, start: nat, size: nat, bits: nat)
    requires i < |free| < |list| && Ordered(free) && Fits(free[i], start, size, bits)
    requires list[..|free| + 1] == CutAt(free, i, start, size)
    requires forall k :: |free| < k < |list| ==> list[k] == Region(0, 0)
    ensures Carved(free, list, start, size, bits)
  {
    var t, rest := CutAt(free, i, start, size), list[|free| + 1..];
    assert list == t + rest;
    CutSorted(free, i, start, size);
    forall x ensures Covers(list, x) <==> Covers(free, x) && !(start <= x < start + size) {
      CutCovers(free, i, start, size, x);
      CoversConcat(t, rest, x);
      assert !Covers(rest, x);
    }
    forall x | start <= x < start + size ensures Covers(free, x) {
      assert Has(free[i], x);
    }
    assert forall k :: 0 <= k <= |free| ==> list[k] == t[k];
  }
}
