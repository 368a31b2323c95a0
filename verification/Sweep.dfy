/**
  Subtracting the reserved regions from the available ones in one pass over both
  lists: what holds between any two steps, and that each step keeps it.
 */
module Sweep {
  import opened Regions

  /** In ascending order without overlap, empty regions allowed. */
  predicate Sorted(rs: seq<Region>) {
    && (forall i :: 0 <= i < |rs| ==> rs[i].start <= rs[i].end)
    && (forall i, j :: 0 <= i < j < |rs| ==> rs[i].end <= rs[j].start)
  }

  /** x is in an available region before the a-th, or in the a-th below `start`. */
  predicate Done(avail: seq<Region>, a: nat, start: int, x: int) {
    exists k :: 0 <= k < |avail| && Has(avail[k], x) && (k < a || (k == a && x < start))
  }

  /** How far the pass has come, and the free regions found. */
  datatype Pass = Pass(a: nat, r: nat, start: int, free: seq<Region>)

  /** The pass is at available region a, of which `start` is what is left to look at, and reserved region r. */
  ghost predicate Inv(avail: seq<Region>, reserved: seq<Region>, p: Pass) {
    Swept(avail, reserved, p) && Whole(avail, reserved, p)
  }

  /** The free regions are what was passed and is not reserved. */
  ghost predicate Swept(avail: seq<Region>, reserved: seq<Region>, p: Pass) {
    && p.a <= |avail| && p.r <= |reserved|
    && (p.a < |avail| ==> avail[p.a].start <= p.start <= avail[p.a].end)
    && Ordered(p.free)
    && Frontier(avail, reserved, p)
    && (forall x :: Covers(p.free, x) <==> Done(avail, p.a, p.start, x) && !Covers(reserved, x))
  }

  /** What was found lies below what is still to come, and what was passed over does not reach into it. */
  predicate Frontier(avail: seq<Region>, reserved: seq<Region>, p: Pass)
    requires p.a <= |avail| && p.r <= |reserved|
  {
    && (p.a < |avail| ==> forall k :: 0 <= k < |p.free| ==> p.free[k].end <= p.start)
    && (p.r < |reserved| ==> forall k :: 0 <= k < |p.free| ==> p.free[k].end <= reserved[p.r].start)
    && (p.a < |avail| ==>
          forall j :: 0 <= j < p.r && reserved[j].start < reserved[j].end ==> reserved[j].end <= p.start)
  }

  // ---- Free regions are as large as they can be ------------------------------------------

  predicate Inside(q: Region, r: Region) {
    r.start <= q.start && q.end <= r.end
  }

  predicate InsideOne(q: Region, rs: seq<Region>) {
    exists k :: 0 <= k < |rs| && Inside(q, rs[k])
  }

  /** No address of q is reserved. */
  ghost predicate Unreserved(q: Region, reserved: seq<Region>) {
    q.start < q.end && forall x :: Has(q, x) ==> !Covers(reserved, x)
  }

  /** The pass has looked at all of q, which is part of one available region. */
  predicate Seen(avail: seq<Region>, a: nat, start: int, q: Region) {
    exists k :: 0 <= k < |avail| && Inside(q, avail[k]) && (k < a || (k == a && q.end <= start))
  }

  /** Each free region is part of one available region, and no unreserved part of one was split. */
  ghost predicate Whole(avail: seq<Region>, reserved: seq<Region>, p: Pass) {
    && (forall i {:trigger InsideOne(p.free[i], avail)} :: 0 <= i < |p.free| ==> InsideOne(p.free[i], avail))
    && (forall q {:trigger Unreserved(q, reserved)} ::
          Unreserved(q, reserved) && Seen(avail, p.a, p.start, q) ==> InsideOne(q, p.free))
    && (p.a < |avail| ==>
          forall q {:trigger Unreserved(q, reserved)} ::
            Unreserved(q, reserved) && Inside(q, avail[p.a]) && q.start < p.start ==> q.end <= p.start)
  }

  /**
    The free regions are exactly the largest unreserved parts of the available
    regions, in ascending order.
   */
  ghost predicate Pieces(avail: seq<Region>, reserved: seq<Region>, free: seq<Region>) {
    && Ordered(free)
    && (forall i {:trigger InsideOne(free[i], avail)} :: 0 <= i < |free| ==>
          InsideOne(free[i], avail) && Unreserved(free[i], reserved))
    && (forall q :: Unreserved(q, reserved) && InsideOne(q, avail) ==> InsideOne(q, free))
  }

  lemma WholeTrim(avail: seq<Region>, reserved: seq<Region>, p: Pass, start': int)
    requires Whole(avail, reserved, p) && p.a < |avail| && p.start <= start' <= avail[p.a].end
    requires forall x :: p.start <= x < start' ==> Covers(reserved, x)
    ensures Whole(avail, reserved, p.(start := start'))
  {
    forall q | Unreserved(q, reserved) && Seen(avail, p.a, start', q) ensures Seen(avail, p.a, p.start, q) {
      assert Has(q, q.start);
      var k :| 0 <= k < |avail| && Inside(q, avail[k]) && (k < p.a || (k == p.a && q.end <= start'));
      assert k < p.a || q.end <= p.start;
    }
    forall q | Unreserved(q, reserved) && Inside(q, avail[p.a]) && q.start < start' ensures q.end <= start' {
      assert Has(q, q.start);
    }
  }

  lemma OneMoreInside(q: Region, rs: seq<Region>, r: Region)
    ensures InsideOne(q, rs + [r]) <==> InsideOne(q, rs) || Inside(q, r)
  {
    if InsideOne(q, rs) {
      var k :| 0 <= k < |rs| && Inside(q, rs[k]);
      assert Inside(q, (rs + [r])[k]);
    }
    if Inside(q, r) { assert Inside(q, (rs + [r])[|rs|]); }
  }

  lemma WholeTake(avail: seq<Region>, reserved: seq<Region>, p: Pass, end: int)
    requires Whole(avail, reserved, p) && p.a < |avail| && avail[p.a].start <= p.start < end <= avail[p.a].end
    requires end == avail[p.a].end || Covers(reserved, end)
    ensures Whole(avail, reserved, p.(start := end, free := p.free + [Region(p.start, end)]))
  {
    var m := Region(p.start, end);
    var free' := p.free + [m];
    forall i | 0 <= i < |free'| ensures InsideOne(free'[i], avail) {
      if i < |p.free| { assert InsideOne(p.free[i], avail); } else { assert Inside(m, avail[p.a]); }
    }
    forall q | Unreserved(q, reserved) && Seen(avail, p.a, end, q) ensures InsideOne(q, free') {
      var k :| 0 <= k < |avail| && Inside(q, avail[k]) && (k < p.a || (k == p.a && q.end <= end));
      if k < p.a || q.end <= p.start { assert Seen(avail, p.a, p.start, q); }
      OneMoreInside(q, p.free, m);
    }
    forall q | Unreserved(q, reserved) && Inside(q, avail[p.a]) && q.start < end ensures q.end <= end {
      assert !(Has(q, end) && Covers(reserved, end));
    }
  }

  lemma WholeDrop(avail: seq<Region>, reserved: seq<Region>, p: Pass)
    requires Sorted(avail) && Whole(avail, reserved, p) && p.a < |avail|
    requires forall x :: p.start <= x < avail[p.a].end ==> Covers(reserved, x)
    ensures Whole(avail, reserved, p.(a := p.a + 1, start := StartOf(avail, p.a + 1)))
  {
    forall q | Unreserved(q, reserved) && Seen(avail, p.a + 1, StartOf(avail, p.a + 1), q)
      ensures Seen(avail, p.a, p.start, q)
    {
      assert Has(q, q.start);
      var k :| 0 <= k < |avail| && Inside(q, avail[k])
        && (k < p.a + 1 || (k == p.a + 1 && q.end <= StartOf(avail, p.a + 1)));
      assert k < p.a || (k == p.a && q.end <= p.start);
    }
  }

  predicate AllIn(fs: seq<Region>, gs: seq<Region>) {
    forall r :: r in fs ==> r in gs
  }

  /** The order and the regions themselves leave no choice. */
  lemma {:induction false} SameRegions(fs: seq<Region>, gs: seq<Region>)
    requires Ordered(fs) && Ordered(gs) && AllIn(fs, gs) && AllIn(gs, fs)
    ensures fs == gs
    decreases |fs|
  {
    assert gs != [] ==> gs[0] in fs;
    if fs != [] {
      assert fs[0] in gs;
      var m, n := |fs| - 1, |gs| - 1;
      assert fs[m] in gs && gs[n] in fs;
      LastIsLast(fs, gs);
      InPrefix(fs, gs);
      InPrefix(gs, fs);
      SameRegions(fs[..m], gs[..n]);
    }
  }

  lemma LastIsLast(fs: seq<Region>, gs: seq<Region>)
    requires Ordered(fs) && Ordered(gs) && fs != [] && gs != []
    requires fs[|fs| - 1] in gs && gs[|gs| - 1] in fs
    ensures fs[|fs| - 1] == gs[|gs| - 1]
  {
  }

  lemma InPrefix(fs: seq<Region>, gs: seq<Region>)
    requires Ordered(fs) && AllIn(fs, gs) && fs != [] && gs != [] && fs[|fs| - 1] == gs[|gs| - 1]
    ensures Ordered(fs[..|fs| - 1]) && AllIn(fs[..|fs| - 1], gs[..|gs| - 1])
  {
    var m, n := |fs| - 1, |gs| - 1;
    forall r | r in fs[..m] ensures r in gs[..n] {
      var i :| 0 <= i < m && fs[..m][i] == r;
      assert fs[i] in fs && fs[i].end <= fs[m].start;
      var j :| 0 <= j < |gs| && gs[j] == r;
      assert gs[..n][j] == r;
    }
  }

  lemma NestedInOrdered(rs: seq<Region>, i: nat, k: nat)
    requires Ordered(rs) && i < |rs| && k < |rs| && Inside(rs[i], rs[k])
    ensures i == k
  {
  }

  /** A piece is a piece of every list of pieces. */
  lemma PieceInBoth(avail: seq<Region>, reserved: seq<Region>, fs: seq<Region>, gs: seq<Region>, i: nat)
    requires Pieces(avail, reserved, fs) && Pieces(avail, reserved, gs) && i < |fs|
    ensures fs[i] in gs
  {
    assert InsideOne(fs[i], avail) && Unreserved(fs[i], reserved);
    assert InsideOne(fs[i], gs);
    var j :| 0 <= j < |gs| && Inside(fs[i], gs[j]);
    assert InsideOne(gs[j], avail) && Unreserved(gs[j], reserved);
    assert InsideOne(gs[j], fs);
    var k :| 0 <= k < |fs| && Inside(gs[j], fs[k]);
    NestedInOrdered(fs, i, k);
  }

  /** The inputs determine the free regions. */
  lemma PiecesUnique(avail: seq<Region>, reserved: seq<Region>, fs: seq<Region>, gs: seq<Region>)
    requires Pieces(avail, reserved, fs) && Pieces(avail, reserved, gs)
    ensures fs == gs
  {
    forall r | r in fs ensures r in gs {
      var i :| 0 <= i < |fs| && fs[i] == r;
      PieceInBoth(avail, reserved, fs, gs, i);
    }
    forall r | r in gs ensures r in fs {
      var j :| 0 <= j < |gs| && gs[j] == r;
      PieceInBoth(avail, reserved, gs, fs, j);
    }
    SameRegions(fs, gs);
  }

  // ---- The steps ------------------------------------------------------------------------------

  /** The region to look at next, from its beginning. */
  function StartOf(avail: seq<Region>, a: nat): int {
    if a < |avail| then avail[a].start else 0
  }

  lemma Begin(avail: seq<Region>, reserved: seq<Region>)
    requires Sorted(avail)
    ensures Inv(avail, reserved, Pass(0, 0, StartOf(avail, 0), []))
  {
  }

  /** A reserved region that is empty, or below what is left, is done with. */
  lemma PassReserved(avail: seq<Region>, reserved: seq<Region>, p: Pass)
    requires Sorted(avail) && Sorted(reserved) && Inv(avail, reserved, p) && p.a < |avail| && p.r < |reserved|
    requires reserved[p.r].start == reserved[p.r].end || reserved[p.r].end <= p.start
    ensures Inv(avail, reserved, p.(r := p.r + 1))
  {
    SweptPast(avail, reserved, p);
  }

  lemma SweptPast(avail: seq<Region>, reserved: seq<Region>, p: Pass)
    requires Sorted(avail) && Sorted(reserved) && Swept(avail, reserved, p) && p.a < |avail| && p.r < |reserved|
    requires reserved[p.r].start == reserved[p.r].end || reserved[p.r].end <= p.start
    ensures Swept(avail, reserved, p.(r := p.r + 1))
  {
  }

  /** Once only reserved regions are left, they are passed one by one. */
  lemma PassLastReserved(avail: seq<Region>, reserved: seq<Region>, p: Pass)
    requires Sorted(reserved) && Inv(avail, reserved, p) && p.a == |avail| && p.r < |reserved|
    ensures Inv(avail, reserved, p.(r := p.r + 1))
  {
  }

  lemma DoneNext(avail: seq<Region>, a: nat, start: int, x: int)
    requires Sorted(avail) && a < |avail| && avail[a].start <= start
    ensures Done(avail, a + 1, StartOf(avail, a + 1), x) <==>
      Done(avail, a, start, x) || (Has(avail[a], x) && start <= x)
  {
    if Has(avail[a], x) && start <= x {
      assert Done(avail, a + 1, StartOf(avail, a + 1), x);
    }
    if Done(avail, a + 1, StartOf(avail, a + 1), x) {
      var k :| 0 <= k < |avail| && Has(avail[k], x) && (k < a + 1 || (k == a + 1 && x < StartOf(avail, a + 1)));
      if k < a || x < start { assert Done(avail, a, start, x); }
    }
  }

  /** The rest of the available region holds nothing but reserved addresses. */
  lemma DropRest(avail: seq<Region>, reserved: seq<Region>, p: Pass)
    requires Sorted(avail) && Inv(avail, reserved, p) && p.a < |avail|
    requires forall x :: p.start <= x < avail[p.a].end ==> Covers(reserved, x)
    ensures Inv(avail, reserved, p.(a := p.a + 1, start := StartOf(avail, p.a + 1)))
  {
    WholeDrop(avail, reserved, p);
    forall x ensures Covers(p.free, x) <==> Done(avail, p.a + 1, StartOf(avail, p.a + 1), x) && !Covers(reserved, x) {
      DoneNext(avail, p.a, p.start, x);
    }
  }

  lemma DoneFurther(avail: seq<Region>, a: nat, start: int, start': int, x: int)
    requires a < |avail| && avail[a].start <= start <= start' <= avail[a].end
    ensures Done(avail, a, start', x) <==> Done(avail, a, start, x) || start <= x < start'
  {
    if start <= x < start' {
      assert Has(avail[a], x);
    }
    if Done(avail, a, start, x) {
      var k :| 0 <= k < |avail| && Has(avail[k], x) && (k < a || (k == a && x < start));
      assert k < a || (k == a && x < start');
    }
  }

  /** Trimming the front of the region, which is all reserved. */
  lemma Trim(avail: seq<Region>, reserved: seq<Region>, p: Pass, start': int)
    requires Inv(avail, reserved, p) && p.a < |avail| && p.start <= start' <= avail[p.a].end
    requires forall x :: p.start <= x < start' ==> Covers(reserved, x)
    ensures Inv(avail, reserved, p.(start := start'))
  {
    WholeTrim(avail, reserved, p, start');
    forall x ensures Covers(p.free, x) <==> Done(avail, p.a, start', x) && !Covers(reserved, x) {
      DoneFurther(avail, p.a, p.start, start', x);
    }
  }

  /** The part up to `end` is free: nothing before it, and no reserved region, reaches into it. */
  lemma FreeUpTo(avail: seq<Region>, reserved: seq<Region>, p: Pass, end: int)
    requires Sorted(reserved) && Swept(avail, reserved, p) && p.a < |avail|
    requires p.start < end <= avail[p.a].end && (p.r < |reserved| ==> end <= reserved[p.r].start)
    ensures forall x :: p.start <= x < end ==> !Covers(reserved, x)
    ensures Ordered(p.free + [Region(p.start, end)])
    ensures forall x :: Covers(p.free + [Region(p.start, end)], x) <==> Covers(p.free, x) || p.start <= x < end
  {
    forall x | p.start <= x < end ensures !Covers(reserved, x) {
      forall j | 0 <= j < |reserved| ensures !Has(reserved[j], x) {
      }
    }
    var m := Region(p.start, end);
    forall x ensures Covers(p.free + [m], x) <==> Covers(p.free, x) || p.start <= x < end {
      CoversConcat(p.free, [m], x);
      assert Covers([m], x) <==> Has([m][0], x);
    }
  }

  /** Taking the part up to the next reserved region, or up to the end. */
  lemma Take(avail: seq<Region>, reserved: seq<Region>, p: Pass, end: int)
    requires Sorted(reserved) && Inv(avail, reserved, p) && p.a < |avail|
    requires p.start < end <= avail[p.a].end && (p.r < |reserved| ==> end <= reserved[p.r].start)
    requires end == avail[p.a].end || Covers(reserved, end)
    ensures Inv(avail, reserved, p.(start := end, free := p.free + [Region(p.start, end)]))
  {
    FreeUpTo(avail, reserved, p, end);
    WholeTake(avail, reserved, p, end);
    var free' := p.free + [Region(p.start, end)];
    forall x ensures Covers(free', x) <==> Done(avail, p.a, end, x) && !Covers(reserved, x) {
      DoneFurther(avail, p.a, p.start, end, x);
    }
  }

  /** At the end the free regions are what is available and not reserved, in the largest pieces. */
  lemma Finish(avail: seq<Region>, reserved: seq<Region>, p: Pass)
    requires Inv(avail, reserved, p) && p.a == |avail|
    ensures forall x :: Covers(p.free, x) <==> Covers(avail, x) && !Covers(reserved, x)
    ensures Pieces(avail, reserved, p.free)
  {
    forall q | InsideOne(q, avail) ensures Seen(avail, p.a, p.start, q) {
      var k :| 0 <= k < |avail| && Inside(q, avail[k]);
      assert k < p.a;
    }
    forall i, x | 0 <= i < |p.free| && Has(p.free[i], x) ensures !Covers(reserved, x) {
      assert Covers(p.free, x);
    }
    forall x ensures Done(avail, p.a, p.start, x) <==> Covers(avail, x) {
      if Covers(avail, x) {
        var k :| 0 <= k < |avail| && Has(avail[k], x);
        assert k < p.a;
      }
    }
  }
}
