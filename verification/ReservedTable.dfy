/** The table of reserved physical regions that booting keeps. */
module ReservedTable {
  import opened Regions

  /** rs without its i-th region, which is joined to the one before it. */
  function Joined(rs: seq<Region>, i: nat): seq<Region>
    requires 0 < i < |rs|
  {
    rs[..i - 1] + [Region(rs[i - 1].start, rs[i].end)] + rs[i + 1..]
  }

  lemma JoinedCovers(rs: seq<Region>, i: nat, x: int)
    requires 0 < i < |rs| && NonEmpty(rs) && rs[i - 1].end == rs[i].start
    ensures Covers(Joined(rs, i), x) <==> Covers(rs, x)
    ensures NonEmpty(Joined(rs, i))
  {
    var a, b, both := rs[..i - 1], rs[i + 1..], Region(rs[i - 1].start, rs[i].end);
    var two := [rs[i - 1], rs[i]];
    assert rs == a + two + b;
    CoversConcat(a + two, b, x);
    CoversConcat(a, two, x);
    CoversConcat(a + [both], b, x);
    CoversConcat(a, [both], x);
    assert Covers([both], x) <==> Covers(two, x) by {
      if Has(both, x) {
        assert Has(two[0], x) || Has(two[1], x);
        assert Has([both][0], x);
      }
    }
  }

  lemma JoinedAt(rs: seq<Region>, i: nat, k: nat)
    requires 0 < i < |rs| && k < |rs| - 1
    ensures Joined(rs, i)[k].start == rs[if k < i then k else k + 1].start
    ensures Joined(rs, i)[k].end == rs[if k < i - 1 then k else k + 1].end
  {
  }

  lemma JoinedOrdered(rs: seq<Region>, i: nat)
    requires 0 < i < |rs| && Ordered(rs) && Separated(rs[..i])
    ensures Ordered(Joined(rs, i)) && Separated(Joined(rs, i)[..i])
  {
    var t := Joined(rs, i);
    forall k | 0 <= k < |t| ensures t[k].start < t[k].end {
      JoinedAt(rs, i, k);
      assert rs[k].end <= rs[k + 1].start;
    }
    forall p, q | 0 <= p < q < |t| ensures t[p].end <= t[q].start && (q < i ==> t[p].end < t[q].start) {
      JoinedAt(rs, i, p);
      JoinedAt(rs, i, q);
      if q < i { assert rs[..i][p].end < rs[..i][q].start; }
    }
    assert forall k :: 0 <= k < i ==> t[..i][k] == t[k];
  }

  /** Every region from i on moves down one place, over the one at i. */
  method RemoveAt(a: array<Region>, i: nat, count: nat)
    requires i < count <= a.Length
    modifies a
    ensures a[..count - 1] == old(a[..i]) + old(a[i + 1..count])
  {
    var j := i + 1;
    while j < count
      invariant i + 1 <= j <= count
      invariant forall k :: 0 <= k < i ==> a[k] == old(a[k])
      invariant forall k :: i <= k < j - 1 ==> a[k] == old(a[k + 1])
      invariant forall k :: j <= k < count ==> a[k] == old(a[k])
    {
      a[j - 1] := a[j];
      j := j + 1;
    }
    ghost var want := old(a[..i]) + old(a[i + 1..count]);
    assert forall k :: 0 <= k < count - 1 ==> a[k] == want[k];
  }

  /** Every region from i on moves up one place, and reg takes the place at i. */
  method InsertAt(a: array<Region>, i: nat, count: nat, reg: Region)
    requires i <= count < a.Length
    modifies a
    ensures a[..count + 1] == old(a[..i]) + [reg] + old(a[i..count])
  {
    var j := count;
    while j > i
      invariant i <= j <= count
      invariant forall k :: 0 <= k < j ==> a[k] == old(a[k])
      invariant forall k :: j < k <= count ==> a[k] == old(a[k - 1])
    {
      a[j] := a[j - 1];
      j := j - 1;
    }
    a[i] := reg;
  }

  /** `merge_regions`: adjacent neighbours become one region. */
  method MergeRegions(a: array<Region>, count0: nat) returns (count: nat)
    requires count0 <= a.Length && NonEmpty(a[..count0])
    modifies a
    ensures count <= count0 && NonEmpty(a[..count])
    ensures forall x :: Covers(a[..count], x) <==> old(Covers(a[..count0], x))
    ensures old(Ordered(a[..count0])) ==> Separated(a[..count])
  {
    count := count0;
    var i := 1;
    while i < count
      invariant 1 <= i && (i <= count || count == 0) && count <= count0
      invariant NonEmpty(a[..count])
      invariant forall x :: Covers(a[..count], x) <==> old(Covers(a[..count0], x))
      invariant old(Ordered(a[..count0])) && count > 0 ==> Ordered(a[..count]) && Separated(a[..count][..i])
      decreases count - i
    {
      ghost var rs := a[..count];
      if a[i - 1].end == a[i].start {
        forall x ensures Covers(Joined(rs, i), x) <==> Covers(rs, x) {
          JoinedCovers(rs, i, x);
        }
        JoinedCovers(rs, i, 0);
        if old(Ordered(a[..count0])) { JoinedOrdered(rs, i); }
        a[i - 1] := Region(a[i - 1].start, a[i].end);
        RemoveAt(a, i, count);
        count := count - 1;
        assert a[..count] == Joined(rs, i);
      } else {
        if old(Ordered(a[..count0])) { OneMoreSeparated(rs, i); }
        i := i + 1;
      }
    }
    if count > 0 { assert a[..count][..i] == a[..count]; }
  }

  lemma OneMoreSeparated(rs: seq<Region>, i: nat)
    requires 0 < i < |rs| && Ordered(rs) && Separated(rs[..i]) && rs[i - 1].end != rs[i].start
    ensures Separated(rs[..i + 1])
  {
    var t := rs[..i + 1];
    forall p, q | 0 <= p < q < |t| ensures t[p].end < t[q].start {
      if q < i { assert rs[..i][p].end < rs[..i][q].start; }
    }
  }
}
