/** Half-open address regions and lists of them. */
module Regions {
  datatype Region = Region(start: int, end: int)

  predicate Has(r: Region, x: int) {
    r.start <= x < r.end
  }

  predicate Covers(rs: seq<Region>, x: int) {
    exists i :: 0 <= i < |rs| && Has(rs[i], x)
  }

  predicate NonEmpty(rs: seq<Region>) {
    forall i :: 0 <= i < |rs| ==> rs[i].start < rs[i].end
  }

  /** In ascending order without overlap. */
  predicate Ordered(rs: seq<Region>) {
    NonEmpty(rs) && forall i, j :: 0 <= i < j < |rs| ==> rs[i].end <= rs[j].start
  }

  /** In ascending order with a gap between any two. */
  predicate Separated(rs: seq<Region>) {
    NonEmpty(rs) && forall i, j :: 0 <= i < j < |rs| ==> rs[i].end < rs[j].start
  }

  /** No address in common. */
  predicate Apart(r: Region, q: Region) {
    r.end <= q.start || q.end <= r.start
  }

  predicate ApartFromAll(r: Region, rs: seq<Region>) {
    forall i :: 0 <= i < |rs| ==> Apart(r, rs[i])
  }

  lemma CoversConcat(a: seq<Region>, b: seq<Region>, x: int)
    ensures Covers(a + b, x) <==> Covers(a, x) || Covers(b, x)
  {
    if Covers(a, x) {
      var i :| 0 <= i < |a| && Has(a[i], x);
      assert Has((a + b)[i], x);
    }
    if Covers(b, x) {
      var i :| 0 <= i < |b| && Has(b[i], x);
      assert Has((a + b)[|a| + i], x);
    }
  }

  /** One region of a list replaced by another. */
  lemma CoversUpdate(rs: seq<Region>, i: nat, r: Region, x: int)
    requires i < |rs|
    requires forall y :: Has(rs[i], y) ==> Has(r, y)
    ensures Covers(rs[i := r], x) <==> Covers(rs, x) || Has(r, x)
  {
    var ss := rs[i := r];
    if Has(r, x) { assert Has(ss[i], x); }
    if Covers(rs, x) {
      var k :| 0 <= k < |rs| && Has(rs[k], x);
      assert Has(ss[k], x);
    }
    if Covers(ss, x) {
      var k :| 0 <= k < |ss| && Has(ss[k], x);
      if k != i { assert Has(rs[k], x); }
    }
  }
}
