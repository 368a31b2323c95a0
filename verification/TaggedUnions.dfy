/**
  Tagged unions whose tag field differs in width and position from block to block.
  The generator checks the tag values against class masks; the cascading reader it
  emits then finds the tag of every block, whatever else the word holds.
 */
module TaggedUnions {
  import opened Basics
  import opened Bits
  import opened BitSets

  /** A block of the union: the value of its tag, where the tag field lies, and the block's base and size. */
  datatype Tag = Tag(name: string, value: nat, offset: nat, size: nat, high: bool, base: nat, blockSize: nat)

  /** What the generator works out: class masks relative to the lowest tag field, by width. */
  datatype Layout = Layout(classes: map<nat, nat>, tagOffset: map<nat, nat>, classOffset: nat, widths: seq<nat>)

  // ---- Sorting the widths ----------------------------------------------------------------

  predicate IsLeast(m: nat, s: set<nat>) {
    m in s && forall y :: y in s ==> m <= y
  }

  lemma {:induction false} LeastExists(s: set<nat>) returns (m: nat)
    requires s != {}
    ensures IsLeast(m, s)
    decreases |s|
  {
    var x :| x in s;
    var rest := s - {x};
    assert s == rest + {x};
    m := x;
    if rest != {} {
      var y := LeastExists(rest);
      if y < x { m := y; }
      assert IsLeast(m, s);
    }
  }

  /** The elements in ascending order. */
  ghost function Ascending(s: set<nat>): seq<nat>
    decreases |s|
  {
    if s == {} then []
    else
      assert exists m :: IsLeast(m, s) by { var m := LeastExists(s); }
      var m :| IsLeast(m, s);
      [m] + Ascending(s - {m})
  }

  lemma AscendingStep(s: set<nat>, m: nat)
    requires IsLeast(m, s)
    ensures Ascending(s) == [m] + Ascending(s - {m})
  {
    var k := Ascending(s)[0];
    assert IsLeast(k, s);
    assert k == m;
  }

  lemma {:induction false} AscendingOrder(s: set<nat>)
    ensures forall x :: x in s <==> x in Ascending(s)
    ensures forall i, j :: 0 <= i < j < |Ascending(s)| ==> Ascending(s)[i] < Ascending(s)[j]
    decreases |s|
  {
    if s != {} {
      var m := LeastExists(s);
      var rest := s - {m};
      AscendingOrder(rest);
      AscendingStep(s, m);
      var q := Ascending(rest);
      assert forall x :: x in s <==> x == m || x in q;
      forall i, j | 0 <= i < j < |Ascending(s)| ensures Ascending(s)[i] < Ascending(s)[j] {
        assert Ascending(s)[j] == q[j - 1] && q[j - 1] in rest;
        if i > 0 { assert Ascending(s)[i] == q[i - 1]; }
      }
    }
  }

  lemma AscendingLeast(s: set<nat>)
    requires s != {}
    ensures IsLeast(Ascending(s)[0], s)
  {
    var m := LeastExists(s);
    AscendingStep(s, m);
  }

  /** `sorted` of a set */
  method Sorted(s: set<nat>) returns (q: seq<nat>)
    ensures q == Ascending(s)
  {
    q := [];
    var rest := s;
    while rest != {}
      invariant q + Ascending(rest) == Ascending(s)
      decreases |rest|
    {
      ghost var l := LeastExists(rest);
      var m :| IsLeast(m, rest);
      AscendingStep(rest, m);
      assert m in rest;
      q, rest := q + [m], rest - {m};
    }
  }

  // ---- What the generator accepts ---------------------------------------------------------

  /** Where the tag field of each width lies, by the last block that has one. */
  function Offsets(tags: seq<Tag>): map<nat, nat> {
    if tags == [] then map[] else var t := tags[|tags| - 1]; Offsets(tags[..|tags| - 1])[t.size := t.offset]
  }

  /** The mask of a class lies inside its field. */
  ghost predicate MaskInField(l: Layout, w: nat)
    requires w in l.classes && w in l.tagOffset
  {
    Includes(Shl(Pow2(w) - 1, l.tagOffset[w]), Shl(l.classes[w], l.classOffset))
  }

  /** The checks on the masks. */
  ghost predicate GoodMasks(l: Layout) {
    && l.tagOffset.Keys == l.classes.Keys && (forall w :: w in l.widths <==> w in l.classes)
    && (forall w :: w in l.classes ==> MaskInField(l, w))
    && (|l.widths| > 1 ==> l.classes[l.widths[0]] != 0)
    && (forall i :: 1 <= i < |l.widths| - 1 ==> l.classes[l.widths[i - 1]] != l.classes[l.widths[i]])
    && (forall i :: 1 <= i < |l.widths| ==> Includes(l.classes[l.widths[i]], l.classes[l.widths[i - 1]]))
  }

  /** The tag value at its place in the field, relative to the lowest field. */
  function Placed(l: Layout, t: Tag): nat
    requires t.size in l.tagOffset && l.classOffset <= l.tagOffset[t.size]
  {
    Shl(t.value, l.tagOffset[t.size] - l.classOffset)
  }

  /** `assert_value_in_class`: the value fits its field, has all masks of narrower classes, and not its own. */
  ghost predicate ValueInClass(l: Layout, t: Tag)
    requires t.size in l.classes && t.size in l.tagOffset && l.classOffset <= l.tagOffset[t.size]
    requires forall w :: w in l.widths ==> w in l.classes
  {
    && Includes(Shl(Pow2(t.size) - 1, l.tagOffset[t.size]), Shl(t.value, l.tagOffset[t.size]))
    && (forall w :: w in l.widths && w < t.size ==> Includes(Placed(l, t), l.classes[w]))
    && (l.widths != [] && t.size != l.widths[|l.widths| - 1] ==> !Includes(Placed(l, t), l.classes[t.size]))
  }

  /** Widths ascend and each is a block's; the class offset is below every field. */
  predicate WellFormed(l: Layout, tags: seq<Tag>) {
    && (forall i, j :: 0 <= i < j < |l.widths| ==> l.widths[i] < l.widths[j])
    && l.tagOffset == Offsets(tags)
    && (forall w :: w in l.tagOffset ==> l.classOffset <= l.tagOffset[w])
    && (forall k :: 0 <= k < |tags| ==> tags[k].size in l.tagOffset)
  }

  ghost predicate Accepted(l: Layout, tags: seq<Tag>) {
    && WellFormed(l, tags) && GoodMasks(l)
    && (forall i, j :: 0 <= i < j < |tags| ==> tags[i].name != tags[j].name && tags[i].value != tags[j].value)
    && (forall k :: 0 <= k < |tags| ==> tags[k].offset == l.tagOffset[tags[k].size] && ValueInClass(l, tags[k]))
  }

  /** All tag fields lie in one word of `base` bits. */
  predicate OneWord(l: Layout, base: nat)
    requires base > 0
  {
    forall w, v :: w in l.tagOffset && v in l.tagOffset ==> l.tagOffset[w] / base == l.tagOffset[v] / base
  }

  // ---- The reader ---------------------------------------------------------------------------

  /** `word_classmask`: the class mask at its place in the word. */
  function ClassMask(l: Layout, base: nat, w: nat): nat
    requires base > 0 && w in l.classes
  {
    Shl(l.classes[w], l.classOffset % base)
  }

  /** The tag field of width w in a word. */
  function FieldOf(l: Layout, base: nat, w: nat, word: nat): nat
    requires base > 0 && w in l.tagOffset
  {
    Low(Shr(word, l.tagOffset[w] % base), w)
  }

  /** The emitted reader, from the k-th width on: the first class whose mask the word does not have. */
  function ReadTag(l: Layout, base: nat, word: nat, k: nat): nat
    requires base > 0 && k < |l.widths|
    requires forall w :: w in l.widths ==> w in l.classes && w in l.tagOffset
    decreases |l.widths| - k
  {
    var w := l.widths[k];
    if k == |l.widths| - 1 || And(word, ClassMask(l, base, w)) != ClassMask(l, base, w) then FieldOf(l, base, w, word)
    else ReadTag(l, base, word, k + 1)
  }

  lemma SameWord(a: nat, b: nat, base: nat)
    requires base > 0 && a <= b && a / base == b / base
    ensures b % base == a % base + (b - a)
  {
    DivBounds(a, base);
    DivBounds(b, base);
  }

  /** Within a block's field the word has exactly the bits of the block's tag. */
  lemma FieldBit(l: Layout, base: nat, t: Tag, word: nat, i: nat)
    requires base > 0 && t.size in l.tagOffset && l.classOffset <= l.tagOffset[t.size]
    requires l.classOffset / base == l.tagOffset[t.size] / base
    requires FieldOf(l, base, t.size, word) == t.value
    ensures Bit(Placed(l, t), i) ==> Bit(word, i + l.classOffset % base)
    ensures
      l.tagOffset[t.size] - l.classOffset <= i < l.tagOffset[t.size] - l.classOffset + t.size ==>
      !Bit(Placed(l, t), i) ==>
      !Bit(word, i + l.classOffset % base)
  {
    var d, s := l.tagOffset[t.size] - l.classOffset, l.tagOffset[t.size] % base;
    SameWord(l.classOffset, l.tagOffset[t.size], base);
    ShlBit(t.value, d, i);
    if i >= d {
      LowBit(Shr(word, s), t.size, i - d);
      ShrBit(word, s, i - d);
    }
  }

  /** A word with the block's tag has the class masks of all narrower widths. */
  lemma NarrowerPassed(l: Layout, base: nat, t: Tag, word: nat, w: nat)
    requires base > 0 && t.size in l.tagOffset && l.classOffset <= l.tagOffset[t.size]
    requires l.classOffset / base == l.tagOffset[t.size] / base && w in l.classes
    requires FieldOf(l, base, t.size, word) == t.value && Includes(Placed(l, t), l.classes[w])
    ensures And(word, ClassMask(l, base, w)) == ClassMask(l, base, w)
  {
    var m, c := l.classes[w], l.classOffset % base;
    forall i: nat | Bit(Shl(m, c), i) ensures Bit(word, i) {
      ShlBit(m, c, i);
      FieldBit(l, base, t, word, i - c);
    }
    AndMask(word, ClassMask(l, base, w));
  }

  /** It does not have the mask of its own class. */
  lemma OwnStops(l: Layout, base: nat, t: Tag, word: nat)
    requires base > 0 && t.size in l.tagOffset && l.classOffset <= l.tagOffset[t.size]
    requires l.classOffset / base == l.tagOffset[t.size] / base && t.size in l.classes && MaskInField(l, t.size)
    requires FieldOf(l, base, t.size, word) == t.value && !Includes(Placed(l, t), l.classes[t.size])
    ensures And(word, ClassMask(l, base, t.size)) != ClassMask(l, base, t.size)
  {
    var m, c, d := l.classes[t.size], l.classOffset % base, l.tagOffset[t.size] - l.classOffset;
    var i: nat :| Bit(m, i) && !Bit(Placed(l, t), i);
    ShlBit(m, l.classOffset, i + l.classOffset);
    ShlBit(Pow2(t.size) - 1, l.tagOffset[t.size], i + l.classOffset);
    OnesBit(t.size, i + l.classOffset - l.tagOffset[t.size]);
    assert d <= i < d + t.size;
    FieldBit(l, base, t, word, i);
    ShlBit(m, c, i + c);
    AndMask(word, ClassMask(l, base, t.size));
  }

  /** The class offset is that of one of the fields. */
  predicate LowestField(l: Layout) {
    exists w :: w in l.tagOffset && l.tagOffset[w] == l.classOffset
  }

  /** What the reader relies on for a block: its width is looked for, and its mask and value have passed the checks. */
  ghost predicate Legible(l: Layout, base: nat, t: Tag)
    requires base > 0
  {
    && (forall i, j :: 0 <= i < j < |l.widths| ==> l.widths[i] < l.widths[j])
    && (forall w :: w in l.widths ==> w in l.classes && w in l.tagOffset)
    && t.size in l.widths && l.classOffset <= l.tagOffset[t.size]
    && l.classOffset / base == l.tagOffset[t.size] / base
    && MaskInField(l, t.size) && ValueInClass(l, t)
  }

  lemma AcceptedLegible(l: Layout, tags: seq<Tag>, base: nat, n: nat)
    requires base > 0 && Accepted(l, tags) && LowestField(l) && OneWord(l, base) && n < |tags|
    ensures Legible(l, base, tags[n])
  {
    var w :| w in l.tagOffset && l.tagOffset[w] == l.classOffset;
    assert tags[n].size in l.tagOffset;
    assert tags[n].size in l.classes && tags[n].size in l.widths;
  }

  lemma {:induction false} ReaderFrom(l: Layout, t: Tag, base: nat, word: nat, k: nat)
    requires base > 0 && Legible(l, base, t) && k < |l.widths| && l.widths[k] <= t.size
    requires FieldOf(l, base, t.size, word) == t.value
    ensures ReadTag(l, base, word, k) == t.value
    decreases |l.widths| - k
  {
    var w := l.widths[k];
    if w < t.size {
      NarrowerPassed(l, base, t, word, w);
      var j :| 0 <= j < |l.widths| && l.widths[j] == t.size;
      ReaderFrom(l, t, base, word, k + 1);
    } else if k < |l.widths| - 1 {
      OwnStops(l, base, t, word);
    }
  }

  /**
    For every union that is accepted, every block of it, and every word that holds the
    block's tag in the block's field, whatever its other bits, the reader returns the tag.
   */
  lemma ReaderFindsTag(l: Layout, tags: seq<Tag>, base: nat, n: nat, word: nat)
    requires base > 0 && Accepted(l, tags) && LowestField(l) && OneWord(l, base) && n < |tags|
    requires FieldOf(l, base, tags[n].size, word) == tags[n].value
    ensures |l.widths| > 0 && ReadTag(l, base, word, 0) == tags[n].value
  {
    AcceptedLegible(l, tags, base, n);
    var j :| 0 <= j < |l.widths| && l.widths[j] == tags[n].size;
    ReaderFrom(l, tags[n], base, word, 0);
  }

  /** So no word reads as two different blocks. */
  lemma BlocksTellApart(l: Layout, tags: seq<Tag>, base: nat, n: nat, k: nat, word: nat)
    requires base > 0 && Accepted(l, tags) && LowestField(l) && OneWord(l, base) && n < |tags| && k < |tags| && n != k
    requires FieldOf(l, base, tags[n].size, word) == tags[n].value
    ensures FieldOf(l, base, tags[k].size, word) != tags[k].value
  {
    assert tags[if n < k then n else k].value != tags[if n < k then k else n].value;
    ReaderFindsTag(l, tags, base, n, word);
    if FieldOf(l, base, tags[k].size, word) == tags[k].value {
      ReaderFindsTag(l, tags, base, k, word);
    }
  }

  // ---- What the checks mean ------------------------------------------------------------------

  lemma {:induction false} SameBits(x: nat, y: nat)
    requires Includes(x, y) && Includes(y, x)
    ensures x == y
    decreases x + y
  {
    if x != y {
      IncludesHalf(x, y);
      IncludesHalf(y, x);
      SameBits(x / 2, y / 2);
    }
  }

  /** Every mask includes all masks of narrower classes, and more than them unless it is the widest. */
  ghost predicate Chain(l: Layout)
    requires forall w :: w in l.widths ==> w in l.classes
  {
    forall i, j :: 0 <= i < j < |l.widths| ==>
      && Includes(l.classes[l.widths[j]], l.classes[l.widths[i]])
      && (j < |l.widths| - 1 ==> !Includes(l.classes[l.widths[i]], l.classes[l.widths[j]]))
  }

  /** Comparing neighbours is enough: the masks pass exactly if they form such a chain that begins above zero. */
  lemma {:induction false} MasksChain(l: Layout)
    requires l.tagOffset.Keys == l.classes.Keys && forall w :: w in l.widths <==> w in l.classes
    ensures GoodMasks(l) <==>
      && (forall w :: w in l.classes ==> MaskInField(l, w))
      && Chain(l) && (|l.widths| > 1 ==> l.classes[l.widths[0]] > 0)
  {
    if GoodMasks(l) {
      forall i, j | 0 <= i < j < |l.widths|
        ensures Includes(l.classes[l.widths[j]], l.classes[l.widths[i]])
        ensures j < |l.widths| - 1 ==> !Includes(l.classes[l.widths[i]], l.classes[l.widths[j]])
      {
        ChainLink(l, i, j);
      }
    }
    if Chain(l) {
      forall i | 1 <= i < |l.widths|
        ensures Includes(l.classes[l.widths[i]], l.classes[l.widths[i - 1]])
        ensures i < |l.widths| - 1 ==> l.classes[l.widths[i - 1]] != l.classes[l.widths[i]]
      {
        var a := i - 1;
        assert a < i;
      }
    }
  }

  lemma {:induction false} ChainLink(l: Layout, i: nat, j: nat)
    requires GoodMasks(l) && i < j < |l.widths|
    ensures Includes(l.classes[l.widths[j]], l.classes[l.widths[i]])
    ensures j < |l.widths| - 1 ==> !Includes(l.classes[l.widths[i]], l.classes[l.widths[j]])
    decreases j
  {
    var before, mask := l.classes[l.widths[j - 1]], l.classes[l.widths[j]];
    assert Includes(mask, before);
    if i < j - 1 { ChainLink(l, i, j - 1); }
    if j < |l.widths| - 1 && Includes(l.classes[l.widths[i]], mask) {
      assert Includes(before, mask);
      SameBits(before, mask);
    }
  }

  /** Without declared masks, the masks pass exactly if all tags are of one width. */
  lemma {:induction false} WithoutMasks(tags: seq<Tag>)
    requires tags != []
    ensures GoodMasks(Worked(tags, map[])) <==> forall i, j :: 0 <= i < j < |tags| ==> tags[i].size == tags[j].size
  {
    var l, offsets := Worked(tags, map[]), Offsets(tags);
    SizesHaveOffsets(tags);
    var w := Ascending(offsets.Keys)[0];
    AscendingLeast(offsets.Keys);
    AscendingOrder(l.classes.Keys);
    assert l.classes.Keys == {w};
    OneWidth(tags);
    assert |l.widths| == 1 by { OneOnly(l.widths, w); }
    forall i: nat ensures !Bit(Shl(0, l.classOffset), i) {
      ShlBit(0, l.classOffset, i);
      if i >= l.classOffset { ZeroBits(i - l.classOffset); }
    }
  }

  lemma OneOnly(q: seq<nat>, w: nat)
    requires forall x :: x in q <==> x == w
    requires forall i, j :: 0 <= i < j < |q| ==> q[i] < q[j]
    ensures q == [w]
  {
    assert w in q;
    assert forall i :: 0 <= i < |q| ==> q[i] in q;
    assert q[0] == w && q[|q| - 1] == w;
  }

  lemma {:induction false} OneWidth(tags: seq<Tag>)
    ensures forall w :: w in Offsets(tags) <==> exists k :: 0 <= k < |tags| && tags[k].size == w
    decreases |tags|
  {
    if tags != [] {
      var init := tags[..|tags| - 1];
      OneWidth(init);
      assert forall k :: 0 <= k < |init| ==> init[k] == tags[k];
    }
  }

  /** A value lies in its field, wherever that is, exactly if it has no more bits than the field. */
  lemma {:induction false} ValueFits(value: nat, offset: nat, size: nat)
    ensures Includes(Shl(Pow2(size) - 1, offset), Shl(value, offset)) <==> value < Pow2(size)
  {
    var ones := Pow2(size) - 1;
    if value < Pow2(size) {
      Small(value, size);
      forall i: nat | Bit(Shl(value, offset), i) ensures Bit(Shl(ones, offset), i) {
        ShlBit(value, offset, i);
        LowBit(value, size, i - offset);
        OnesBit(size, i - offset);
        ShlBit(ones, offset, i);
      }
    }
    if Includes(Shl(ones, offset), Shl(value, offset)) {
      forall i: nat | Bit(value, i) ensures Bit(Low(value, size), i) {
        ShlBit(value, offset, i + offset);
        ShlBit(ones, offset, i + offset);
        OnesBit(size, i);
        LowBit(value, size, i);
      }
      forall i: nat | Bit(Low(value, size), i) ensures Bit(value, i) { LowBit(value, size, i); }
      SameBits(value, Low(value, size));
      LowBound(value, size);
    }
  }

  /** So a declared mask passes exactly if it has no more bits than its field: it is moved to where the field lies. */
  lemma {:induction false} DeclaredMaskFits(tags: seq<Tag>, declared: map<nat, nat>, w: nat)
    requires tags != [] && w in declared && w in Offsets(tags)
    ensures var l := Worked(tags, declared);
      w in l.classes && w in l.tagOffset && (MaskInField(l, w) <==> declared[w] < Pow2(w))
  {
    var offsets := Offsets(tags);
    SizesHaveOffsets(tags);
    var low := Ascending(offsets.Values)[0];
    AscendingLeast(offsets.Values);
    assert offsets[w] in offsets.Values;
    ShlSum(declared[w], offsets[w] - low, low);
    ValueFits(declared[w], offsets[w], w);
  }

  /** Every block of an accepted union has a word: its tag alone, which reads as that tag. */
  lemma {:induction false} TagAlone(l: Layout, tags: seq<Tag>, base: nat, n: nat)
    requires base > 0 && Accepted(l, tags) && LowestField(l) && OneWord(l, base) && n < |tags|
    ensures var t := tags[n]; var word := Shl(t.value, t.offset % base);
      && t.value < Pow2(t.size) && Low(Shr(word, t.offset % base), t.size) == t.value
      && |l.widths| > 0 && ReadTag(l, base, word, 0) == t.value
  {
    var t := tags[n];
    var word := Shl(t.value, t.offset % base);
    AcceptedLegible(l, tags, base, n);
    ValueFits(t.value, t.offset, t.size);
    ShlThenShr(t.value, t.offset % base, 0);
    Small(t.value, t.size);
    ReaderFindsTag(l, tags, base, n, word);
  }

  // ---- The generator's checks as it runs them ---------------------------------------------------

  predicate Distinct(tags: seq<Tag>) {
    forall i, j :: 0 <= i < j < |tags| ==> tags[i].name != tags[j].name && tags[i].value != tags[j].value
  }

  /** The tag field is low-aligned, and the block is of the same base and size as the first. */
  predicate Matching(tags: seq<Tag>, t: Tag)
    requires tags != []
  {
    !t.high && t.base == tags[0].base && t.blockSize == tags[0].blockSize
  }

  /** `resolve_tag_values`, for tags that are single values */
  method ResolveTagValues(tags: seq<Tag>) returns (ok: bool)
    ensures ok <==> Distinct(tags)
  {
    var usedNames, usedValues := {}, {};
    var k := 0;
    while k < |tags|
      invariant 0 <= k <= |tags| && Distinct(tags[..k])
      invariant usedNames == Names(tags[..k]) && usedValues == Values(tags[..k])
    {
      UsedBefore(tags, k);
      if tags[k].name in usedNames || tags[k].value in usedValues {
        return false;
      }
      usedNames, usedValues := usedNames + {tags[k].name}, usedValues + {tags[k].value};
      k := k + 1;
    }
    assert tags[..k] == tags;
    return true;
  }

  function Names(tags: seq<Tag>): set<string> {
    if tags == [] then {} else Names(tags[..|tags| - 1]) + {tags[|tags| - 1].name}
  }

  function Values(tags: seq<Tag>): set<nat> {
    if tags == [] then {} else Values(tags[..|tags| - 1]) + {tags[|tags| - 1].value}
  }

  lemma {:induction false} NamesAndValues(tags: seq<Tag>, t: Tag)
    ensures t.name in Names(tags) <==> exists i :: 0 <= i < |tags| && tags[i].name == t.name
    ensures t.value in Values(tags) <==> exists i :: 0 <= i < |tags| && tags[i].value == t.value
    decreases |tags|
  {
    if tags != [] {
      var init := tags[..|tags| - 1];
      NamesAndValues(init, t);
      assert forall i :: 0 <= i < |init| ==> init[i] == tags[i];
    }
  }

  /** A tag that was not used keeps the tags distinct; one that was does not. */
  lemma UsedBefore(tags: seq<Tag>, k: nat)
    requires k < |tags| && Distinct(tags[..k])
    ensures tags[..k + 1][..k] == tags[..k] && tags[..k + 1][k] == tags[k]
    ensures Distinct(tags[..k + 1]) <==> tags[k].name !in Names(tags[..k]) && tags[k].value !in Values(tags[..k])
    ensures !Distinct(tags[..k + 1]) ==> !Distinct(tags)
  {
    NamesAndValues(tags[..k], tags[k]);
    assert forall i :: 0 <= i < k ==> tags[..k][i] == tags[..k + 1][i] == tags[i];
  }

  /** Class masks relative to the lowest field, from masks relative to their own. */
  function Shifted(classes: map<nat, nat>, offsets: map<nat, nat>, low: nat): map<nat, nat> {
    map w | w in classes && w in offsets && low <= offsets[w] :: Shl(classes[w], offsets[w] - low)
  }

  method ShiftClasses(classes: map<nat, nat>, offsets: map<nat, nat>, low: nat) returns (ok: bool, r: map<nat, nat>)
    requires forall w :: w in offsets ==> low <= offsets[w]
    ensures ok <==> classes.Keys <= offsets.Keys
    ensures ok ==> r == Shifted(classes, offsets, low)
  {
    r := classes;
    var rest := classes.Keys;
    while rest != {}
      invariant rest <= classes.Keys == r.Keys
      invariant forall w :: w in classes && w !in rest ==> w in offsets && r[w] == Shl(classes[w], offsets[w] - low)
      invariant forall w :: w in rest ==> r[w] == classes[w]
      decreases |rest|
    {
      var w :| w in rest;
      if w !in offsets {
        return false, r;
      }
      r := r[w := Shl(r[w], offsets[w] - low)];
      rest := rest - {w};
    }
    return true, r;
  }

  method CollectOffsets(tags: seq<Tag>) returns (offsets: map<nat, nat>)
    ensures offsets == Offsets(tags)
  {
    offsets := map[];
    var k := 0;
    while k < |tags|
      invariant 0 <= k <= |tags| && offsets == Offsets(tags[..k])
    {
      assert tags[..k + 1][..k] == tags[..k];
      offsets := offsets[tags[k].size := tags[k].offset];
      k := k + 1;
    }
    assert tags[..k] == tags;
  }

  /** The checks on the masks, in order of width. */
  method CheckMasks(l: Layout) returns (ok: bool)
    requires forall w :: w in l.widths <==> w in l.classes
    ensures ok <==> GoodMasks(l)
  {
    if l.tagOffset.Keys != l.classes.Keys {
      return false;
    }
    ok := CheckFields(l);
    if !ok {
      return;
    }
    if |l.widths| > 1 && l.classes[l.widths[0]] == 0 {
      return false;
    }
    ok := CheckDuplicates(l);
    if !ok {
      return;
    }
    ok := CheckNesting(l);
  }

  method CheckFields(l: Layout) returns (ok: bool)
    requires (forall w :: w in l.widths <==> w in l.classes) && l.tagOffset.Keys == l.classes.Keys
    ensures ok <==> forall w :: w in l.classes ==> MaskInField(l, w)
  {
    var k := 0;
    while k < |l.widths|
      invariant 0 <= k <= |l.widths| && forall i :: 0 <= i < k ==> MaskInField(l, l.widths[i])
    {
      var w := l.widths[k];
      assert w in l.classes;
      var field := Shl(Pow2(w) - 1, l.tagOffset[w]);
      OrWithin(Shl(l.classes[w], l.classOffset), field);
      if Or(Shl(l.classes[w], l.classOffset), field) != field {
        return false;
      }
      k := k + 1;
    }
    return true;
  }

  method CheckDuplicates(l: Layout) returns (ok: bool)
    requires forall w :: w in l.widths ==> w in l.classes
    ensures ok <==> forall i :: 1 <= i < |l.widths| - 1 ==> l.classes[l.widths[i - 1]] != l.classes[l.widths[i]]
  {
    var k := 1;
    while k < |l.widths| - 1
      invariant 1 <= k
      invariant forall i :: 1 <= i < k && i < |l.widths| - 1 ==> l.classes[l.widths[i - 1]] != l.classes[l.widths[i]]
    {
      if l.classes[l.widths[k - 1]] == l.classes[l.widths[k]] {
        return false;
      }
      k := k + 1;
    }
    return true;
  }

  /** Each mask includes the one before it. */
  method CheckNesting(l: Layout) returns (ok: bool)
    requires forall w :: w in l.widths ==> w in l.classes
    ensures ok <==> forall i :: 1 <= i < |l.widths| ==> Includes(l.classes[l.widths[i]], l.classes[l.widths[i - 1]])
  {
    var k := 1;
    while k < |l.widths|
      invariant 1 <= k
      invariant forall i :: 1 <= i < k && i < |l.widths| ==>
        Includes(l.classes[l.widths[i]], l.classes[l.widths[i - 1]])
    {
      var mask, preMask := l.classes[l.widths[k]], l.classes[l.widths[k - 1]];
      AndMask(mask, preMask);
      if And(mask, preMask) != preMask {
        return false;
      }
      k := k + 1;
    }
    return true;
  }

  /** `assert_value_in_class` */
  method CheckValue(l: Layout, t: Tag) returns (ok: bool)
    requires t.size in l.classes && t.size in l.tagOffset && l.classOffset <= l.tagOffset[t.size]
    requires forall w :: w in l.widths ==> w in l.classes
    ensures ok <==> ValueInClass(l, t)
  {
    var value, field := Shl(t.value, l.tagOffset[t.size]), Shl(Pow2(t.size) - 1, l.tagOffset[t.size]);
    var placed := Placed(l, t);
    OrWithin(value, field);
    if Or(value, field) != field {
      return false;
    }
    var k := 0;
    while k < |l.widths|
      invariant 0 <= k <= |l.widths|
      invariant forall i :: 0 <= i < k && l.widths[i] < t.size ==> Includes(placed, l.classes[l.widths[i]])
    {
      var w := l.widths[k];
      if w < t.size {
        AndMask(placed, l.classes[w]);
        if And(placed, l.classes[w]) != l.classes[w] {
          return false;
        }
      }
      k := k + 1;
    }
    AndMask(placed, l.classes[t.size]);
    if l.widths != [] && t.size != l.widths[|l.widths| - 1] && And(placed, l.classes[t.size]) == l.classes[t.size] {
      return false;
    }
    return true;
  }

  /** The loop of `resolve` over the blocks. */
  method CheckBlocks(l: Layout, tags: seq<Tag>) returns (ok: bool)
    requires tags != [] && WellFormed(l, tags) && GoodMasks(l)
    ensures ok <==> forall k :: 0 <= k < |tags| ==>
      tags[k].offset == l.tagOffset[tags[k].size] && ValueInClass(l, tags[k]) && Matching(tags, tags[k])
  {
    var unionBase: Option<nat>, unionSize: Option<nat> := None, None;
    var k := 0;
    while k < |tags|
      invariant 0 <= k <= |tags|
      invariant k == 0 ==> unionBase == None && unionSize == None
      invariant k > 0 ==> unionBase == Some(tags[0].base) && unionSize == Some(tags[0].blockSize)
      invariant forall i :: 0 <= i < k ==>
        tags[i].offset == l.tagOffset[tags[i].size] && ValueInClass(l, tags[i]) && Matching(tags, tags[i])
    {
      if unionBase.None? {
        unionBase := Some(tags[k].base);
      } else if unionBase.value != tags[k].base {
        return false;
      }
      if unionSize.None? {
        unionSize := Some(tags[k].blockSize);
      } else if unionSize.value != tags[k].blockSize {
        return false;
      }
      if tags[k].offset != l.tagOffset[tags[k].size] {
        return false;
      }
      var inClass := CheckValue(l, tags[k]);
      if !inClass || tags[k].high {
        return false;
      }
      k := k + 1;
    }
    return true;
  }

  /** What the generator works out from the tags and the declared masks. */
  ghost function Worked(tags: seq<Tag>, declared: map<nat, nat>): Layout
    requires tags != []
  {
    var offsets := Offsets(tags);
    SizesHaveOffsets(tags);
    var low := Ascending(offsets.Values)[0];
    var classes := if declared == map[] then map[Ascending(offsets.Keys)[0] := 0] else Shifted(declared, offsets, low);
    Layout(classes, offsets, low, Ascending(classes.Keys))
  }

  lemma {:induction false} SizesHaveOffsets(tags: seq<Tag>)
    ensures forall k :: 0 <= k < |tags| ==> tags[k].size in Offsets(tags)
    ensures tags != [] ==> Offsets(tags).Keys != {} && Offsets(tags).Values != {}
    decreases |tags|
  {
    if tags != [] {
      var init, t := tags[..|tags| - 1], tags[|tags| - 1];
      SizesHaveOffsets(init);
      assert t.size in Offsets(tags) && t.offset == Offsets(tags)[t.size];
      assert t.offset in Offsets(tags).Values;
      forall k | 0 <= k < |tags| ensures tags[k].size in Offsets(tags) {
        if k < |init| { assert init[k] == tags[k]; }
      }
    }
  }

  method LowestOffset(tags: seq<Tag>, offsets: map<nat, nat>) returns (low: nat)
    requires tags != [] && offsets == Offsets(tags)
    ensures IsLeast(low, offsets.Values) && low == Ascending(offsets.Values)[0]
    ensures forall w :: w in offsets ==> low <= offsets[w]
  {
    SizesHaveOffsets(tags);
    var sorted := Sorted(offsets.Values);
    AscendingLeast(offsets.Values);
    low := sorted[0];
    assert forall w :: w in offsets ==> offsets[w] in offsets.Values;
  }

  /** Without declared masks, the narrowest class takes everything. */
  method DefaultClasses(offsets: map<nat, nat>) returns (classes: map<nat, nat>)
    requires offsets.Keys != {}
    ensures Ascending(offsets.Keys) != [] && classes == map[Ascending(offsets.Keys)[0] := 0]
  {
    AscendingLeast(offsets.Keys);
    var sorted := Sorted(offsets.Keys);
    classes := map[sorted[0] := 0];
  }

  lemma WorkedWellFormed(tags: seq<Tag>, declared: map<nat, nat>)
    requires tags != []
    ensures WellFormed(Worked(tags, declared), tags) && LowestField(Worked(tags, declared))
    ensures forall w :: w in Worked(tags, declared).widths <==> w in Worked(tags, declared).classes
    ensures Offsets(tags).Keys != {}
  {
    var l, offsets := Worked(tags, declared), Offsets(tags);
    SizesHaveOffsets(tags);
    AscendingLeast(offsets.Values);
    AscendingOrder(l.classes.Keys);
    assert forall w :: w in offsets ==> offsets[w] in offsets.Values;
  }

  /** The masks, shifted to be comparable, and the widths in order. */
  method WorkOut(tags: seq<Tag>, offsets: map<nat, nat>, low: nat, declared: map<nat, nat>)
    returns (ok: bool, classes: map<nat, nat>, widths: seq<nat>)
    requires tags != [] && offsets == Offsets(tags) && IsLeast(low, offsets.Values)
    requires low == Ascending(offsets.Values)[0] && forall w :: w in offsets ==> low <= offsets[w]
    ensures ok <==> declared.Keys <= offsets.Keys
    ensures ok ==> Layout(classes, offsets, low, widths) == Worked(tags, declared)
    ensures ok ==> WellFormed(Worked(tags, declared), tags) && LowestField(Worked(tags, declared))
    ensures ok ==> forall w :: w in widths <==> w in classes
  {
    WorkedWellFormed(tags, declared);
    ok, classes := ShiftClasses(declared, offsets, low);
    if !ok {
      return false, classes, [];
    }
    if classes == map[] {
      classes := DefaultClasses(offsets);
    }
    widths := Sorted(classes.Keys);
  }

  class TaggedUnion {
    const tags: seq<Tag>
    var classes: map<nat, nat>
    var tagOffset: map<nat, nat>
    var classOffset: nat
    var widths: seq<nat>

    constructor (unionTags: seq<Tag>, declared: map<nat, nat>)
      ensures tags == unionTags && classes == declared
    {
      tags, classes, tagOffset, classOffset, widths := unionTags, declared, map[], 0, [];
    }

    function View(): Layout
      reads this
    {
      Layout(classes, tagOffset, classOffset, widths)
    }

    /** `make_classes` */
    method MakeClasses() returns (ok: bool)
      modifies this
      ensures ok <==>
        tags != [] && old(classes.Keys) <= Offsets(tags).Keys && GoodMasks(Worked(tags, old(classes)))
      ensures ok ==> View() == Worked(tags, old(classes)) && WellFormed(View(), tags) && LowestField(View())
    {
      if |tags| == 0 {
        return false;
      }
      tagOffset := CollectOffsets(tags);
      classOffset := LowestOffset(tags, tagOffset);
      ok, classes, widths := WorkOut(tags, tagOffset, classOffset, classes);
      if !ok {
        return;
      }
      ok := CheckMasks(View());
    }

    /** `resolve` for a union whose tag is one field */
    method Resolve() returns (ok: bool)
      modifies this
      ensures ok ==> Accepted(View(), tags) && LowestField(View())
      ensures ok <==>
        && tags != [] && old(classes.Keys) <= Offsets(tags).Keys
        && Accepted(Worked(tags, old(classes)), tags) && forall k :: 0 <= k < |tags| ==> Matching(tags, tags[k])
    {
      ok := MakeClasses();
      if !ok {
        return;
      }
      ok := ResolveTagValues(tags);
      if !ok {
        return;
      }
      ok := CheckBlocks(View(), tags);
    }

    /** The check of `set_base`: all tag fields are in the same word, whose index it finds. */
    method SetBase(base: nat) returns (ok: bool, tagIndex: nat)
      requires base > 0
      ensures ok <==> OneWord(View(), base)
      ensures ok ==> forall w :: w in tagOffset ==> tagOffset[w] / base == tagIndex
    {
      tagIndex := 0;
      var rest := tagOffset.Keys;
      while rest != {}
        invariant rest <= tagOffset.Keys
        invariant forall w :: w in tagOffset && w !in rest ==> tagOffset[w] / base == tagIndex
        decreases |rest|
      {
        var w :| w in rest;
        if rest == tagOffset.Keys {
          tagIndex := tagOffset[w] / base;
        }
        if tagOffset[w] / base != tagIndex {
          assert exists v :: v in tagOffset && v !in rest;
          return false, tagIndex;
        }
        rest := rest - {w};
      }
      return true, tagIndex;
    }
  }
}
