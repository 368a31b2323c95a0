/**
  The table of field descriptors, one, two, four or eight words each, and the
  iterator that walks it.  Walking the words is proved to be walking a list of fields.
 */
module FieldIter {

  /** What a descriptor says about a field. */
  datatype Info = Info(tag: nat, kind: nat, dataOffset: nat, dataSize: nat, sizeOffset: int, arraySize: nat)

  /** A field and the width of its descriptor, 2^width words. */
  datatype Entry = Entry(info: Info, width: nat)

  // ---- Types -------------------------------------------------------------------------

  predicate IsRequired(kind: nat) {
    kind / 0x10 % 4 == 0
  }

  predicate IsSubmessage(kind: nat) {
    kind % 0x10 == 8 || kind % 0x10 == 9
  }

  predicate IsExtension(kind: nat) {
    kind % 0x10 == 0xA
  }

  // ---- Packing -----------------------------------------------------------------------

  /** What the static assertions beside the packing macros demand, for 16-bit sizes. */
  predicate Asserted(e: Entry) {
    && e.info.kind < 0x100 && e.info.sizeOffset >= 0
    && match e.width
       case 0 =>
         && e.info.tag < 0x40 && e.info.dataOffset < 0x100 && e.info.sizeOffset < 0x10
         && e.info.dataSize < 0x10 && e.info.arraySize < 2
       case 1 =>
         && e.info.tag < 0x400 && e.info.dataOffset < 0x1_0000 && e.info.sizeOffset < 0x10
         && e.info.dataSize < 0x1000 && e.info.arraySize < 0x1000
       case 2 =>
         && e.info.tag < 0x1_0000 && e.info.dataOffset < 0x1_0000 && e.info.sizeOffset < 0x80
         && e.info.dataSize < 0x1_0000 && e.info.arraySize < 0x1_0000
       case 3 =>
         && e.info.tag < 0x1_0000 && e.info.dataOffset < 0x1_0000 && e.info.sizeOffset < 0x80
         && e.info.dataSize < 0x1_0000 && e.info.arraySize < 0x1_0000
       case _ => false
  }

  /** The one-word format has no room for the array size, so it must be the 1 that is read back. */
  predicate Fits(e: Entry) {
    Asserted(e) && (e.width == 0 ==> e.info.arraySize == 1)
  }

  function Words(width: nat): nat {
    if width == 0 then 1 else if width == 1 then 2 else if width == 2 then 4 else 8
  }

  /** The first word of every format: the width code, six bits of the tag, the type, and 16 bits that differ. */
  function FirstWord(e: Entry, upper: nat): nat {
    e.width + e.info.tag % 0x40 * 4 + e.info.kind * 0x100 + upper * 0x1_0000
  }

  /** The 16 bits at the top of the first word. */
  function Upper(e: Entry): nat
    requires Asserted(e)
  {
    var i := e.info;
    match e.width
    case 0 => i.dataOffset % 0x100 + i.sizeOffset % 0x10 * 0x100 + i.dataSize % 0x10 * 0x1000
    case 1 => i.arraySize % 0x1000 + i.sizeOffset % 0x10 * 0x1000
    case 2 => i.arraySize % 0x1_0000
    case _ => 0
  }

  /** `PB_FIELDINFO_1`, `_2`, `_4` and `_8` */
  function Pack(e: Entry): (ws: seq<nat>)
    requires Asserted(e)
    ensures |ws| == Words(e.width) && ws[0] == FirstWord(e, Upper(e))
  {
    var i := e.info;
    var w0 := FirstWord(e, Upper(e));
    match e.width
    case 0 => [w0]
    case 1 => [w0, i.dataOffset % 0x1_0000 + i.dataSize % 0x1000 * 0x1_0000 + i.tag / 0x40 % 0x10 * 0x1000_0000]
    case 2 => [w0, i.sizeOffset + i.tag / 0x40 * 0x100, i.dataOffset, i.dataSize]
    case _ => [w0, i.sizeOffset + i.tag / 0x40 * 0x100, i.dataOffset, i.dataSize, i.arraySize, 0, 0, 0]
  }

  lemma FirstWordFields(e: Entry, upper: nat)
    requires e.width < 4 && e.info.kind < 0x100
    ensures FirstWord(e, upper) % 4 == e.width
    ensures FirstWord(e, upper) / 4 % 0x40 == e.info.tag % 0x40
    ensures FirstWord(e, upper) / 0x100 % 0x100 == e.info.kind
    ensures FirstWord(e, upper) / 0x1_0000 == upper
  {
    FourParts(e.width, e.info.tag % 0x40, e.info.kind, upper);
  }

  lemma FourParts(a: nat, b: nat, c: nat, d: nat)
    requires a < 4 && b < 0x40 && c < 0x100
    ensures var x := a + b * 4 + c * 0x100 + d * 0x1_0000;
      x % 4 == a && x / 4 % 0x40 == b && x / 0x100 % 0x100 == c && x / 0x1_0000 == d
  {
    var x, y, z := a + b * 4 + c * 0x100 + d * 0x1_0000, b + 0x40 * (c + 0x100 * d), c + 0x100 * d;
    assert x == a + 4 * y;
    assert x % 4 == a && x / 4 == y;
    assert y % 0x40 == b && y / 0x40 == z;
    assert x / 0x100 == z;
    assert z % 0x100 == c && z / 0x100 == d;
    assert x / 0x1_0000 == d;
  }

  /** Pieces one after the other, and how many words the first k take. */
  function Concat(ps: seq<seq<nat>>): seq<nat> {
    if ps == [] then [] else Concat(ps[..|ps| - 1]) + ps[|ps| - 1]
  }

  function Lengths(ps: seq<seq<nat>>, k: nat): nat
    requires k <= |ps|
  {
    if k == 0 then 0 else Lengths(ps, k - 1) + |ps[k - 1]|
  }

  function PackAll(es: seq<Entry>): (ps: seq<seq<nat>>)
    requires forall k :: 0 <= k < |es| ==> Fits(es[k])
    ensures |ps| == |es|
  {
    seq(|es|, k requires 0 <= k < |es| => assert Fits(es[k]); Pack(es[k]))
  }

  /** The whole table. */
  function Table(es: seq<Entry>): seq<nat>
    requires forall k :: 0 <= k < |es| ==> Fits(es[k])
  {
    Concat(PackAll(es))
  }

  // ---- Reading -------------------------------------------------------------------------

  /** An eight-bit pattern as a signed number. */
  function Signed8(b: nat): int {
    if b % 0x100 < 0x80 then b % 0x100 else b % 0x100 - 0x100
  }

  /** What `load_descriptor_values` makes of the descriptor at word `at`. */
  function Unpack(words: seq<nat>, at: nat): (i: Info)
    requires at < |words| && at + Words(words[at] % 4) <= |words|
  {
    var w := words[at];
    var low, kind, upper := w / 4 % 0x40, w / 0x100 % 0x100, w / 0x1_0000;
    if w % 4 == 0 then
      Info(low, kind, upper % 0x100, upper / 0x1000 % 0x10, upper / 0x100 % 0x10, 1)
    else
      var w1 := words[at + 1];
      if w % 4 == 1 then
        Info(
          low + w1 / 0x1000_0000 * 0x40, kind,
          w1 % 0x1_0000, w1 / 0x1_0000 % 0x1000, upper / 0x1000 % 0x10, upper % 0x1000)
      else
        var arraySize := if w % 4 == 2 then upper % 0x1_0000 else words[at + 4] % 0x1_0000;
        Info(
          (low + w1 / 0x100 * 0x40) % 0x1_0000, kind,
          words[at + 2], words[at + 3] % 0x1_0000, Signed8(w1), arraySize)
  }

  /**
    Reading a descriptor gives back what was packed, in every format, exactly if it
    fits: an array size of 0 passes the assertions of the one-word format and reads as 1.
   */
  lemma PackRoundTrip(e: Entry, words: seq<nat>, at: nat)
    requires Asserted(e) && at + Words(e.width) <= |words| && words[at..at + Words(e.width)] == Pack(e)
    ensures words[at] % 4 == e.width
    ensures Unpack(words, at) == e.info <==> Fits(e)
    ensures Unpack(words, at) == e.info.(arraySize := if e.width == 0 then 1 else e.info.arraySize)
  {
    if e.width < 2 {
      NarrowRoundTrip(e, words, at);
    } else {
      WideRoundTrip(e, words, at);
    }
  }

  lemma NarrowRoundTrip(e: Entry, words: seq<nat>, at: nat)
    requires Asserted(e) && e.width < 2 && at + Words(e.width) <= |words| && words[at..at + Words(e.width)] == Pack(e)
    ensures words[at] % 4 == e.width
    ensures Unpack(words, at) == e.info.(arraySize := if e.width == 0 then 1 else e.info.arraySize)
  {
    SliceAt(words, at, Words(e.width), 0);
    FirstWordFields(e, Upper(e));
    UpperFields(e);
    if e.width == 1 {
      SliceAt(words, at, 2, 1);
      SecondWordFields(e.info);
    }
  }

  lemma WideRoundTrip(e: Entry, words: seq<nat>, at: nat)
    requires Asserted(e) && e.width >= 2 && at + Words(e.width) <= |words| && words[at..at + Words(e.width)] == Pack(e)
    ensures words[at] % 4 == e.width && Unpack(words, at) == e.info
  {
    var n := Words(e.width);
    SliceAt(words, at, n, 0);
    SliceAt(words, at, n, 1);
    SliceAt(words, at, n, 2);
    SliceAt(words, at, n, 3);
    if e.width == 3 { SliceAt(words, at, n, 4); }
    FirstWordFields(e, Upper(e));
    UpperFields(e);
    TagWordFields(e.info);
  }

  lemma SliceAt(words: seq<nat>, at: nat, n: nat, k: nat)
    requires k < n && at + n <= |words|
    ensures words[at..at + n][k] == words[at + k]
  {
  }

  lemma UpperFields(e: Entry)
    requires Asserted(e)
    ensures
      match e.width
      case 0 =>
        && Upper(e) % 0x100 == e.info.dataOffset && Upper(e) / 0x100 % 0x10 == e.info.sizeOffset
        && Upper(e) / 0x1000 % 0x10 == e.info.dataSize
      case 1 => Upper(e) % 0x1000 == e.info.arraySize && Upper(e) / 0x1000 % 0x10 == e.info.sizeOffset
      case 2 => Upper(e) % 0x1_0000 == e.info.arraySize
      case _ => true
  {
    var i := e.info;
    if e.width == 0 {
      assert Upper(e) == i.dataOffset + i.sizeOffset * 0x100 + i.dataSize * 0x1000;
      ThreeParts(i.dataOffset, i.sizeOffset, i.dataSize);
    }
    if e.width == 1 { TwoParts(i.arraySize, i.sizeOffset); }
  }

  lemma ThreeParts(a: nat, b: nat, c: nat)
    requires a < 0x100 && b < 0x10 && c < 0x10
    ensures var x := a + b * 0x100 + c * 0x1000;
      x % 0x100 == a && x / 0x100 % 0x10 == b && x / 0x1000 % 0x10 == c
  {
    var x := a + b * 0x100 + c * 0x1000;
    assert x / 0x100 == b + c * 0x10;
    assert x / 0x1000 == c;
  }

  lemma TwoParts(a: nat, b: nat)
    requires a < 0x1000 && b < 0x10
    ensures (a + b * 0x1000) % 0x1000 == a && (a + b * 0x1000) / 0x1000 % 0x10 == b
  {
  }

  lemma SecondWordFields(i: Info)
    requires i.dataOffset < 0x1_0000 && i.dataSize < 0x1000 && i.tag < 0x400
    ensures var w1 := i.dataOffset % 0x1_0000 + i.dataSize % 0x1000 * 0x1_0000 + i.tag / 0x40 % 0x10 * 0x1000_0000;
      && w1 % 0x1_0000 == i.dataOffset && w1 / 0x1_0000 % 0x1000 == i.dataSize
      && i.tag % 0x40 + w1 / 0x1000_0000 * 0x40 == i.tag
  {
    var t := i.tag / 0x40;
    var w1 := i.dataOffset + i.dataSize * 0x1_0000 + t * 0x1000_0000;
    assert w1 / 0x1_0000 == i.dataSize + t * 0x1000;
    assert w1 / 0x1000_0000 == t;
  }

  lemma TagWordFields(i: Info)
    requires 0 <= i.sizeOffset < 0x80 && i.tag < 0x1_0000
    ensures var w1 := i.sizeOffset + i.tag / 0x40 * 0x100;
      && Signed8(w1) == i.sizeOffset && (i.tag % 0x40 + w1 / 0x100 * 0x40) % 0x1_0000 == i.tag
  {
    var t := i.tag / 0x40;
    assert (i.sizeOffset + t * 0x100) / 0x100 == t;
  }

  /** One descriptor of each width, bit for bit. */
  lemma PackedWords()
    ensures Pack(Entry(Info(0x25, 0x26, 0xAB, 0xC, 0xD, 1), 0)) == [0xCDAB_2694]
    ensures Pack(Entry(Info(0x365, 0x26, 0xABCD, 0xEF1, 0x2, 0x345), 1)) == [0x2345_2695, 0xDEF1_ABCD]
    ensures Pack(Entry(Info(0x8765, 0x26, 0xABCD, 0xEF12, 0x34, 0x5678), 2))
      == [0x5678_2696, 0x2_1D34, 0xABCD, 0xEF12]
    ensures Pack(Entry(Info(0x8765, 0x26, 0xABCD, 0xEF12, 0x34, 0x5678), 3))
      == [0x2697, 0x2_1D34, 0xABCD, 0xEF12, 0x5678, 0, 0, 0]
  {
  }

  // ---- The table as a list of fields -----------------------------------------------------

  /** Every descriptor was made by the packing macros. */
  predicate Packed(es: seq<Entry>) {
    forall k :: 0 <= k < |es| ==> Fits(es[k])
  }

  /** Where the descriptor of field k begins, and how many required fields and submessages come before it. */
  function WordOffset(es: seq<Entry>, k: nat): nat
    requires k <= |es|
  {
    if k == 0 then 0 else WordOffset(es, k - 1) + Words(es[k - 1].width)
  }

  function RequiredCount(es: seq<Entry>, k: nat): nat
    requires k <= |es|
  {
    if k == 0 then 0 else RequiredCount(es, k - 1) + (if IsRequired(es[k - 1].info.kind) then 1 else 0)
  }

  function SubmessageCount(es: seq<Entry>, k: nat): nat
    requires k <= |es|
  {
    if k == 0 then 0 else SubmessageCount(es, k - 1) + (if IsSubmessage(es[k - 1].info.kind) then 1 else 0)
  }

  lemma {:induction false} LengthsPrefix(ps: seq<seq<nat>>, n: nat, k: nat)
    requires k <= n <= |ps|
    ensures Lengths(ps[..n], k) == Lengths(ps, k)
    decreases k
  {
    if k > 0 {
      LengthsPrefix(ps, n, k - 1);
    }
  }

  lemma {:induction false} ConcatSize(ps: seq<seq<nat>>)
    ensures |Concat(ps)| == Lengths(ps, |ps|)
    decreases |ps|
  {
    if ps != [] {
      ConcatSize(ps[..|ps| - 1]);
      LengthsPrefix(ps, |ps| - 1, |ps| - 1);
    }
  }

  /** Piece k begins where the pieces before it end. */
  lemma {:induction false} ConcatAt(ps: seq<seq<nat>>, k: nat)
    requires k < |ps|
    ensures Lengths(ps, k) + |ps[k]| <= |Concat(ps)|
    ensures Concat(ps)[Lengths(ps, k)..Lengths(ps, k) + |ps[k]|] == ps[k]
    decreases |ps|
  {
    var init, last := ps[..|ps| - 1], ps[|ps| - 1];
    LengthsPrefix(ps, |init|, k);
    if k < |init| {
      ConcatAt(init, k);
      SliceOfFront(Concat(init), last, Lengths(ps, k), Lengths(ps, k) + |ps[k]|);
    } else {
      ConcatSize(init);
      SliceOfBack(Concat(init), last);
    }
  }

  lemma SliceOfFront(a: seq<nat>, b: seq<nat>, i: nat, j: nat)
    requires i <= j <= |a|
    ensures (a + b)[i..j] == a[i..j]
  {
  }

  lemma SliceOfBack(a: seq<nat>, b: seq<nat>)
    ensures (a + b)[|a|..|a| + |b|] == b
  {
  }

  lemma {:induction false} OffsetIsLength(es: seq<Entry>, k: nat)
    requires Packed(es) && k <= |es|
    ensures Lengths(PackAll(es), k) == WordOffset(es, k)
    decreases k
  {
    if k > 0 {
      OffsetIsLength(es, k - 1);
    }
  }

  /** The descriptor of field k stands at its offset. */
  lemma TableAt(es: seq<Entry>, k: nat)
    requires Packed(es) && k < |es|
    ensures WordOffset(es, k) + Words(es[k].width) <= |Table(es)|
    ensures Table(es)[WordOffset(es, k)..WordOffset(es, k) + Words(es[k].width)] == Pack(es[k])
  {
    var ps := PackAll(es);
    assert ps[k] == Pack(es[k]);
    ConcatAt(ps, k);
    OffsetIsLength(es, k);
  }

  /** Fields in ascending order of their tags. */
  predicate Ascending(es: seq<Entry>) {
    forall i, j :: 0 <= i < j < |es| ==> es[i].info.tag < es[j].info.tag
  }

  // ---- The iterator ------------------------------------------------------------------------

  class Iterator {
    ghost const es: seq<Entry>
    const words: seq<nat>
    const fieldCount: nat
    const largestTag: nat
    var index: nat
    var fieldInfoIndex: nat
    var requiredIndex: nat
    var submessageIndex: nat
    var info: Info

    constructor (table: seq<nat>, count: nat, largest: nat, ghost entries: seq<Entry>)
      ensures words == table && fieldCount == count && largestTag == largest && es == entries
    {
      words, fieldCount, largestTag, es := table, count, largest, entries;
      index, fieldInfoIndex, requiredIndex, submessageIndex := 0, 0, 0, 0;
      info := Info(0, 0, 0, 0, 0, 0);
    }

    /** The descriptor is what the generator makes of the fields. */
    ghost predicate Valid() {
      && Packed(es) && Ascending(es) && words == Table(es) && fieldCount == |es|
      && largestTag == if es == [] then 0 else es[|es| - 1].info.tag
    }

    /** The iterator stands at field k, and all its indexes agree. */
    ghost predicate At(k: nat)
      requires Valid()
      reads this
    {
      && k < |es| && index == k && fieldInfoIndex == WordOffset(es, k)
      && requiredIndex == RequiredCount(es, k) && submessageIndex == SubmessageCount(es, k)
    }

    /** It also shows that field's description. */
    ghost predicate Shows(k: nat)
      requires Valid()
      reads this
    {
      At(k) && info == es[k].info
    }

    /** `load_descriptor_values` */
    method Load() returns (ok: bool)
      requires Valid() && (index < fieldCount ==> At(index))
      modifies this`info
      ensures ok <==> index < fieldCount
      ensures ok ==> Shows(index)
    {
      if index >= fieldCount {
        return false;
      }
      TableAt(es, index);
      PackRoundTrip(es[index], words, fieldInfoIndex);
      info := Unpack(words, fieldInfoIndex);
      return true;
    }

    /** `advance_iterator` */
    method Advance()
      requires Valid() && fieldCount > 0 && (index < fieldCount ==> At(index))
      modifies this`index, this`fieldInfoIndex, this`requiredIndex, this`submessageIndex
      ensures At(if old(index) + 1 >= fieldCount then 0 else old(index) + 1)
    {
      index := index + 1;
      if index >= fieldCount {
        index, fieldInfoIndex, requiredIndex, submessageIndex := 0, 0, 0, 0;
      } else {
        var w := FirstWordAt(index - 1);
        var kind := w / 0x100 % 0x100;
        fieldInfoIndex := fieldInfoIndex + Words(w % 4);
        requiredIndex := requiredIndex + (if IsRequired(kind) then 1 else 0);
        submessageIndex := submessageIndex + (if IsSubmessage(kind) then 1 else 0);
      }
    }

    /** The word the iterator stands at holds the width, type and low tag bits of field k. */
    method FirstWordAt(ghost k: nat) returns (w: nat)
      requires Valid() && k < |es| && fieldInfoIndex == WordOffset(es, k)
      ensures w % 4 == es[k].width && w / 4 % 0x40 == es[k].info.tag % 0x40 && w / 0x100 % 0x100 == es[k].info.kind
    {
      TableAt(es, k);
      ghost var n := Words(es[k].width);
      SliceAt(words, fieldInfoIndex, n, 0);
      FirstWordFields(es[k], Upper(es[k]));
      w := words[fieldInfoIndex];
    }

    /** `pb_field_iter_begin` */
    method Begin() returns (ok: bool)
      requires Valid()
      modifies this
      ensures ok <==> fieldCount > 0
      ensures ok ==> Shows(0)
    {
      index, fieldInfoIndex, requiredIndex, submessageIndex := 0, 0, 0, 0;
      ok := Load();
    }

    /** `pb_field_iter_next`: false when it has come round to the first field. */
    method Next() returns (more: bool)
      requires Valid() && At(index)
      modifies this
      ensures Shows(if old(index) + 1 >= fieldCount then 0 else old(index) + 1)
      ensures more <==> old(index) + 1 < fieldCount
    {
      Advance();
      var _ := Load();
      return index != 0;
    }

    /** Field k is one the search for a tag may stop at. */
    ghost predicate Match(k: nat, tag: nat)
      requires k < |es|
    {
      es[k].info.tag == tag && !IsExtension(es[k].info.kind)
    }

    /** The fields passed since the search left `start`: from the front, or all after `start`, round the end. */
    ghost predicate Passed(k: nat, start: nat, fromFront: bool)
      reads this
    {
      if fromFront then index < fieldCount && k <= index
      else if index >= start then start < k <= index
      else k > start || k <= index
    }

    /** The test inside the search: a quick look at the first word, then at the whole descriptor. */
    method Candidate(tag: nat) returns (hit: bool)
      requires Valid() && At(index)
      modifies this`info
      ensures hit <==> Match(index, tag)
      ensures hit ==> Shows(index) && info.tag == tag
    {
      var w := FirstWordAt(index);
      if w / 4 % 0x40 != tag % 0x40 {
        return false;
      }
      var _ := Load();
      return info.tag == tag && !IsExtension(info.kind);
    }

    /**
      `pb_field_iter_find`: from any position, the iterator ends at the field with the
      tag if there is one, else back where it was.
     */
    method Find(tag: nat) returns (found: bool)
      requires Valid() && Shows(index)
      modifies this
      ensures found <==> es[old(index)].info.tag == tag || exists k :: 0 <= k < |es| && Match(k, tag)
      ensures found ==> Shows(index) && info.tag == tag
      ensures !found ==> Shows(old(index))
    {
      if info.tag == tag {
        return true;
      }
      if tag > largestTag {
        assert forall k :: 0 <= k < |es| ==> es[k].info.tag <= largestTag;
        return false;
      }
      var start := index;
      ghost var fromFront := tag < info.tag;
      if tag < info.tag {
        index := fieldCount;
      }
      while true
        invariant start < fieldCount && es[start].info.tag != tag && (fromFront <==> tag < es[start].info.tag)
        invariant index < fieldCount ==> At(index)
        invariant index >= fieldCount ==> fromFront && index == fieldCount
        invariant fromFront && index < fieldCount ==> index < start
        invariant forall k :: 0 <= k < |es| && Passed(k, start, fromFront) ==> !Match(k, tag)
        decreases
          if index == fieldCount then start + 1
          else if index < start then start - index
          else fieldCount - index + start
      {
        Advance();
        var hit := Candidate(tag);
        if hit {
          return true;
        }
        if index == start {
          break;
        }
      }
      assert forall k :: 0 <= k < |es| ==> !Match(k, tag);
      var _ := Load();
      return false;
    }
  }
}
