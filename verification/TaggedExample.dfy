/** A union with tags of two widths, of which neither begins where the word does. */
module TaggedExample {
  import opened Bits
  import opened BitSets
  import opened TaggedUnions

  const Narrow := Tag("narrow", 1, 6, 2, false, 4, 8)
  const Wide := Tag("wide", 7, 5, 3, false, 4, 8)

  /** Masks as they are declared, each relative to its own field. */
  const Declared: map<nat, nat> := map[2 := 2, 3 := 4]

  /** The same masks relative to the lowest field. */
  const Shown := Layout(map[2 := 4, 3 := 4], map[2 := 6, 3 := 5], 5, [2, 3])

  lemma TwoAscending(s: set<nat>, a: nat, b: nat)
    requires a < b && s == {a, b}
    ensures Ascending(s) == [a, b]
  {
    AscendingStep(s, a);
    assert s - {a} == {b};
    AscendingStep({b}, b);
    assert {b} - {b} == {};
  }

  lemma OffsetsFound()
    ensures Offsets([Narrow, Wide]) == map[2 := 6, 3 := 5]
    ensures Offsets([Narrow, Wide]).Values == {5, 6}
  {
    assert [Narrow, Wide][..1] == [Narrow] && [Narrow][..0] == [];
    assert Offsets([Narrow]) == map[2 := 6];
    assert Offsets([Narrow, Wide])[2] == 6 && Offsets([Narrow, Wide])[3] == 5;
  }

  /** The declared masks are moved to where their fields lie. */
  lemma MasksShifted()
    ensures Worked([Narrow, Wide], Declared) == Shown
  {
    OffsetsFound();
    TwoAscending(Offsets([Narrow, Wide]).Values, 5, 6);
    assert Shl(2, 1) == 4 && Shl(4, 0) == 4;
    assert Shifted(Declared, Offsets([Narrow, Wide]), 5) == Shown.classes;
    assert Shown.classes.Keys == {2, 3};
    TwoAscending(Shown.classes.Keys, 2, 3);
  }

  lemma MasksGood()
    ensures GoodMasks(Shown)
  {
    OffsetsFound();
    MasksShifted();
    DeclaredMaskFits([Narrow, Wide], Declared, 2);
    DeclaredMaskFits([Narrow, Wide], Declared, 3);
    assert Pow2(2) == 4 && Pow2(3) == 8;
    assert Shown.classes.Keys == {2, 3} == Shown.tagOffset.Keys;
  }

  lemma ValuesInClass()
    ensures ValueInClass(Shown, Narrow) && ValueInClass(Shown, Wide)
  {
    ValueFits(1, 6, 2);
    ValueFits(7, 5, 3);
    assert Pow2(2) == 4 && Pow2(3) == 8;
    assert Placed(Shown, Narrow) == 2 && Placed(Shown, Wide) == 7;
    AndMask(2, 4);
    AndMask(7, 4);
  }

  lemma TwoAccepted(l: Layout, a: Tag, b: Tag)
    requires WellFormed(l, [a, b]) && GoodMasks(l) && a.name != b.name && a.value != b.value
    requires a.size in l.tagOffset && a.offset == l.tagOffset[a.size] && ValueInClass(l, a)
    requires b.size in l.tagOffset && b.offset == l.tagOffset[b.size] && ValueInClass(l, b)
    ensures Accepted(l, [a, b])
  {
  }

  /** Its blocks pass all the checks. */
  lemma UnionAccepted()
    ensures Worked([Narrow, Wide], Declared) == Shown
    ensures Accepted(Shown, [Narrow, Wide]) && LowestField(Shown)
  {
    MasksShifted();
    WorkedWellFormed([Narrow, Wide], Declared);
    MasksGood();
    ValuesInClass();
    TwoAccepted(Shown, Narrow, Wide);
  }

  lemma FieldsInWord()
    ensures OneWord(Shown, 4)
    ensures FieldOf(Shown, 4, 2, 0x7) == 1 && FieldOf(Shown, 4, 3, 0xF) == 7
  {
  }

  /** With 4-bit words the fields begin at bits 2 and 1 of the second one. */
  lemma TagsRead()
    ensures ReadTag(Shown, 4, 0x7, 0) == 1
    ensures ReadTag(Shown, 4, 0xF, 0) == 7
  {
    UnionAccepted();
    FieldsInWord();
    ReaderFindsTag(Shown, [Narrow, Wide], 4, 0, 0x7);
    ReaderFindsTag(Shown, [Narrow, Wide], 4, 1, 0xF);
  }
}
