/**
  What a structure has room for.  Whatever bytes the decoder is given, it never
  stores a number out of range, an item past the end of an array, or a string or
  byte string longer than its buffer.
 */
module Storage {
  import opened Wire
  import opened Schema
  import opened Decoder

  predicate Stored(l: LType, v: Value)
    decreases l, 0
  {
    match l
    case Bytes(max) => v.Blob? && |v.bytes| <= max && |v.bytes| <= 0xFFFF
    case String(size) => v.Blob? && (|v.bytes| < size || v.bytes == [])
    case Submessage(fs) => v.Msg? && StoredMessage(fs, v.m)
    case _ => v.Num? && InRange(l, v.n)
  }

  predicate StoredItems(l: LType, items: seq<Value>)
    decreases l, 1
  {
    forall j :: 0 <= j < |items| ==> Stored(l, items[j])
  }

  predicate StoredSlot(f: Field, s: Slot)
    decreases f, 0
  {
    match f.h
    case Required => s.One? && Stored(f.l, s.v)
    case Optional => s.One? && Stored(f.l, s.v)
    case Repeated(arraySize) => s.Many? && |s.items| <= arraySize && StoredItems(f.l, s.items)
    case OneOf(_) => s.Shared?
  }

  predicate StoredChoice(f: Field, unions: seq<Choice>)
    decreases f, 0
  {
    f.h.OneOf? && f.h.union < |unions| && unions[f.h.union].which == f.tag ==> Stored(f.l, unions[f.h.union].v)
  }

  predicate StoredMessage(fs: seq<Field>, m: Message)
    decreases fs, 1
  {
    && |m.slots| == |fs|
    && |m.unions| == Unions(fs)
    && (forall i :: 0 <= i < |fs| ==> StoredSlot(fs[i], m.slots[i]))
    && (forall i :: 0 <= i < |fs| ==> StoredChoice(fs[i], m.unions))
  }

  /** What is stored is a possible content of the structure. */
  lemma {:induction false} StoredTyped(l: LType, v: Value)
    requires Stored(l, v)
    ensures Typed(l, v)
    decreases l, 0
  {
    if l.Submessage? {
      StoredTypedMessage(l.fields, v.m);
    }
  }

  lemma {:induction false} StoredTypedMessage(fs: seq<Field>, m: Message)
    requires StoredMessage(fs, m)
    ensures TypedMessage(fs, m)
    decreases fs, 1
  {
    forall i | 0 <= i < |fs|
      ensures TypedSlot(fs[i], m.slots[i]) && TypedChoice(fs[i], m.unions)
    {
      assert StoredSlot(fs[i], m.slots[i]) && StoredChoice(fs[i], m.unions);
      StoredTypedField(fs[i], m.slots[i], m.unions);
    }
  }

  lemma {:induction false} StoredTypedField(f: Field, s: Slot, unions: seq<Choice>)
    requires StoredSlot(f, s) && StoredChoice(f, unions)
    ensures TypedSlot(f, s) && TypedChoice(f, unions)
    decreases f, 0
  {
    match f.h
    case Repeated(_) =>
      forall j | 0 <= j < |s.items| ensures Typed(f.l, s.items[j]) {
        StoredTyped(f.l, s.items[j]);
      }
    case OneOf(u) =>
      if u < |unions| && unions[u].which == f.tag { StoredTyped(f.l, unions[u].v); }
    case _ => StoredTyped(f.l, s.v);
  }

  // ---- Initial contents ----------------------------------------------------------------

  lemma {:induction false} DefaultStored(l: LType)
    requires WellFormedType(l)
    ensures Stored(l, DefaultValue(l))
    decreases l, 0
  {
    if l.Submessage? {
      DefaultMessageStored(l.fields);
    }
  }

  lemma {:induction false} DefaultMessageStored(fs: seq<Field>)
    requires WellFormed(fs)
    ensures StoredMessage(fs, Default(fs))
    decreases fs, 1
  {
    var m := Default(fs);
    forall i | 0 <= i < |fs|
      ensures StoredSlot(fs[i], m.slots[i]) && StoredChoice(fs[i], m.unions)
    {
      assert WellFormedField(fs[i]) && m.slots[i] == DefaultSlot(fs[i]);
      DefaultSlotStored(fs[i]);
    }
  }

  lemma {:induction false} DefaultSlotStored(f: Field)
    requires WellFormedField(f)
    ensures StoredSlot(f, DefaultSlot(f))
    decreases f, 0
  {
    DefaultStored(f.l);
  }

  // ---- Every decoding step ---------------------------------------------------------------

  lemma {:induction false} PackedStored(l: LType, s: seq<byte>, items: seq<Value>, size: nat)
    requires Packable(l) && StoredItems(l, items) && |items| <= size
    requires DecodedPacked(l, s, items, size).Ok?
    ensures StoredItems(l, DecodedPacked(l, s, items, size).value)
    ensures |DecodedPacked(l, s, items, size).value| <= size
    decreases |s|
  {
    if s != [] {
      var r := DecodedNum(l, s);
      NumStored(l, s);
      PackedStored(l, r.rest, items + [Num(r.value)], size);
    }
  }

  lemma NumStored(l: LType, s: seq<byte>)
    requires Packable(l) && DecodedNum(l, s).Got?
    ensures Stored(l, Num(DecodedNum(l, s).value))
  {
    if l.Fixed32? { FixedRange(s, 4); }
    if l.Fixed64? { FixedRange(s, 8); }
    assert Pow256(4) == 0x1_0000_0000;
    assert Pow256(8) == 0x1_0000_0000_0000_0000;
  }

  lemma {:induction false} FixedRange(s: seq<byte>, n: nat)
    requires ReadFixed(s, n).Got?
    ensures ReadFixed(s, n).value < Pow256(n)
    decreases |s|
  {
    if n > 0 {
      FixedRange(s[1..], n - 1);
    }
  }

  lemma {:induction false} ValueStored(l: LType, held: Value, s: seq<byte>)
    requires WellFormedType(l) && Stored(l, held) && DecodedValue(l, held, s).Got?
    ensures Stored(l, DecodedValue(l, held, s).value)
    decreases l, |s|
  {
    match l
    case Submessage(fs) =>
      RecordsStored(fs, Undelimited(s).front, held.m, {});
    case Bytes(_) =>
    case String(_) =>
    case _ => NumStored(l, s);
  }

  /** One decoded field leaves every member within its room. */
  lemma {:induction false} FieldStored(fs: seq<Field>, f: Field, i: nat, wireType: nat, m: Message, s: seq<byte>)
    requires WellFormed(fs) && i < |fs| && f == fs[i] && StoredMessage(fs, m)
    requires DecodedField(f, i, wireType, m, s).Got?
    ensures StoredMessage(fs, DecodedField(f, i, wireType, m, s).value)
    decreases f, |s|, 1
  {
    assert WellFormedField(f) && StoredSlot(f, m.slots[i]);
    var m' := DecodedField(f, i, wireType, m, s).value;
    match f.h
    case Repeated(size) =>
      if wireType == 2 && Packable(f.l) {
        PackedStored(f.l, Undelimited(s).front, m.slots[i].items, size);
      } else {
        DefaultStored(f.l);
        ValueStored(f.l, DefaultValue(f.l), s);
        ItemAppended(f.l, m.slots[i].items, DecodedValue(f.l, DefaultValue(f.l), s).value);
      }
      SlotReplaced(fs, i, m, m'.slots[i]);
    case OneOf(u) =>
      DefaultStored(f.l);
      ValueStored(f.l, DefaultValue(f.l), s);
      ChoiceReplaced(fs, i, m, m'.unions[u].v);
    case _ =>
      ValueStored(f.l, m.slots[i].v, s);
      SlotReplaced(fs, i, m, m'.slots[i]);
  }

  lemma ItemAppended(l: LType, items: seq<Value>, v: Value)
    requires StoredItems(l, items) && Stored(l, v)
    ensures StoredItems(l, items + [v])
  {
  }

  lemma SlotReplaced(fs: seq<Field>, i: nat, m: Message, s: Slot)
    requires i < |fs| && StoredMessage(fs, m) && StoredSlot(fs[i], s)
    ensures StoredMessage(fs, m.(slots := m.slots[i := s]))
  {
  }

  lemma ChoiceReplaced(fs: seq<Field>, i: nat, m: Message, v: Value)
    requires WellFormed(fs) && i < |fs| && fs[i].h.OneOf? && StoredMessage(fs, m) && Stored(fs[i].l, v)
    ensures StoredMessage(fs, m.(unions := m.unions[fs[i].h.union := Choice(fs[i].tag, v)]))
  {
    var unions := m.unions[fs[i].h.union := Choice(fs[i].tag, v)];
    forall j | 0 <= j < |fs| ensures StoredChoice(fs[j], unions) {
      assert StoredChoice(fs[j], m.unions);
      if j != i { assert fs[j].tag != fs[i].tag; }
    }
  }

  lemma {:induction false} RecordsStored(fs: seq<Field>, s: seq<byte>, m: Message, seen: set<nat>)
    requires WellFormed(fs) && StoredMessage(fs, m) && DecodedRecords(fs, s, m, seen).Ok?
    ensures StoredMessage(fs, DecodedRecords(fs, s, m, seen).value)
    decreases fs, |s|, 2
  {
    if s != [] {
      var h := ReadHeader(s);
      var r := DecodedRecord(fs, h.value, h.rest, Progress(m, seen));
      var i := FieldIndex(fs, h.value.tag);
      if i < |fs| {
        FieldStored(fs, fs[i], i, h.value.wireType, m, h.rest);
      }
      RecordsStored(fs, r.rest, r.value.m, r.value.seen);
    }
  }

  /** Whatever the bytes, an accepted message fits its structure. */
  lemma DecodedMessageStored(fs: seq<Field>, s: seq<byte>)
    requires WellFormed(fs) && DecodedMessage(fs, s).Ok?
    ensures StoredMessage(fs, DecodedMessage(fs, s).value)
  {
    DefaultMessageStored(fs);
    RecordsStored(fs, s, Default(fs), {});
  }
}
