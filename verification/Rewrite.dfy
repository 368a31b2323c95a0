/**
  Writing again what was read.  Whatever a structure holds within its room can be
  encoded, so every stream the decoder accepts has a canonical form, which reads as
  the visible content of the same message.
 */
module Rewrite {
  import opened Basics
  import opened Wire
  import opened Schema
  import opened Encoder
  import opened Decoder
  import opened RoundTrip
  import opened NormalForm
  import opened Storage
  import opened Sizes

  /**
    A type that holds nothing the encoder rejects: integers of a supported size, strings
    with room for their terminator, and data and array sizes of 32 bits, as a descriptor
    can state at most; the same in every submessage.
   */
  predicate Writable(fs: seq<Field>) {
    forall i :: 0 <= i < |fs| ==> WritableField(fs[i])
  }

  predicate WritableField(f: Field) {
    WritableType(f.l) && (f.h.Repeated? ==> f.h.arraySize < 0x1_0000_0000)
  }

  predicate WritableType(l: LType) {
    && SizeOk(l) && Size(l) < 0x1_0000_0000
    && (l.String? ==> l.size > 0)
    && (l.Submessage? ==> Writable(l.fields))
  }

  // ---- What is stored can be written ---------------------------------------------------

  lemma {:induction false} CStringAtMost(s: seq<byte>)
    ensures |CString(s)| <= |s|
  {
    if s != [] && s[0] != 0 {
      CStringAtMost(s[1..]);
    }
  }

  /** A submessage of moderate depth is far from the length that no prefix can state. */
  lemma ShortEnough(l: LType, v: Value)
    requires l.Submessage? && Typed(l, v) && WellFormedType(l) && WritableType(l) && Depth(l) <= 0x100_0000
    requires EncodedMessage(l.fields, v.m).Some?
    ensures EncodedValue(l, v).Some?
  {
    var fs := l.fields;
    MessageAtMost(fs, v.m);
    RateMonotone(DepthUpTo(fs, |fs|), 0x100_0000, StructSize(fs));
    CostMonotone(Rate(0x100_0000), StructSize(fs), 0xFFFF_FFFF);
    CostIsProduct(Rate(0x100_0000), 0xFFFF_FFFF);
  }

  lemma {:induction false} ValueWritten(l: LType, v: Value)
    requires WellFormedType(l) && WritableType(l) && Depth(l) <= 0x100_0000 && Stored(l, v)
    ensures EncodedValue(l, v).Some?
    decreases l, 0
  {
    match l
    case Submessage(fs) =>
      MessageWritten(fs, v.m);
      StoredTyped(l, v);
      ShortEnough(l, v);
    case String(_) => CStringAtMost(v.bytes);
    case _ =>
  }

  lemma {:induction false} RecordsWritten(f: Field, items: seq<Value>)
    requires WellFormedField(f) && WritableField(f) && Depth(f.l) <= 0x100_0000 && StoredItems(f.l, items)
    ensures EncodedRecords(f, items).Some?
    decreases f, 1, |items|
  {
    if items != [] {
      RecordsWritten(f, items[..|items| - 1]);
      ValueWritten(f.l, items[|items| - 1]);
    }
  }

  lemma {:induction false} PackedWritten(l: LType, items: seq<Value>)
    requires Packable(l) && WritableType(l) && StoredItems(l, items)
    ensures PackedItems(l, items).Some?
    decreases |items|
  {
    if items != [] {
      PackedWritten(l, items[..|items| - 1]);
      assert Stored(l, items[|items| - 1]);
    }
  }

  lemma {:induction false} FieldWritten(f: Field, i: nat, m: Message)
    requires WellFormedField(f) && WritableField(f) && Depth(f.l) <= 0x100_0000
    requires i < |m.slots| && StoredSlot(f, m.slots[i]) && StoredChoice(f, m.unions)
    requires f.h.OneOf? ==> f.h.union < |m.unions|
    ensures EncodedField(f, i, m).Some?
    decreases f, 2
  {
    match f.h
    case Repeated(_) =>
      var items := m.slots[i].items;
      if Packable(f.l) {
        PackedWritten(f.l, items);
        PackedAtMost(f.l, items);
      } else {
        RecordsWritten(f, items);
      }
    case OneOf(u) => if m.unions[u].which == f.tag { ValueWritten(f.l, m.unions[u].v); }
    case _ => ValueWritten(f.l, m.slots[i].v);
  }

  lemma {:induction false} UpToWritten(fs: seq<Field>, m: Message, n: nat)
    requires WellFormed(fs) && Writable(fs) && DepthUpTo(fs, |fs|) <= 0x100_0000
    requires StoredMessage(fs, m) && n <= |fs|
    ensures EncodedUpTo(fs, m, n).Some?
    decreases fs, 3, n
  {
    if n > 0 {
      UpToWritten(fs, m, n - 1);
      DepthOfField(fs, |fs|, n - 1);
      assert WellFormedField(fs[n - 1]) && WritableField(fs[n - 1]);
      assert StoredSlot(fs[n - 1], m.slots[n - 1]) && StoredChoice(fs[n - 1], m.unions);
      FieldWritten(fs[n - 1], n - 1, m);
    }
  }

  /** Whatever a structure holds within its room, the encoder writes. */
  lemma {:induction false} MessageWritten(fs: seq<Field>, m: Message)
    requires WellFormed(fs) && Writable(fs) && DepthUpTo(fs, |fs|) <= 0x100_0000 && StoredMessage(fs, m)
    ensures EncodedMessage(fs, m).Some?
    decreases fs, 4
  {
    UpToWritten(fs, m, |fs|);
  }

  // ---- The canonical form of a stream ------------------------------------------------------

  /** What was read can be written, whatever bytes it was read from. */
  lemma AcceptedIsWritten(fs: seq<Field>, s: seq<byte>)
    requires WellFormed(fs) && Writable(fs) && DepthUpTo(fs, |fs|) <= 0x100_0000 && DecodedMessage(fs, s).Ok?
    ensures TypedMessage(fs, DecodedMessage(fs, s).value)
    ensures EncodedMessage(fs, DecodedMessage(fs, s).value).Some?
  {
    DecodedMessageStored(fs, s);
    StoredTypedMessage(fs, DecodedMessage(fs, s).value);
    MessageWritten(fs, DecodedMessage(fs, s).value);
  }

  /** The bytes an accepted stream becomes when it is read and written again. */
  function Rewritten(fs: seq<Field>, s: seq<byte>): Output {
    if DecodedMessage(fs, s).Ok? then EncodedMessage(fs, DecodedMessage(fs, s).value) else None
  }

  /**
    Every accepted stream, however it was made, has a canonical form: the form is
    accepted, shows the same content, and is its own canonical form.
   */
  lemma CanonicalForm(fs: seq<Field>, s: seq<byte>)
    requires WellFormed(fs) && Writable(fs) && DepthUpTo(fs, |fs|) <= 0x100_0000 && DecodedMessage(fs, s).Ok?
    requires Readable(fs, DecodedMessage(fs, s).value)
    ensures Rewritten(fs, s).Some?
    ensures DecodedMessage(fs, Rewritten(fs, s).value) == Ok(Normal(fs, DecodedMessage(fs, s).value))
    ensures Rewritten(fs, Rewritten(fs, s).value) == Rewritten(fs, s)
  {
    AcceptedIsWritten(fs, s);
    MessageRoundTrip(fs, DecodedMessage(fs, s).value);
    RewriteIsStable(fs, DecodedMessage(fs, s).value);
  }

  /** With 16-bit sizes and moderate nesting there is no condition on the content. */
  lemma CanonicalSixteenBit(fs: seq<Field>, s: seq<byte>)
    requires WellFormed(fs) && Writable(fs) && SixteenBit(fs) && DepthUpTo(fs, |fs|) <= 4095
    requires DecodedMessage(fs, s).Ok?
    ensures Rewritten(fs, s).Some?
    ensures DecodedMessage(fs, Rewritten(fs, s).value) == Ok(Normal(fs, DecodedMessage(fs, s).value))
    ensures Rewritten(fs, Rewritten(fs, s).value) == Rewritten(fs, s)
  {
    AcceptedIsWritten(fs, s);
    RoundTripSixteenBit(fs, DecodedMessage(fs, s).value);
    NormalEncodesAlike(fs, DecodedMessage(fs, s).value);
  }

  /** With 16-bit sizes, messages are written alike exactly if they show the same content. */
  lemma {:induction false} AlikeSixteenBit(fs: seq<Field>, a: Message, b: Message)
    requires WellFormed(fs) && SixteenBit(fs) && DepthUpTo(fs, |fs|) <= 4095
    requires TypedMessage(fs, a) && TypedMessage(fs, b)
    requires EncodedMessage(fs, a).Some? && EncodedMessage(fs, b).Some?
    ensures EncodedMessage(fs, a) == EncodedMessage(fs, b) <==> Normal(fs, a) == Normal(fs, b)
  {
    if EncodedMessage(fs, a) == EncodedMessage(fs, b) {
      RoundTripSixteenBit(fs, a);
      RoundTripSixteenBit(fs, b);
    } else {
      NormalEncodesAlike(fs, a);
      NormalEncodesAlike(fs, b);
    }
  }

  /**
    Two accepted streams have the same canonical form exactly if they show the same
    content: order, repetition, padding and unknown records do not matter.
   */
  lemma {:induction false} SameForm(fs: seq<Field>, s: seq<byte>, t: seq<byte>)
    requires WellFormed(fs) && Writable(fs) && SixteenBit(fs) && DepthUpTo(fs, |fs|) <= 4095
    requires DecodedMessage(fs, s).Ok? && DecodedMessage(fs, t).Ok?
    ensures Rewritten(fs, s) == Rewritten(fs, t)
      <==> Normal(fs, DecodedMessage(fs, s).value) == Normal(fs, DecodedMessage(fs, t).value)
  {
    AcceptedIsWritten(fs, s);
    AcceptedIsWritten(fs, t);
    AlikeSixteenBit(fs, DecodedMessage(fs, s).value, DecodedMessage(fs, t).value);
  }
}
