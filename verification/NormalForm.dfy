/**
  What the encoder loses.  A message and its visible content are written as the
  same bytes, and two messages are written alike exactly if they show the same content.
 */
module NormalForm {
  import opened Basics
  import opened Wire
  import opened Schema
  import opened Encoder
  import opened Decoder
  import opened RoundTrip

  lemma {:induction false} CStringTwice(s: seq<byte>)
    ensures CString(CString(s)) == CString(s)
  {
    if s != [] && s[0] != 0 {
      CStringTwice(s[1..]);
      assert CString(s)[1..] == CString(s[1..]);
    }
  }

  // ---- The visible content, member by member ---------------------------------------

  function NormalSlot(f: Field, s: Slot): Slot {
    match f.h
    case Required => if s.One? then One(true, NormalValue(f.l, s.v)) else s
    case Optional => if s.One? && s.has then One(true, NormalValue(f.l, s.v)) else DefaultSlot(f)
    case Repeated(_) => if s.Many? then Many(NormalItems(f.l, s.items)) else s
    case OneOf(_) => Shared
  }

  lemma {:induction false} SlotsOfNormal(fs: seq<Field>, m: Message, n: nat)
    requires n <= |fs| && TypedMessage(fs, m)
    ensures |NormalUpTo(fs, m, n).slots| == |fs|
    ensures forall i :: 0 <= i < |fs| ==>
      NormalUpTo(fs, m, n).slots[i] == if i < n then NormalSlot(fs[i], m.slots[i]) else DefaultSlot(fs[i])
  {
    if n > 0 {
      SlotsOfNormal(fs, m, n - 1);
      assert TypedSlot(fs[n - 1], m.slots[n - 1]);
    }
  }

  /** A union keeps its member of m if that member is among the first n fields, and is empty otherwise. */
  lemma {:induction false} UnionOfNormal(fs: seq<Field>, m: Message, n: nat, u: nat, i: nat)
    requires n <= |fs| && WellFormed(fs) && TypedMessage(fs, m) && u < Unions(fs)
    requires i < |fs| && fs[i].h == OneOf(u)
    ensures |NormalUpTo(fs, m, n).unions| == Unions(fs)
    ensures var c := NormalUpTo(fs, m, n).unions[u];
      && (c.which == 0 || c.which == m.unions[u].which)
      && (i < n && fs[i].tag == m.unions[u].which ==> c == Choice(fs[i].tag, NormalValue(fs[i].l, m.unions[u].v)))
  {
    NormalUpToShape(fs, m, n);
    if n > 0 {
      var before := NormalUpTo(fs, m, n - 1);
      UnionOfNormal(fs, m, n - 1, u, i);
      NormalUpToShape(fs, m, n - 1);
      LaterFieldKeepsUnion(fs, m, n - 1, u, before);
      if n - 1 != i { assert fs[n - 1].tag != fs[i].tag; }
    }
  }

  lemma LaterFieldKeepsUnion(fs: seq<Field>, m: Message, i: nat, u: nat, done: Message)
    requires i < |fs| && WellFormed(fs) && |m.slots| == |done.slots| == |fs|
    requires |m.unions| == |done.unions| == Unions(fs) && u < Unions(fs)
    ensures var c := WithField(fs[i], i, m, done);
      && |c.unions| == |done.unions|
      && c.unions[u] == if fs[i].h == OneOf(u) && fs[i].tag == m.unions[u].which
                        then Choice(fs[i].tag, NormalValue(fs[i].l, m.unions[u].v)) else done.unions[u]
  {
  }

  // ---- The same bytes ----------------------------------------------------------------

  lemma {:induction false} ValueAlike(l: LType, v: Value)
    requires Typed(l, v) && WellFormedType(l)
    ensures EncodedValue(l, NormalValue(l, v)) == EncodedValue(l, v)
    decreases l, 0
  {
    match l
    case String(_) => CStringTwice(v.bytes);
    case Submessage(fs) => NormalEncodesAlike(fs, v.m);
    case _ =>
  }

  lemma {:induction false} RecordsAlike(f: Field, items: seq<Value>)
    requires WellFormedField(f) && forall i :: 0 <= i < |items| ==> Typed(f.l, items[i])
    ensures EncodedRecords(f, NormalItems(f.l, items)) == EncodedRecords(f, items)
    decreases f, 1, |items|
  {
    if items != [] {
      var init, last := items[..|items| - 1], items[|items| - 1];
      RecordsAlike(f, init);
      ValueAlike(f.l, last);
      var r := NormalItems(f.l, items);
      assert r[..|r| - 1] == NormalItems(f.l, init) && r[|r| - 1] == NormalValue(f.l, last);
    }
  }

  lemma {:induction false} FieldAlike(fs: seq<Field>, f: Field, i: nat, m: Message)
    requires WellFormed(fs) && TypedMessage(fs, m) && i < |fs| && f == fs[i]
    ensures EncodedField(f, i, Normal(fs, m)) == EncodedField(f, i, m)
    decreases f, 3
  {
    var c := Normal(fs, m);
    assert WellFormedField(f) && TypedSlot(f, m.slots[i]) && TypedChoice(f, m.unions);
    SlotsOfNormal(fs, m, |fs|);
    assert c.slots[i] == NormalSlot(f, m.slots[i]);
    match f.h
    case Required => ValueAlike(f.l, m.slots[i].v);
    case Optional => if m.slots[i].has { ValueAlike(f.l, m.slots[i].v); }
    case Repeated(_) =>
      if Packable(f.l) { PackedNormal(f.l, m.slots[i].items); } else { RecordsAlike(f, m.slots[i].items); }
    case OneOf(u) =>
      UnionOfNormal(fs, m, |fs|, u, i);
      if m.unions[u].which == f.tag {
        ValueAlike(f.l, m.unions[u].v);
      }
  }

  lemma {:induction false} UpToAlike(fs: seq<Field>, m: Message, n: nat)
    requires WellFormed(fs) && TypedMessage(fs, m) && n <= |fs|
    ensures EncodedUpTo(fs, Normal(fs, m), n) == EncodedUpTo(fs, m, n)
    decreases fs, 4, n
  {
    if n > 0 {
      UpToAlike(fs, m, n - 1);
      FieldAlike(fs, fs[n - 1], n - 1, m);
    }
  }

  lemma {:induction false} NormalEncodesAlike(fs: seq<Field>, m: Message)
    requires WellFormed(fs) && TypedMessage(fs, m)
    ensures EncodedMessage(fs, Normal(fs, m)) == EncodedMessage(fs, m)
    decreases fs, 5
  {
    UpToAlike(fs, m, |fs|);
  }

  /** Whether a message can be written, with every length within the decoder's 32 bits. */
  predicate Encodable(fs: seq<Field>, m: Message) {
    EncodedMessage(fs, m).Some? && Readable(fs, m)
  }

  /** The bytes of a message determine its visible content, and the other way round. */
  lemma SameBytesSameContent(fs: seq<Field>, a: Message, b: Message)
    requires WellFormed(fs) && TypedMessage(fs, a) && TypedMessage(fs, b) && Encodable(fs, a) && Encodable(fs, b)
    ensures EncodedMessage(fs, a) == EncodedMessage(fs, b) <==> Normal(fs, a) == Normal(fs, b)
  {
    NormalEncodesAlike(fs, a);
    NormalEncodesAlike(fs, b);
    if EncodedMessage(fs, a) == EncodedMessage(fs, b) {
      MessageRoundTrip(fs, a);
      MessageRoundTrip(fs, b);
    }
  }

  /** Decoding and encoding again gives the same bytes. */
  lemma RewriteIsStable(fs: seq<Field>, m: Message)
    requires WellFormed(fs) && TypedMessage(fs, m) && Encodable(fs, m)
    ensures var bytes := EncodedMessage(fs, m).value;
      DecodedMessage(fs, bytes).Ok? && EncodedMessage(fs, DecodedMessage(fs, bytes).value) == Some(bytes)
  {
    MessageRoundTrip(fs, m);
    NormalEncodesAlike(fs, m);
  }
}
