/**
  How long an encoding can be, given the size of the structure that holds the message.
  With members and arrays of 16-bit size, as in the default configuration, and types
  nested less than 4096 deep, no length prefix outgrows the 32 bits the decoder reads,
  and the round trip holds for every message.  With 32-bit sizes, or types nested 2^31
  deep, there are messages that are written and not read.
 */
module Sizes {
  import opened Bits
  import opened Basics
  import opened Wire
  import opened Schema
  import opened Encoder
  import opened Decoder
  import opened RoundTrip

  // ---- Sizes of structures -----------------------------------------------------------

  /** The bytes a value takes up in its structure, without padding. */
  function Size(l: LType): nat
    decreases l, 0
  {
    match l
    case Bool => 1
    case Varint(size) => size
    case UVarint(size) => size
    case SVarint(size) => size
    case Fixed32 => 4
    case Fixed64 => 8
    case Bytes(max) => max + 2
    case String(size) => size
    case Submessage(fs) => if StructSize(fs) == 0 then 1 else StructSize(fs)
  }

  /** A member with its has-flag or count; union members are counted with their union. */
  function MemberSize(f: Field): nat
    decreases f, 0
  {
    match f.h
    case Required => Size(f.l)
    case Optional => Size(f.l) + 1
    case Repeated(arraySize) => arraySize * Size(f.l) + 2
    case OneOf(_) => 0
  }

  /** The size of one value of a field, and how deep its type nests. */
  function FieldSize(f: Field): nat
    decreases f, 0
  {
    Size(f.l)
  }

  function FieldDepth(f: Field): nat
    decreases f, 0
  {
    Depth(f.l)
  }

  function PlainSize(fs: seq<Field>, n: nat): nat
    requires n <= |fs|
    decreases fs, 1, n
  {
    if n == 0 then 0 else PlainSize(fs, n - 1) + MemberSize(fs[n - 1])
  }

  /** The largest member of union u among the first n fields. */
  function UnionSize(fs: seq<Field>, n: nat, u: nat): nat
    requires n <= |fs|
    decreases fs, 1, n
  {
    if n == 0 then 0
    else
      var before := UnionSize(fs, n - 1, u);
      if fs[n - 1].h == OneOf(u) && FieldSize(fs[n - 1]) > before then FieldSize(fs[n - 1]) else before
  }

  /** The first k unions, each with the tag of its member. */
  function UnionSizes(fs: seq<Field>, k: nat): nat
    decreases fs, 2, k
  {
    if k == 0 then 0 else UnionSizes(fs, k - 1) + UnionSize(fs, |fs|, k - 1) + 2
  }

  /** A lower bound for the size of the structure. */
  function StructSize(fs: seq<Field>): nat
    decreases fs, 3
  {
    PlainSize(fs, |fs|) + UnionSizes(fs, Unions(fs))
  }

  /** How deep message types nest. */
  function Depth(l: LType): nat
    decreases l, 0
  {
    if l.Submessage? then 1 + DepthUpTo(l.fields, |l.fields|) else 0
  }

  function DepthUpTo(fs: seq<Field>, n: nat): nat
    requires n <= |fs|
    decreases fs, 1, n
  {
    if n == 0 then 0
    else
      var before := DepthUpTo(fs, n - 1);
      if FieldDepth(fs[n - 1]) > before then FieldDepth(fs[n - 1]) else before
  }

  lemma {:induction false} DepthOfField(fs: seq<Field>, n: nat, i: nat)
    requires i < n <= |fs|
    ensures Depth(fs[i].l) <= DepthUpTo(fs, n)
    decreases n
  {
    if i < n - 1 {
      DepthOfField(fs, n - 1, i);
    }
  }

  // ---- Scalars ---------------------------------------------------------------------------

  lemma VarintAtMost(v: nat)
    requires v < 0x1_0000_0000_0000_0000
    ensures |VarintBytes(v)| <= 10
  {
    VarintRoundTrip(v, []);
  }

  lemma TagAtMost(tag: nat, wireType: nat)
    requires tag < 0x2000_0000 && wireType < 8
    ensures |TagBytes(tag, wireType)| <= 5
  {
    assert Pow128(2) == 0x4000 && Pow128(4) == 0x1000_0000;
    assert Pow128(5) == 0x80 * Pow128(4);
    GroupsOfVarint(tag * 8 + wireType, 5, []);
  }

  lemma NumAtMost(l: LType, n: int)
    requires EncodedNum(l, n).Some?
    ensures |EncodedNum(l, n).value| <= 10 && Size(l) >= 1
  {
    match l
    case Bool => VarintAtMost(n);
    case Varint(_) => VarintAtMost(ToU64(n));
    case UVarint(_) => VarintAtMost(n);
    case SVarint(_) => VarintAtMost(ZigZag(n));
    case Fixed32 =>
    case Fixed64 =>
  }

  lemma DelimitedAtMost(p: Output)
    requires Delimited(p).Some?
    ensures p.Some? && |Delimited(p).value| <= |p.value| + 10
  {
    VarintAtMost(|p.value|);
  }

  // ---- Values ------------------------------------------------------------------------------

  /** How many bytes an encoding can take for each byte of structure, at a given depth. */
  function Rate(depth: nat): nat {
    16 * (1 + depth)
  }

  /** rate * size, one byte of structure at a time. */
  function Cost(rate: nat, size: nat): nat {
    if size == 0 then 0 else Cost(rate, size - 1) + rate
  }

  lemma {:induction false} CostIsProduct(rate: nat, size: nat)
    ensures Cost(rate, size) == size * rate
  {
    if size > 0 {
      CostIsProduct(rate, size - 1);
      Times(size - 1, rate);
    }
  }

  lemma Times(n: nat, x: nat)
    ensures (n + 1) * x == n * x + x
  {
  }

  lemma {:induction false} CostSum(rate: nat, a: nat, b: nat)
    ensures Cost(rate, a + b) == Cost(rate, a) + Cost(rate, b)
    decreases b
  {
    if b > 0 {
      CostSum(rate, a, b - 1);
    }
  }

  lemma CostMonotone(rate: nat, a: nat, b: nat)
    requires a <= b
    ensures Cost(rate, a) <= Cost(rate, b)
  {
    CostSum(rate, a, b - a);
  }

  lemma {:induction false} RateMonotone(d: nat, e: nat, size: nat)
    requires d <= e
    ensures Cost(Rate(d), size) <= Cost(Rate(e), size)
    decreases size
  {
    if size > 0 {
      RateMonotone(d, e, size - 1);
    }
  }

  /** One level more pays for a tag and a length. */
  lemma {:induction false} RateOfLevel(d: nat, size: nat)
    requires size >= 1
    ensures Cost(Rate(d), size) + 16 <= Cost(Rate(d + 1), size)
    ensures 16 * size <= Cost(Rate(d), size)
    decreases size
  {
    if size > 1 {
      RateOfLevel(d, size - 1);
    } else {
      assert Cost(Rate(d), 1) == Cost(Rate(d), 0) + Rate(d);
      assert Cost(Rate(d + 1), 1) == Cost(Rate(d + 1), 0) + Rate(d + 1);
    }
  }

  /** A value with the tag before it. */
  lemma {:induction false} ValueAtMost(l: LType, v: Value)
    requires Typed(l, v) && WellFormedType(l) && EncodedValue(l, v).Some?
    ensures Size(l) >= 1
    ensures |EncodedValue(l, v).value| + 5 <= Cost(Rate(Depth(l)), Size(l))
    decreases l, 0
  {
    match l
    case Bytes(max) =>
      DelimitedAtMost(Some(v.bytes));
      RateOfLevel(0, Size(l));
    case String(size) =>
      DelimitedAtMost(Some(CString(v.bytes)));
      RateOfLevel(0, Size(l));
    case Submessage(fs) =>
      DelimitedAtMost(EncodedMessage(fs, v.m));
      MessageAtMost(fs, v.m);
      var d := DepthUpTo(fs, |fs|);
      CostMonotone(Rate(d), StructSize(fs), Size(l));
      RateOfLevel(d, Size(l));
    case _ =>
      NumAtMost(l, v.n);
      RateOfLevel(0, Size(l));
  }

  lemma RecordAtMost(f: Field, v: Value, rate: nat)
    requires WellFormedField(f) && EncodedRecord(f, v).Some? && Rated(f, rate, v)
    ensures |EncodedRecord(f, v).value| <= Cost(rate, Size(f.l))
  {
    TagAtMost(f.tag, WireType(f.l));
  }

  /** A value of field f is within the rate. */
  predicate Rated(f: Field, rate: nat, v: Value) {
    EncodedValue(f.l, v).Some? ==> |EncodedValue(f.l, v).value| + 5 <= Cost(rate, Size(f.l))
  }

  lemma {:induction false} RecordsAtMost(f: Field, items: seq<Value>, rate: nat)
    requires WellFormedField(f) && EncodedRecords(f, items).Some?
    requires forall j :: 0 <= j < |items| ==> Rated(f, rate, items[j])
    ensures |EncodedRecords(f, items).value| <= Cost(rate, |items| * Size(f.l))
    decreases |items|
  {
    if items != [] {
      var init, last := items[..|items| - 1], items[|items| - 1];
      RecordsAtMost(f, init, rate);
      RecordAtMost(f, last, rate);
      Times(|init|, Size(f.l));
      CostSum(rate, |init| * Size(f.l), Size(f.l));
    } else {
      assert EncodedRecords(f, items).value == [];
    }
  }

  lemma {:induction false} PackedAtMost(l: LType, items: seq<Value>)
    requires Packable(l) && PackedItems(l, items).Some?
    ensures |PackedItems(l, items).value| <= 10 * |items|
    ensures items != [] ==> Size(l) >= 1
    decreases |items|
  {
    if items != [] {
      PackedAtMost(l, items[..|items| - 1]);
      NumAtMost(l, items[|items| - 1].n);
    }
  }

  lemma {:induction false} PackedArrayAtMost(f: Field, items: seq<Value>, rate: nat)
    requires WellFormedField(f) && rate >= 16 && Packable(f.l) && items != []
    requires PackedItems(f.l, items).Some? && Delimited(PackedItems(f.l, items)).Some?
    ensures |TagBytes(f.tag, 2)| + |Delimited(PackedItems(f.l, items)).value| <= Cost(rate, |items| * Size(f.l)) + 15
  {
    TagAtMost(f.tag, 2);
    DelimitedAtMost(PackedItems(f.l, items));
    PackedAtMost(f.l, items);
    MulLe(1, Size(f.l), |items|);
    CostMonotone(rate, |items|, |items| * Size(f.l));
    TenEach(rate, |items|);
  }

  lemma {:induction false} TenEach(rate: nat, n: nat)
    requires rate >= 16
    ensures 10 * n <= Cost(rate, n)
  {
    if n > 0 {
      TenEach(rate, n - 1);
    }
  }

  lemma {:induction false} ItemsAtMost(f: Field, arraySize: nat, items: seq<Value>, rate: nat)
    requires WellFormedField(f) && rate >= 16 && EncodedArray(f, arraySize, items).Some? && items != []
    requires forall j :: 0 <= j < |items| ==> Rated(f, rate, items[j])
    ensures |EncodedArray(f, arraySize, items).value| <= Cost(rate, |items| * Size(f.l)) + 15
  {
    if Packable(f.l) {
      PackedArrayAtMost(f, items, rate);
    } else {
      RecordsAtMost(f, items, rate);
    }
  }

  lemma CostWithCount(rate: nat, n: nat)
    ensures Cost(rate, n + 2) == Cost(rate, n) + 2 * rate
  {
  }

  lemma CostOfMore(rate: nat, n: nat, most: nat, size: nat)
    requires n <= most
    ensures n * size >= 0 && most * size >= 0
    ensures Cost(rate, n * size) <= Cost(rate, most * size)
  {
    MulLe(n, most, size);
    CostMonotone(rate, n * size, most * size);
  }

  lemma {:induction false} ArrayAtMost(f: Field, arraySize: nat, items: seq<Value>, rate: nat)
    requires WellFormedField(f) && rate >= 16 && EncodedArray(f, arraySize, items).Some?
    requires forall j :: 0 <= j < |items| ==> Rated(f, rate, items[j])
    ensures |EncodedArray(f, arraySize, items).value| <= Cost(rate, arraySize * Size(f.l) + 2)
  {
    CostWithCount(rate, arraySize * Size(f.l));
    if items != [] {
      ItemsAtMost(f, arraySize, items, rate);
      CostOfMore(rate, |items|, arraySize, Size(f.l));
    }
  }

  // ---- Messages ------------------------------------------------------------------------------

  /** What field i takes, by whether it lives in a union. */
  function FieldBytes(fs: seq<Field>, m: Message, i: nat): nat
    requires i < |fs|
  {
    var e := EncodedField(fs[i], i, m);
    if e.Some? then |e.value| else 0
  }

  function PlainBytes(fs: seq<Field>, m: Message, n: nat): nat
    requires n <= |fs|
  {
    if n == 0 then 0
    else PlainBytes(fs, m, n - 1) + (if fs[n - 1].h.OneOf? then 0 else FieldBytes(fs, m, n - 1))
  }

  function UnionBytes(fs: seq<Field>, m: Message, n: nat, u: nat): nat
    requires n <= |fs|
  {
    if n == 0 then 0
    else UnionBytes(fs, m, n - 1, u) + (if fs[n - 1].h == OneOf(u) then FieldBytes(fs, m, n - 1) else 0)
  }

  function AllUnionBytes(fs: seq<Field>, m: Message, n: nat, k: nat): nat
    requires n <= |fs|
    decreases k
  {
    if k == 0 then 0 else AllUnionBytes(fs, m, n, k - 1) + UnionBytes(fs, m, n, k - 1)
  }

  lemma {:induction false} UnionsStep(fs: seq<Field>, m: Message, n: nat, k: nat)
    requires 0 < n <= |fs|
    ensures AllUnionBytes(fs, m, n, k) == AllUnionBytes(fs, m, n - 1, k)
      + (if fs[n - 1].h.OneOf? && fs[n - 1].h.union < k then FieldBytes(fs, m, n - 1) else 0)
    decreases k
  {
    if k > 0 {
      UnionsStep(fs, m, n, k - 1);
    }
  }

  lemma {:induction false} NoUnionBytes(fs: seq<Field>, m: Message, k: nat)
    ensures AllUnionBytes(fs, m, 0, k) == 0
    decreases k
  {
    if k > 0 {
      NoUnionBytes(fs, m, k - 1);
    }
  }

  /** The encoding is that of the plain members and that of the unions. */
  lemma {:induction false} BytesBySort(fs: seq<Field>, m: Message, n: nat)
    requires n <= |fs| && EncodedUpTo(fs, m, n).Some?
    ensures |EncodedUpTo(fs, m, n).value| == PlainBytes(fs, m, n) + AllUnionBytes(fs, m, n, Unions(fs))
    decreases n
  {
    if n == 0 {
      NoUnionBytes(fs, m, Unions(fs));
    } else {
      UpToSplit(fs, m, n);
      BytesBySort(fs, m, n - 1);
      UnionsStep(fs, m, n, Unions(fs));
    }
  }

  /** The values of field i of m are. */
  predicate RatedField(f: Field, i: nat, m: Message, rate: nat) {
    match f.h
    case Required => i < |m.slots| && m.slots[i].One? ==> Rated(f, rate, m.slots[i].v)
    case Optional => i < |m.slots| && m.slots[i].One? ==> Rated(f, rate, m.slots[i].v)
    case Repeated(_) => i < |m.slots| && m.slots[i].Many? ==>
      forall j :: 0 <= j < |m.slots[i].items| ==> Rated(f, rate, m.slots[i].items[j])
    case OneOf(u) => u < |m.unions| && m.unions[u].which == f.tag ==> Rated(f, rate, m.unions[u].v)
  }

  lemma PlainFieldAtMost(f: Field, i: nat, m: Message, rate: nat)
    requires WellFormedField(f) && rate >= 16 && !f.h.OneOf? && RatedField(f, i, m, rate) && EncodedField(f, i, m).Some?
    ensures |EncodedField(f, i, m).value| <= Cost(rate, MemberSize(f))
  {
    match f.h
    case Required => RecordAtMost(f, m.slots[i].v, rate);
    case Optional =>
      CostSum(rate, Size(f.l), 1);
      if m.slots[i].has { RecordAtMost(f, m.slots[i].v, rate); }
    case Repeated(arraySize) =>
      var items := m.slots[i].items;
      assert forall j :: 0 <= j < |items| ==> Rated(f, rate, items[j]);
      ArrayAtMost(f, arraySize, items, rate);
  }

  lemma {:induction false} PlainAtMost(fs: seq<Field>, m: Message, n: nat, rate: nat)
    requires WellFormed(fs) && n <= |fs| && rate >= 16
    requires forall i :: 0 <= i < |fs| ==> RatedField(fs[i], i, m, rate)
    ensures PlainBytes(fs, m, n) <= Cost(rate, PlainSize(fs, n))
    decreases n
  {
    if n > 0 {
      PlainAtMost(fs, m, n - 1, rate);
      var f := fs[n - 1];
      assert WellFormedField(f) && RatedField(f, n - 1, m, rate);
      if !f.h.OneOf? && EncodedField(f, n - 1, m).Some? { PlainFieldAtMost(f, n - 1, m, rate); }
      CostSum(rate, PlainSize(fs, n - 1), MemberSize(f));
    }
  }

  /** f is the member that union u of m holds. */
  predicate Selected(f: Field, m: Message, u: nat) {
    f.h == OneOf(u) && u < |m.unions| && m.unions[u].which == f.tag
  }

  lemma MemberAtMost(fs: seq<Field>, m: Message, i: nat, u: nat, rate: nat)
    requires i < |fs| && WellFormedField(fs[i]) && RatedField(fs[i], i, m, rate) && fs[i].h == OneOf(u)
    ensures FieldBytes(fs, m, i) <= Cost(rate, Size(fs[i].l))
    ensures !Selected(fs[i], m, u) ==> FieldBytes(fs, m, i) == 0
  {
    var f := fs[i];
    if Selected(f, m, u) && EncodedField(f, i, m).Some? { RecordAtMost(f, m.unions[u].v, rate); }
  }

  lemma {:induction false} NoneSelected(fs: seq<Field>, m: Message, n: nat, u: nat, rate: nat)
    requires WellFormed(fs) && n <= |fs| && forall i :: 0 <= i < |fs| ==> RatedField(fs[i], i, m, rate)
    requires forall i :: 0 <= i < n ==> !Selected(fs[i], m, u)
    ensures UnionBytes(fs, m, n, u) == 0
    decreases n
  {
    if n > 0 {
      NoneSelected(fs, m, n - 1, u, rate);
      assert WellFormedField(fs[n - 1]) && RatedField(fs[n - 1], n - 1, m, rate);
      if fs[n - 1].h == OneOf(u) { MemberAtMost(fs, m, n - 1, u, rate); }
    }
  }

  /** At most one member of a union is written. */
  lemma {:induction false} UnionAtMost(fs: seq<Field>, m: Message, n: nat, u: nat, rate: nat)
    requires WellFormed(fs) && n <= |fs| && forall i :: 0 <= i < |fs| ==> RatedField(fs[i], i, m, rate)
    ensures UnionBytes(fs, m, n, u) <= Cost(rate, UnionSize(fs, n, u))
    decreases n
  {
    if n > 0 {
      var f, before, after := fs[n - 1], UnionSize(fs, n - 1, u), UnionSize(fs, n, u);
      UnionAtMost(fs, m, n - 1, u, rate);
      CostMonotone(rate, before, after);
      assert WellFormedField(f) && RatedField(f, n - 1, m, rate);
      if f.h == OneOf(u) {
        MemberAtMost(fs, m, n - 1, u, rate);
        assert FieldSize(f) == Size(f.l);
        CostMonotone(rate, FieldSize(f), after);
        if Selected(f, m, u) {
          assert forall i :: 0 <= i < n - 1 ==> fs[i].tag != f.tag;
          NoneSelected(fs, m, n - 1, u, rate);
        }
      }
    }
  }

  lemma {:induction false} UnionsAtMost(fs: seq<Field>, m: Message, k: nat, rate: nat)
    requires WellFormed(fs) && rate >= 16
    requires forall i :: 0 <= i < |fs| ==> RatedField(fs[i], i, m, rate)
    ensures AllUnionBytes(fs, m, |fs|, k) <= Cost(rate, UnionSizes(fs, k))
    decreases k
  {
    if k > 0 {
      UnionsAtMost(fs, m, k - 1, rate);
      UnionAtMost(fs, m, |fs|, k - 1, rate);
      var a, b := UnionSizes(fs, k - 1), UnionSize(fs, |fs|, k - 1);
      CostSum(rate, a, b);
      CostSum(rate, a + b, 2);
    }
  }

  lemma {:induction false} FieldRated(fs: seq<Field>, f: Field, i: nat, m: Message)
    requires WellFormed(fs) && TypedMessage(fs, m) && i < |fs| && f == fs[i]
    ensures RatedField(f, i, m, Rate(DepthUpTo(fs, |fs|)))
    decreases f, 0
  {
    var rate := Rate(DepthUpTo(fs, |fs|));
    DepthOfField(fs, |fs|, i);
    RateMonotone(Depth(f.l), DepthUpTo(fs, |fs|), Size(f.l));
    assert WellFormedField(f) && TypedSlot(f, m.slots[i]) && TypedChoice(f, m.unions);
    match f.h
    case Repeated(_) =>
      var items := m.slots[i].items;
      forall j | 0 <= j < |items| ensures Rated(f, rate, items[j]) {
        if EncodedValue(f.l, items[j]).Some? { ValueAtMost(f.l, items[j]); }
      }
    case OneOf(u) =>
      if m.unions[u].which == f.tag && EncodedValue(f.l, m.unions[u].v).Some? { ValueAtMost(f.l, m.unions[u].v); }
    case _ =>
      if EncodedValue(f.l, m.slots[i].v).Some? { ValueAtMost(f.l, m.slots[i].v); }
  }

  /** An encoding is at most so many times as long as the structure it comes from is large. */
  lemma {:induction false} MessageAtMost(fs: seq<Field>, m: Message)
    requires WellFormed(fs) && TypedMessage(fs, m) && EncodedMessage(fs, m).Some?
    ensures |EncodedMessage(fs, m).value| <= Cost(Rate(DepthUpTo(fs, |fs|)), StructSize(fs))
    decreases fs, 5
  {
    var rate := Rate(DepthUpTo(fs, |fs|));
    forall i | 0 <= i < |fs| ensures RatedField(fs[i], i, m, rate) {
      FieldRated(fs, fs[i], i, m);
    }
    BytesBySort(fs, m, |fs|);
    PlainAtMost(fs, m, |fs|, rate);
    UnionsAtMost(fs, m, Unions(fs), rate);
    CostSum(rate, PlainSize(fs, |fs|), UnionSizes(fs, Unions(fs)));
  }

  // ---- Sixteen bits are enough -----------------------------------------------------------------

  /** What the static assertions beside the packing macros demand: data and array sizes fit 16 bits. */
  predicate SixteenBit(fs: seq<Field>) {
    forall i :: 0 <= i < |fs| ==>
      Size(fs[i].l) < 0x1_0000 && (fs[i].h.Repeated? ==> fs[i].h.arraySize < 0x1_0000)
  }

  lemma ShortSubmessage(l: LType, v: Value)
    requires Typed(l, v) && WellFormedType(l) && Size(l) < 0x1_0000 && Depth(l) <= 4095
    ensures ReadableValue(l, v)
  {
    if l.Submessage? && EncodedMessage(l.fields, v.m).Some? {
      var fs := l.fields;
      var d := DepthUpTo(fs, |fs|);
      MessageAtMost(fs, v.m);
      RateMonotone(d, 4094, StructSize(fs));
      CostMonotone(Rate(4094), StructSize(fs), 0xFFFF);
      CostIsProduct(Rate(4094), 0xFFFF);
    }
  }

  lemma SixteenBitField(fs: seq<Field>, i: nat, m: Message)
    requires WellFormed(fs) && TypedMessage(fs, m) && SixteenBit(fs) && DepthUpTo(fs, |fs|) <= 4095 && i < |fs|
    requires EncodedField(fs[i], i, m).Some?
    ensures ReadableField(fs[i], i, m)
  {
    var f := fs[i];
    DepthOfField(fs, |fs|, i);
    assert WellFormedField(f) && TypedSlot(f, m.slots[i]) && TypedChoice(f, m.unions);
    match f.h
    case Repeated(arraySize) =>
      var items := m.slots[i].items;
      if Packable(f.l) {
        if PackedItems(f.l, items).Some? { PackedAtMost(f.l, items); }
        assert EncodedArray(f, arraySize, items).Some?;
        if items == [] { assert PackedItems(f.l, items) == Some([]); }
      } else {
        forall j | 0 <= j < |items| ensures ReadableValue(f.l, items[j]) {
          ShortSubmessage(f.l, items[j]);
        }
      }
    case OneOf(u) => if m.unions[u].which == f.tag { ShortSubmessage(f.l, m.unions[u].v); }
    case _ => ShortSubmessage(f.l, m.slots[i].v);
  }

  /**
    With 16-bit sizes, and message types nested less than 4096 deep, every message
    that can be written is read back, without a condition on its length.
   */
  lemma RoundTripSixteenBit(fs: seq<Field>, m: Message)
    requires WellFormed(fs) && TypedMessage(fs, m) && SixteenBit(fs) && DepthUpTo(fs, |fs|) <= 4095
    requires EncodedMessage(fs, m).Some?
    ensures DecodedMessage(fs, EncodedMessage(fs, m).value) == Ok(Normal(fs, m))
  {
    forall i | 0 <= i < |fs| ensures ReadableField(fs[i], i, m) {
      UpToMonotone(fs, m, i + 1, |fs|);
      UpToSplit(fs, m, i + 1);
      SixteenBitField(fs, i, m);
    }
    MessageRoundTrip(fs, m);
  }

  // ---- Where it fails: a string of nearly 4 GiB ---------------------------------------------------

  function Ones(n: nat): (s: seq<byte>)
    ensures |s| == n
  {
    seq(n, _ => 1)
  }

  lemma {:induction false} OnesString(n: nat)
    ensures CString(Ones(n)) == Ones(n)
  {
    if n > 0 {
      OnesString(n - 1);
      assert Ones(n)[1..] == Ones(n - 1);
      assert Ones(n) == [1] + Ones(n - 1);
    }
  }

  /** A message with one string, and one that holds such a message. */
  function Text(): seq<Field> {
    [Field(1, Required, String(0xFFFF_FFFF))]
  }

  function Envelope(): seq<Field> {
    [Field(1, Required, Submessage(Text()))]
  }

  function TextMessage(s: seq<byte>): Message {
    Message([One(true, Blob(s))], [])
  }

  function EnvelopeMessage(s: seq<byte>): Message {
    Message([One(true, Msg(TextMessage(s)))], [])
  }

  /** The encoding of a message with one required member. */
  lemma OneField(f: Field, v: Value)
    requires f.h.Required?
    ensures var fs := [f];
      Unions(fs) == 0 && EncodedMessage(fs, Message([One(true, v)], [])) == EncodedRecord(f, v)
  {
    var fs, m := [f], Message([One(true, v)], []);
    assert fs[..0] == [];
    assert EncodedUpTo(fs, m, 0) == Some([]);
    assert EncodedUpTo(fs, m, 1) == Cat(EncodedUpTo(fs, m, 0), EncodedField(fs[0], 0, m));
    if EncodedRecord(f, v).Some? { assert [] + EncodedRecord(f, v).value == EncodedRecord(f, v).value; }
  }

  /** The text message is written, and takes 4 GiB. */
  lemma LongText(s: seq<byte>)
    requires CString(s) == s && |s| == 0xFFFF_FFFE
    ensures EncodedMessage(Text(), TextMessage(s)).Some?
    ensures 0x1_0000_0000 <= |EncodedMessage(Text(), TextMessage(s)).value| <= 0x1_0000_0010
  {
    var text := Text()[0];
    OneField(text, Blob(s));
    TagAtMost(text.tag, 2);
    VarintAtMost(|s|);
    assert EncodedValue(text.l, Blob(s)) == Delimited(Some(s));
  }

  lemma LongEnvelope(s: seq<byte>)
    requires CString(s) == s && |s| == 0xFFFF_FFFE
    ensures EncodedMessage(Envelope(), EnvelopeMessage(s)).Some?
    ensures |EncodedMessage(Envelope(), EnvelopeMessage(s)).value| < 0x8000_0000_0000_0000
    ensures !Readable(Envelope(), EnvelopeMessage(s))
  {
    var envelope, m := Envelope()[0], EnvelopeMessage(s);
    LongText(s);
    OneField(envelope, Msg(TextMessage(s)));
    TagAtMost(envelope.tag, 2);
    DelimitedAtMost(EncodedMessage(Text(), TextMessage(s)));
    assert !ReadableField(envelope, 0, m);
  }

  lemma EnvelopeTyped(s: seq<byte>)
    ensures WellFormed(Envelope()) && TypedMessage(Envelope(), EnvelopeMessage(s))
  {
    var text, envelope := Text()[0], Envelope()[0];
    OneField(text, Blob(s));
    OneField(envelope, Msg(TextMessage(s)));
    assert WellFormedField(text);
    assert WellFormed(Text());
    assert TypedSlot(text, TextMessage(s).slots[0]) && TypedMessage(Text(), TextMessage(s));
    assert TypedSlot(envelope, EnvelopeMessage(s).slots[0]);
  }

  /**
    With 32-bit sizes a string can be longer than the decoder's lengths allow for what
    holds it: a submessage with such a string is written but not read.
   */
  lemma LongStringFails(n: nat) returns (m: Message)
    requires n == 0xFFFF_FFFE
    ensures WellFormed(Envelope()) && TypedMessage(Envelope(), m) && EncodedMessage(Envelope(), m).Some?
    ensures DecodedMessage(Envelope(), EncodedMessage(Envelope(), m).value) == Err
  {
    var s := Ones(n);
    m := EnvelopeMessage(s);
    OnesString(n);
    LongEnvelope(s);
    EnvelopeTyped(s);
    RoundTripExactly(Envelope(), m);
  }

  // ---- And types nested two thousand million deep ---------------------------------------------------

  /** A required boolean inside n messages of their own; its structure is one byte. */
  function Nested(n: nat): seq<Field> {
    [Field(1, Required, if n == 0 then Bool else Submessage(Nested(n - 1)))]
  }

  function NestedMessage(n: nat): Message {
    Message([One(true, if n == 0 then Num(0) else Msg(NestedMessage(n - 1)))], [])
  }

  lemma {:induction false} NestedTyped(n: nat)
    ensures WellFormed(Nested(n)) && TypedMessage(Nested(n), NestedMessage(n)) && StructSize(Nested(n)) == 1
  {
    var fs, m := Nested(n), NestedMessage(n);
    if n > 0 { NestedTyped(n - 1); }
    OneField(fs[0], m.slots[0].v);
    assert WellFormedField(fs[0]);
    assert TypedSlot(fs[0], m.slots[0]);
    assert PlainSize(fs, 1) == PlainSize(fs, 0) + MemberSize(fs[0]);
    assert UnionSizes(fs, 0) == 0;
  }

  lemma {:induction false} NestedLength(n: nat)
    requires n < 0x100_0000_0000
    ensures EncodedMessage(Nested(n), NestedMessage(n)).Some?
    ensures 2 * n + 2 <= |EncodedMessage(Nested(n), NestedMessage(n)).value| <= 16 * n + 16
  {
    var f, v := Nested(n)[0], NestedMessage(n).slots[0].v;
    OneField(f, v);
    TagAtMost(f.tag, WireType(f.l));
    if n == 0 {
      NumAtMost(Bool, 0);
    } else {
      NestedLength(n - 1);
      DelimitedAtMost(EncodedMessage(Nested(n - 1), NestedMessage(n - 1)));
    }
  }

  lemma NestedUnreadable(n: nat)
    requires 0x8000_0000 <= n < 0x100_0000_0000
    ensures EncodedMessage(Nested(n), NestedMessage(n)).Some? && !Readable(Nested(n), NestedMessage(n))
    ensures |EncodedMessage(Nested(n), NestedMessage(n)).value| < 0x8000_0000_0000_0000
  {
    NestedLength(n);
    NestedLength(n - 1);
    assert !ReadableField(Nested(n)[0], 0, NestedMessage(n));
  }

  /** So a bound on sizes alone would not do: the structure stays one byte, the encoding grows with every level. */
  lemma DeepNestingFails(n: nat)
    requires 0x8000_0000 <= n < 0x100_0000_0000
    ensures WellFormed(Nested(n)) && TypedMessage(Nested(n), NestedMessage(n)) && SixteenBit(Nested(n))
    ensures EncodedMessage(Nested(n), NestedMessage(n)).Some?
    ensures DecodedMessage(Nested(n), EncodedMessage(Nested(n), NestedMessage(n)).value) == Err
  {
    NestedTyped(n);
    NestedTyped(n - 1);
    NestedUnreadable(n);
    RoundTripExactly(Nested(n), NestedMessage(n));
  }
}
