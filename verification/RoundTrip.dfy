/** Decoding what the encoder wrote gives the message back, at any nesting depth. */
module RoundTrip {
  import opened Basics
  import opened Wire
  import opened Schema
  import opened Encoder
  import opened Decoder

  // ---- Scalars -----------------------------------------------------------------------

  lemma NumRoundTrip(l: LType, n: int, t: seq<byte>)
    requires EncodedNum(l, n).Some?
    ensures DecodedNum(l, EncodedNum(l, n).value + t) == Got(n, t)
    ensures |EncodedNum(l, n).value| >= 1
  {
    match l
    case Bool => Varint32RoundTrip(n, t);
    case Varint(size) =>
      VarintRoundTrip(ToU64(n), t);
      SignRecovered(size, n);
    case UVarint(_) => VarintRoundTrip(n, t);
    case SVarint(_) =>
      VarintRoundTrip(ZigZag(n), t);
      ZigZagInverse(n);
    case Fixed32 =>
      FixedRoundTrip(n, 4, t);
    case Fixed64 =>
      assert Pow256(4) == 0x1_0000_0000;
      FixedRoundTrip(n, 8, t);
  }

  /** A sign-extended value keeps its sign whether 32 or 64 bits of it are looked at. */
  lemma SignRecovered(size: nat, n: int)
    requires Half(size) != 0 && -Half(size) <= n < Half(size)
    ensures (if size == 8 then ToS64(ToU64(n)) else ToS32(ToU64(n))) == n
  {
    if size != 8 && n < 0 {
      assert ToU64(n) == 0xFFFF_FFFF * 0x1_0000_0000 + (n + 0x1_0000_0000);
    }
  }

  lemma DelimitedRoundTrip(p: seq<byte>, t: seq<byte>)
    requires |p| < 0x1_0000_0000
    ensures Delimited(Some(p)) == Some(VarintBytes(|p|) + p)
    ensures Undelimited(VarintBytes(|p|) + p + t) == Split(p, t)
  {
    Varint32RoundTrip(|p|, p + t);
    AppendAssoc(VarintBytes(|p|), p, t);
    assert (p + t)[..|p|] == p && (p + t)[|p|..] == t;
  }

  // ---- Packed arrays -------------------------------------------------------------------

  lemma {:induction false} PackedPrefix(l: LType, items: seq<Value>, held: seq<Value>, size: nat, t: seq<byte>)
    requires Packable(l) && PackedItems(l, items).Some? && |held| + |items| <= size
    ensures DecodedPacked(l, PackedItems(l, items).value + t, held, size) == DecodedPacked(l, t, held + items, size)
    decreases |items|
  {
    if items == [] {
      assert PackedItems(l, items).value + t == t;
      assert held + items == held;
    } else {
      var init, last := items[..|items| - 1], items[|items| - 1];
      var p, e := PackedItems(l, init).value, EncodedNum(l, last.n).value;
      AppendAssoc(p, e, t);
      PackedPrefix(l, init, held, size, e + t);
      NumRoundTrip(l, last.n, t);
      assert last == Num(last.n);
      assert held + init + [last] == held + items;
    }
  }

  lemma {:induction false} PackedNormal(l: LType, items: seq<Value>)
    requires Packable(l)
    ensures NormalItems(l, items) == items
  {
    if items != [] {
      PackedNormal(l, items[..|items| - 1]);
    }
  }

  lemma PackedRoundTrip(l: LType, items: seq<Value>, size: nat)
    requires Packable(l) && PackedItems(l, items).Some? && |items| <= size
    ensures DecodedPacked(l, PackedItems(l, items).value, [], size) == Ok(NormalItems(l, items))
  {
    PackedPrefix(l, items, [], size, []);
    assert PackedItems(l, items).value + [] == PackedItems(l, items).value;
    assert [] + items == items;
    PackedNormal(l, items);
  }

  // ---- Records ---------------------------------------------------------------------------

  lemma HeaderRoundTrip(tag: nat, wireType: nat, t: seq<byte>)
    requires 0 < tag < 0x2000_0000 && wireType < 8
    ensures ReadHeader(TagBytes(tag, wireType) + t) == Got(Header(tag, wireType), t)
  {
    Varint32RoundTrip(tag * 8 + wireType, t);
  }

  lemma FieldIndexUnique(fs: seq<Field>, i: nat)
    requires WellFormed(fs) && i < |fs|
    ensures FieldIndex(fs, fs[i].tag) == i
  {
    var j := FieldIndex(fs, fs[i].tag);
    assert j < |fs| && fs[j].tag == fs[i].tag;
  }

  /** Reading one record of field i off the front. */
  lemma RecordStep(
    fs: seq<Field>, i: nat, wireType: nat, body: seq<byte>, rest: seq<byte>, m: Message, m': Message, seen: set<nat>)
    requires WellFormed(fs) && i < |fs| && wireType < 8 && |rest| <= |body|
    requires DecodedField(fs[i], i, wireType, m, body) == Got(m', rest)
    ensures DecodedRecords(fs, TagBytes(fs[i].tag, wireType) + body, m, seen)
         == DecodedRecords(fs, rest, m', if fs[i].h.Required? then seen + {i} else seen)
  {
    assert WellFormedField(fs[i]);
    HeaderRoundTrip(fs[i].tag, wireType, body);
    FieldIndexUnique(fs, i);
  }

  // ---- Lengths the decoder can read -------------------------------------------------------

  /** The encoder writes lengths of up to 64 bits, the decoder reads them in 32. */
  predicate ReadableValue(l: LType, v: Value) {
    l.Submessage? && v.Msg? && EncodedMessage(l.fields, v.m).Some? ==>
      |EncodedMessage(l.fields, v.m).value| < 0x1_0000_0000
  }

  predicate ReadableField(f: Field, i: nat, m: Message) {
    match f.h
    case Required => i < |m.slots| && m.slots[i].One? ==> ReadableValue(f.l, m.slots[i].v)
    case Optional => i < |m.slots| && m.slots[i].One? && m.slots[i].has ==> ReadableValue(f.l, m.slots[i].v)
    case Repeated(_) => i < |m.slots| && m.slots[i].Many? ==> ReadableItems(f.l, m.slots[i].items)
    case OneOf(u) => u < |m.unions| && m.unions[u].which == f.tag ==> ReadableValue(f.l, m.unions[u].v)
  }

  predicate ReadableItems(l: LType, items: seq<Value>) {
    if Packable(l) then PackedItems(l, items).Some? ==> |PackedItems(l, items).value| < 0x1_0000_0000
    else forall j :: 0 <= j < |items| ==> ReadableValue(l, items[j])
  }

  /** Every submessage and every packed array directly in m takes less than 4 GiB. */
  predicate Readable(fs: seq<Field>, m: Message) {
    forall i :: 0 <= i < |fs| ==> ReadableField(fs[i], i, m)
  }

  lemma ShortRecord(f: Field, v: Value)
    requires EncodedRecord(f, v).Some? && |EncodedRecord(f, v).value| < 0x1_0000_0000
    ensures ReadableValue(f.l, v)
  {
  }

  lemma ShortField(f: Field, i: nat, m: Message)
    requires EncodedField(f, i, m).Some? && |EncodedField(f, i, m).value| < 0x1_0000_0000
    ensures ReadableField(f, i, m)
  {
    match f.h
    case Required => ShortRecord(f, m.slots[i].v);
    case Optional => if m.slots[i].has { ShortRecord(f, m.slots[i].v); }
    case OneOf(u) => if m.unions[u].which == f.tag { ShortRecord(f, m.unions[u].v); }
    case Repeated(_) =>
      var items := m.slots[i].items;
      if !Packable(f.l) {
        forall j | 0 <= j < |items| ensures ReadableValue(f.l, items[j]) {
          RecordsMonotone(f, items, j + 1);
          assert items[..j + 1][j] == items[j];
          ShortRecord(f, items[j]);
        }
      }
  }

  /** In a message of less than 4 GiB every length is readable, at any depth. */
  lemma ShortIsReadable(fs: seq<Field>, m: Message)
    requires EncodedMessage(fs, m).Some? && |EncodedMessage(fs, m).value| < 0x1_0000_0000
    ensures Readable(fs, m)
  {
    forall i | 0 <= i < |fs| ensures ReadableField(fs[i], i, m) {
      UpToMonotone(fs, m, i + 1, |fs|);
      UpToSplit(fs, m, i + 1);
      ShortField(fs[i], i, m);
    }
  }

  // ---- Values, fields and messages ---------------------------------------------------------

  /** A value read into a fresh member. */
  lemma {:induction false} ValueRoundTrip(l: LType, v: Value, t: seq<byte>)
    requires Typed(l, v) && WellFormedType(l)
    requires EncodedValue(l, v).Some? && ReadableValue(l, v)
    ensures DecodedValue(l, DefaultValue(l), EncodedValue(l, v).value + t) == Got(NormalValue(l, v), t)
    decreases l, 0
  {
    match l
    case Bytes(_) => DelimitedRoundTrip(v.bytes, t);
    case String(_) => DelimitedRoundTrip(CString(v.bytes), t);
    case Submessage(fs) =>
      ShortIsReadable(fs, v.m);
      MessageRoundTrip(fs, v.m);
      DelimitedRoundTrip(EncodedMessage(fs, v.m).value, t);
    case _ => NumRoundTrip(l, v.n, t);
  }

  /** A single record of f, whatever the field's kind of presence. */
  lemma {:induction false} RecordRoundTrip(
    fs: seq<Field>, f: Field, i: nat, v: Value, m: Message, m': Message, seen: set<nat>, t: seq<byte>)
    requires WellFormed(fs) && i < |fs| && f == fs[i] && Typed(f.l, v)
    requires EncodedRecord(f, v).Some? && ReadableValue(f.l, v)
    requires |m.slots| == |fs| && |m.unions| == Unions(fs)
    requires
      match f.h
      case Repeated(size) =>
        && !Packable(f.l) && m.slots[i].Many? && |m.slots[i].items| < size
        && m' == m.(slots := m.slots[i := Many(m.slots[i].items + [NormalValue(f.l, v)])])
      case OneOf(u) => m' == m.(unions := m.unions[u := Choice(f.tag, NormalValue(f.l, v))])
      case _ =>
        && m.slots[i].One? && m.slots[i].v == DefaultValue(f.l)
        && m' == m.(slots := m.slots[i := One(true, NormalValue(f.l, v))])
    ensures DecodedRecords(fs, EncodedRecord(f, v).value + t, m, seen)
         == DecodedRecords(fs, t, m', if f.h.Required? then seen + {i} else seen)
    decreases f, 0
  {
    assert WellFormedField(f);
    var e := EncodedValue(f.l, v).value;
    ValueRoundTrip(f.l, v, t);
    AppendAssoc(TagBytes(f.tag, WireType(f.l)), e, t);
    RecordStep(fs, i, WireType(f.l), e + t, t, m, m', seen);
  }

  /** The records of an unpacked array. */
  lemma {:induction false} RecordsRoundTrip(
    fs: seq<Field>, f: Field, i: nat, items: seq<Value>, m: Message, seen: set<nat>, t: seq<byte>)
    requires WellFormed(fs) && i < |fs| && f == fs[i] && f.h.Repeated? && !Packable(f.l)
    requires forall j :: 0 <= j < |items| ==> Typed(f.l, items[j])
    requires EncodedRecords(f, items).Some? && ReadableItems(f.l, items)
    requires |m.slots| == |fs| && |m.unions| == Unions(fs) && m.slots[i] == Many([]) && |items| <= f.h.arraySize
    ensures DecodedRecords(fs, EncodedRecords(f, items).value + t, m, seen)
         == DecodedRecords(fs, t, m.(slots := m.slots[i := Many(NormalItems(f.l, items))]), seen)
    decreases f, 1, |items|
  {
    if items == [] {
      assert EncodedRecords(f, items).value + t == t;
      assert m.slots[i := Many([])] == m.slots;
    } else {
      var init, last := items[..|items| - 1], items[|items| - 1];
      var p, e := EncodedRecords(f, init).value, EncodedRecord(f, last).value;
      AppendAssoc(p, e, t);
      RecordsRoundTrip(fs, f, i, init, m, seen, e + t);
      var mid := m.(slots := m.slots[i := Many(NormalItems(f.l, init))]);
      var m' := m.(slots := m.slots[i := Many(NormalItems(f.l, items))]);
      assert mid.slots[i := m'.slots[i]] == m'.slots;
      RecordRoundTrip(fs, f, i, last, mid, m', seen, t);
    }
  }

  lemma {:induction false} ArrayRoundTrip(
    fs: seq<Field>, f: Field, i: nat, items: seq<Value>, m: Message, seen: set<nat>, t: seq<byte>)
    requires WellFormed(fs) && i < |fs| && f == fs[i] && f.h.Repeated?
    requires forall j :: 0 <= j < |items| ==> Typed(f.l, items[j])
    requires EncodedArray(f, f.h.arraySize, items).Some? && ReadableItems(f.l, items)
    requires |m.slots| == |fs| && |m.unions| == Unions(fs) && m.slots[i] == Many([])
    ensures DecodedRecords(fs, EncodedArray(f, f.h.arraySize, items).value + t, m, seen)
         == DecodedRecords(fs, t, m.(slots := m.slots[i := Many(NormalItems(f.l, items))]), seen)
    decreases f, 2
  {
    if items == [] {
      assert EncodedArray(f, f.h.arraySize, items).value + t == t;
      assert m.slots[i := Many([])] == m.slots;
    } else if Packable(f.l) {
      var p := PackedItems(f.l, items).value;
      PackedRoundTrip(f.l, items, f.h.arraySize);
      DelimitedRoundTrip(p, t);
      AppendAssoc(TagBytes(f.tag, 2), VarintBytes(|p|) + p, t);
      RecordStep(fs, i, 2, VarintBytes(|p|) + p + t, t, m,
                 m.(slots := m.slots[i := Many(NormalItems(f.l, items))]), seen);
    } else {
      RecordsRoundTrip(fs, f, i, items, m, seen, t);
    }
  }

  /** Everything written for field i, read over a message that has that field fresh. */
  lemma {:induction false} FieldRoundTrip(
    fs: seq<Field>, f: Field, i: nat, m: Message, cur: Message, seen: set<nat>, t: seq<byte>)
    requires WellFormed(fs) && i < |fs| && f == fs[i] && TypedMessage(fs, m)
    requires EncodedField(f, i, m).Some? && ReadableField(f, i, m)
    requires |cur.slots| == |fs| && |cur.unions| == Unions(fs) && cur.slots[i] == DefaultSlot(f)
    ensures DecodedRecords(fs, EncodedField(f, i, m).value + t, cur, seen)
         == DecodedRecords(fs, t, WithField(f, i, m, cur), if f.h.Required? then seen + {i} else seen)
    decreases f, 3
  {
    var cur' := WithField(f, i, m, cur);
    assert TypedSlot(f, m.slots[i]) && TypedChoice(f, m.unions);
    match f.h
    case Required => RecordRoundTrip(fs, f, i, m.slots[i].v, cur, cur', seen, t);
    case Optional =>
      if m.slots[i].has {
        RecordRoundTrip(fs, f, i, m.slots[i].v, cur, cur', seen, t);
      } else {
        assert EncodedField(f, i, m).value + t == t;
      }
    case Repeated(_) => ArrayRoundTrip(fs, f, i, m.slots[i].items, cur, seen, t);
    case OneOf(u) =>
      if m.unions[u].which == f.tag {
        RecordRoundTrip(fs, f, i, m.unions[u].v, cur, cur', seen, t);
      } else {
        assert EncodedField(f, i, m).value + t == t;
      }
  }

  /** The required fields among the first n. */
  function RequiredUpTo(fs: seq<Field>, n: nat): set<nat>
    requires n <= |fs|
  {
    if n == 0 then {} else RequiredUpTo(fs, n - 1) + (if fs[n - 1].h.Required? then {n - 1} else {})
  }

  lemma {:induction false} RequiredUpToMembers(fs: seq<Field>, n: nat)
    requires n <= |fs|
    ensures forall i :: 0 <= i < n && fs[i].h.Required? ==> i in RequiredUpTo(fs, n)
  {
    if n > 0 {
      RequiredUpToMembers(fs, n - 1);
    }
  }

  lemma {:induction false} NormalUpToShape(fs: seq<Field>, m: Message, n: nat)
    requires n <= |fs|
    ensures |NormalUpTo(fs, m, n).slots| == |fs| && |NormalUpTo(fs, m, n).unions| == Unions(fs)
    ensures forall i :: n <= i < |fs| ==> NormalUpTo(fs, m, n).slots[i] == DefaultSlot(fs[i])
  {
    if n > 0 {
      NormalUpToShape(fs, m, n - 1);
    }
  }

  lemma RequiredUpToStep(fs: seq<Field>, n: nat)
    requires 0 < n <= |fs|
    ensures RequiredUpTo(fs, n)
         == if fs[n - 1].h.Required? then RequiredUpTo(fs, n - 1) + {n - 1} else RequiredUpTo(fs, n - 1)
  {
    assert RequiredUpTo(fs, n - 1) + {} == RequiredUpTo(fs, n - 1);
  }

  lemma UpToSplit(fs: seq<Field>, m: Message, n: nat)
    requires 0 < n <= |fs| && EncodedUpTo(fs, m, n).Some?
    ensures EncodedUpTo(fs, m, n - 1).Some? && EncodedField(fs[n - 1], n - 1, m).Some?
    ensures EncodedUpTo(fs, m, n).value == EncodedUpTo(fs, m, n - 1).value + EncodedField(fs[n - 1], n - 1, m).value
  {
  }

  /** The first n fields. */
  lemma {:induction false} UpToRoundTrip(fs: seq<Field>, m: Message, n: nat, t: seq<byte>)
    requires WellFormed(fs) && TypedMessage(fs, m) && n <= |fs|
    requires EncodedUpTo(fs, m, n).Some? && forall i :: 0 <= i < n ==> ReadableField(fs[i], i, m)
    ensures DecodedRecords(fs, EncodedUpTo(fs, m, n).value + t, Default(fs), {})
         == DecodedRecords(fs, t, NormalUpTo(fs, m, n), RequiredUpTo(fs, n))
    decreases fs, 4, n
  {
    if n == 0 {
      assert EncodedUpTo(fs, m, 0).value + t == t;
    } else {
      UpToSplit(fs, m, n);
      var p, e := EncodedUpTo(fs, m, n - 1).value, EncodedField(fs[n - 1], n - 1, m).value;
      AppendAssoc(p, e, t);
      UpToRoundTrip(fs, m, n - 1, e + t);
      NormalUpToShape(fs, m, n - 1);
      RequiredUpToStep(fs, n);
      FieldRoundTrip(fs, fs[n - 1], n - 1, m, NormalUpTo(fs, m, n - 1), RequiredUpTo(fs, n - 1), t);
    }
  }

  /**
    Decoding the bytes written for any message of any well-formed type succeeds,
    uses all of them, and gives back the visible content of the message.
   */
  lemma {:induction false} MessageRoundTrip(fs: seq<Field>, m: Message)
    requires WellFormed(fs) && TypedMessage(fs, m)
    requires EncodedMessage(fs, m).Some? && Readable(fs, m)
    ensures DecodedMessage(fs, EncodedMessage(fs, m).value) == Ok(Normal(fs, m))
    decreases fs, 5
  {
    var p := EncodedMessage(fs, m).value;
    UpToRoundTrip(fs, m, |fs|, []);
    assert p + [] == p;
    RequiredUpToMembers(fs, |fs|);
  }

  // ---- Where it fails ------------------------------------------------------------------------

  /** The 32-bit reader refuses every length of 32 bits or more that is not a sign-extended one. */
  lemma LongLengthRefused(n: nat, t: seq<byte>)
    requires 0x1_0000_0000 <= n < 0x8000_0000_0000_0000
    ensures ReadVarint32(VarintBytes(n) + t).Bad?
  {
    LowRefuses(n, 0, 0, t);
  }

  lemma {:induction false} LowRefuses(n: nat, k: nat, acc: nat, t: seq<byte>)
    requires k <= 4 && ShiftIn(n, k) >= 0x1_0000_0000 && ShiftIn(n, k) < 0x8000_0000_0000_0000
    ensures ReadLow32(VarintBytes(n) + t, k, acc).Bad?
    decreases 4 - k
  {
    var s, g := VarintBytes(n) + t, n % 0x80;
    assert n >= 0x80 ==> s[0] as nat % 0x80 == g && s[1..] == VarintBytes(n / 0x80) + t;
    if k < 4 {
      LowRefuses(n / 0x80, k + 1, Or32(acc, g, k), t);
    } else if n >= 0x80 {
      HighRefuses(n / 0x80, 5, Or32(acc, g, 4), t);
    }
  }

  /** The last group of a minimal varint is not zero, and only the tenth may be a sign. */
  lemma {:induction false} HighRefuses(n: nat, k: nat, acc: nat, t: seq<byte>)
    requires 5 <= k <= 9 && 0 < n < HighRoom(k)
    ensures ReadHigh32(VarintBytes(n) + t, k, acc).Bad?
    decreases 9 - k
  {
    var s := VarintBytes(n) + t;
    if n >= 0x80 {
      assert s[1..] == VarintBytes(n / 0x80) + t;
      HighRefuses(n / 0x80, k + 1, acc, t);
    }
  }

  /** 2^(63-7k) */
  function HighRoom(k: nat): nat
    requires 5 <= k <= 9
  {
    if k == 5 then 0x1000_0000 else if k == 6 then 0x20_0000 else if k == 7 then 0x4000 else if k == 8 then 0x80 else 1
  }

  /** A record whose payload cannot be decoded. */
  lemma RecordFails(fs: seq<Field>, i: nat, wireType: nat, body: seq<byte>, m: Message, seen: set<nat>)
    requires WellFormed(fs) && i < |fs| && wireType < 8 && DecodedField(fs[i], i, wireType, m, body).Bad?
    ensures DecodedRecords(fs, TagBytes(fs[i].tag, wireType) + body, m, seen).Err?
  {
    assert WellFormedField(fs[i]);
    HeaderRoundTrip(fs[i].tag, wireType, body);
    FieldIndexUnique(fs, i);
  }

  lemma LongRecordFails(fs: seq<Field>, f: Field, i: nat, v: Value, m: Message, seen: set<nat>, t: seq<byte>)
    requires WellFormed(fs) && i < |fs| && f == fs[i] && EncodedRecord(f, v).Some? && !ReadableValue(f.l, v)
    requires |EncodedRecord(f, v).value| < 0x8000_0000_0000_0000
    ensures DecodedRecords(fs, EncodedRecord(f, v).value + t, m, seen).Err?
  {
    var p := EncodedMessage(f.l.fields, v.m).value;
    LongLengthRefused(|p|, p + t);
    AppendAssoc(VarintBytes(|p|), p, t);
    AppendAssoc(TagBytes(f.tag, 2), VarintBytes(|p|) + p, t);
    assert Undelimited(VarintBytes(|p|) + p + t).Short?;
    LengthFails(f, i, m, VarintBytes(|p|) + p + t);
    RecordFails(fs, i, 2, VarintBytes(|p|) + p + t, m, seen);
  }

  lemma LengthFails(f: Field, i: nat, m: Message, s: seq<byte>)
    requires f.l.Submessage? && Undelimited(s).Short?
    ensures DecodedField(f, i, 2, m, s).Bad?
  {
    assert forall held: Value {:trigger DecodedValue(f.l, held, s)} :: DecodedValue(f.l, held, s).Bad?;
    if f.h.Required? || f.h.Optional? { assert DecodedSingle(f, i, 2, m, s).Bad?; }
  }

  /** An array with an unreadable item: the items before it are read, then it fails. */
  lemma {:induction false} LongRecordsFail(
    fs: seq<Field>, f: Field, i: nat, items: seq<Value>, m: Message, seen: set<nat>, t: seq<byte>)
    requires WellFormed(fs) && i < |fs| && f == fs[i] && f.h.Repeated? && !Packable(f.l)
    requires forall j :: 0 <= j < |items| ==> Typed(f.l, items[j])
    requires EncodedRecords(f, items).Some? && !ReadableItems(f.l, items)
    requires |EncodedRecords(f, items).value| < 0x8000_0000_0000_0000
    requires |m.slots| == |fs| && |m.unions| == Unions(fs) && m.slots[i] == Many([]) && |items| <= f.h.arraySize
    ensures DecodedRecords(fs, EncodedRecords(f, items).value + t, m, seen).Err?
    decreases |items|
  {
    var init, last := items[..|items| - 1], items[|items| - 1];
    var p, e := EncodedRecords(f, init).value, EncodedRecord(f, last).value;
    AppendAssoc(p, e, t);
    if ReadableItems(f.l, init) {
      RecordsRoundTrip(fs, f, i, init, m, seen, e + t);
      assert forall j :: 0 <= j < |init| ==> init[j] == items[j];
      LongRecordFails(fs, f, i, last, m.(slots := m.slots[i := Many(NormalItems(f.l, init))]), seen, t);
    } else {
      LongRecordsFail(fs, f, i, init, m, seen, e + t);
    }
  }

  lemma LongFieldFails(fs: seq<Field>, f: Field, i: nat, m: Message, cur: Message, seen: set<nat>, t: seq<byte>)
    requires WellFormed(fs) && i < |fs| && f == fs[i] && TypedMessage(fs, m)
    requires EncodedField(f, i, m).Some? && !ReadableField(f, i, m)
    requires |EncodedField(f, i, m).value| < 0x8000_0000_0000_0000
    requires |cur.slots| == |fs| && |cur.unions| == Unions(fs) && cur.slots[i] == DefaultSlot(f)
    ensures DecodedRecords(fs, EncodedField(f, i, m).value + t, cur, seen).Err?
  {
    assert TypedSlot(f, m.slots[i]);
    match f.h
    case Required => LongRecordFails(fs, f, i, m.slots[i].v, cur, seen, t);
    case Optional => LongRecordFails(fs, f, i, m.slots[i].v, cur, seen, t);
    case OneOf(u) => LongRecordFails(fs, f, i, m.unions[u].v, cur, seen, t);
    case Repeated(_) =>
      var items := m.slots[i].items;
      if Packable(f.l) {
        var p := PackedItems(f.l, items).value;
        LongLengthRefused(|p|, p + t);
        AppendAssoc(VarintBytes(|p|), p, t);
        AppendAssoc(TagBytes(f.tag, 2), VarintBytes(|p|) + p, t);
        RecordFails(fs, i, 2, VarintBytes(|p|) + p + t, cur, seen);
      } else {
        LongRecordsFail(fs, f, i, items, cur, seen, t);
      }
  }

  lemma {:induction false} LongUpToFails(fs: seq<Field>, m: Message, n: nat, t: seq<byte>)
    requires WellFormed(fs) && TypedMessage(fs, m) && n <= |fs|
    requires EncodedUpTo(fs, m, n).Some? && |EncodedUpTo(fs, m, n).value| < 0x8000_0000_0000_0000
    requires exists i :: 0 <= i < n && !ReadableField(fs[i], i, m)
    ensures DecodedRecords(fs, EncodedUpTo(fs, m, n).value + t, Default(fs), {}).Err?
  {
    UpToSplit(fs, m, n);
    var p, e := EncodedUpTo(fs, m, n - 1).value, EncodedField(fs[n - 1], n - 1, m).value;
    AppendAssoc(p, e, t);
    if exists i :: 0 <= i < n - 1 && !ReadableField(fs[i], i, m) {
      LongUpToFails(fs, m, n - 1, e + t);
    } else {
      FirstLongFails(fs, m, n, t);
    }
  }

  /** The fields before the first unreadable one are read, then it fails. */
  lemma {:induction false} FirstLongFails(fs: seq<Field>, m: Message, n: nat, t: seq<byte>)
    requires WellFormed(fs) && TypedMessage(fs, m) && 0 < n <= |fs|
    requires EncodedUpTo(fs, m, n - 1).Some? && EncodedField(fs[n - 1], n - 1, m).Some?
    requires |EncodedField(fs[n - 1], n - 1, m).value| < 0x8000_0000_0000_0000
    requires (forall i :: 0 <= i < n - 1 ==> ReadableField(fs[i], i, m)) && !ReadableField(fs[n - 1], n - 1, m)
    ensures var p, e := EncodedUpTo(fs, m, n - 1).value, EncodedField(fs[n - 1], n - 1, m).value;
      DecodedRecords(fs, p + (e + t), Default(fs), {}).Err?
  {
    UpToRoundTrip(fs, m, n - 1, EncodedField(fs[n - 1], n - 1, m).value + t);
    NormalUpToShape(fs, m, n - 1);
    LongFieldFails(fs, fs[n - 1], n - 1, m, NormalUpTo(fs, m, n - 1), RequiredUpTo(fs, n - 1), t);
  }

  /**
    Exactly when decoding gives the message back: when no submessage and no packed
    array directly in it takes 4 GiB.  Otherwise decoding fails.
   */
  lemma RoundTripExactly(fs: seq<Field>, m: Message)
    requires WellFormed(fs) && TypedMessage(fs, m)
    requires EncodedMessage(fs, m).Some? && |EncodedMessage(fs, m).value| < 0x8000_0000_0000_0000
    ensures DecodedMessage(fs, EncodedMessage(fs, m).value) == if Readable(fs, m) then Ok(Normal(fs, m)) else Err
  {
    if Readable(fs, m) {
      MessageRoundTrip(fs, m);
    } else {
      var p := EncodedMessage(fs, m).value;
      LongUpToFails(fs, m, |fs|, []);
      assert p + [] == p;
    }
  }
}
