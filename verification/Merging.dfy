/**
  Several records of one field.  Submessages merge: two records read as one record
  with both payloads.  Of plain values the last one counts, in a union the last
  member, and array items add up, packed or not.
 */
module Merging {
  import opened Basics
  import opened Wire
  import opened Schema
  import opened Encoder
  import opened Decoder
  import opened RoundTrip
  import opened UnknownFields

  // ---- Streams one after the other -----------------------------------------------------

  /** More fields seen make no difference to a stream that is accepted without them. */
  lemma {:induction false} SeenMore(fs: seq<Field>, s: seq<byte>, m: Message, seen: set<nat>, more: set<nat>)
    requires DecodedRecords(fs, s, m, seen).Ok? && seen <= more
    ensures DecodedRecords(fs, s, m, more) == DecodedRecords(fs, s, m, seen)
    decreases |s|
  {
    if s != [] {
      var h := ReadHeader(s);
      var a := DecodedRecord(fs, h.value, h.rest, Progress(m, seen));
      var b := DecodedRecord(fs, h.value, h.rest, Progress(m, more));
      assert b.rest == a.rest && b.value.m == a.value.m && a.value.seen <= b.value.seen;
      SeenMore(fs, a.rest, a.value.m, a.value.seen, b.value.seen);
    }
  }

  /** After an accepted stream, what follows is read over its message, with all it saw still seen. */
  lemma {:induction false} RecordsThen(
    fs: seq<Field>, records: seq<seq<byte>>, t: seq<byte>, m: Message, seen: set<nat>) returns (all: set<nat>)
    requires forall k :: 0 <= k < |records| ==> Complete(records[k])
    requires DecodedRecords(fs, Joined(records), m, seen).Ok?
    ensures seen <= all
    ensures DecodedRecords(fs, Joined(records) + t, m, seen)
      == DecodedRecords(fs, t, DecodedRecords(fs, Joined(records), m, seen).value, all)
    decreases |records|
  {
    if records == [] {
      all := seen;
      assert [] + t == t;
    } else {
      var r, rest := records[0], records[1..];
      var h := ReadHeader(r);
      var d := DecodedRecord(fs, h.value, h.rest, Progress(m, seen));
      RecordOff(fs, r, Joined(rest), m, seen);
      all := RecordsThen(fs, rest, t, d.value.m, d.value.seen);
      RecordOff(fs, r, Joined(rest) + t, m, seen);
      AppendAssoc(r, Joined(rest), t);
    }
  }

  /** Two accepted streams, the second read over what the first left, are accepted as one. */
  lemma {:induction false} StreamsJoin(fs: seq<Field>, p: seq<byte>, q: seq<byte>, m: Message)
    requires DecodedRecords(fs, p, m, {}).Ok?
    requires DecodedRecords(fs, q, DecodedRecords(fs, p, m, {}).value, {}).Ok?
    ensures DecodedRecords(fs, p + q, m, {}) == DecodedRecords(fs, q, DecodedRecords(fs, p, m, {}).value, {})
  {
    var records := AcceptedSplits(fs, p, m, {});
    var all := RecordsThen(fs, records, q, m, {});
    SeenMore(fs, q, DecodedRecords(fs, p, m, {}).value, {}, all);
  }

  // ---- Records with a length -----------------------------------------------------------------

  /** The record that gives payload p to the field with the given tag. */
  function LengthRecord(tag: nat, p: seq<byte>): seq<byte> {
    TagBytes(tag, 2) + (VarintBytes(|p|) + p)
  }

  lemma LengthRecordComplete(tag: nat, p: seq<byte>)
    requires 0 < tag < 0x2000_0000 && |p| < 0x1_0000_0000
    ensures ReadHeader(LengthRecord(tag, p)) == Got(Header(tag, 2), VarintBytes(|p|) + p)
    ensures Undelimited(VarintBytes(|p|) + p) == Split(p, [])
    ensures Complete(LengthRecord(tag, p)) && TagOf(LengthRecord(tag, p)) == tag
  {
    HeaderRoundTrip(tag, 2, VarintBytes(|p|) + p);
    DelimitedRoundTrip(p, []);
    assert VarintBytes(|p|) + p + [] == VarintBytes(|p|) + p;
  }

  /** Fields a member is read over, in case it is read again. */
  predicate Single(f: Field) {
    f.h.Required? || f.h.Optional?
  }

  function SeenWith(f: Field, i: nat, seen: set<nat>): set<nat> {
    if f.h.Required? then seen + {i} else seen
  }

  /** A record of a submessage is its payload, read over what the member holds. */
  lemma {:induction false} SubmessageRecord(
    fs: seq<Field>, i: nat, p: seq<byte>, t: seq<byte>, m: Message, seen: set<nat>)
    requires WellFormed(fs) && i < |fs| && Single(fs[i]) && fs[i].l.Submessage? && |p| < 0x1_0000_0000
    requires i < |m.slots| && m.slots[i].One? && m.slots[i].v.Msg?
    ensures var sub := DecodedRecords(fs[i].l.fields, p, m.slots[i].v.m, {});
      DecodedRecords(fs, LengthRecord(fs[i].tag, p) + t, m, seen)
        == if sub.Err? then Err
           else DecodedRecords(
             fs, t, m.(slots := m.slots[i := One(true, Msg(sub.value))]), SeenWith(fs[i], i, seen))
  {
    var f := fs[i];
    assert WellFormedField(f);
    LengthRecordComplete(f.tag, p);
    var e := VarintBytes(|p|) + p;
    var sub := DecodedRecords(f.l.fields, p, m.slots[i].v.m, {});
    assert DecodedValue(f.l, m.slots[i].v, e) == if sub.Err? then Bad else Got(Msg(sub.value), []);
    assert DecodedField(f, i, 2, m, e) == DecodedSingle(f, i, 2, m, e);
    TakenRecord(fs, i, LengthRecord(f.tag, p), t, m, seen);
  }

  /**
    Merging: where both records of a submessage are accepted, they read as the one
    record that has both payloads, whatever follows.  The second one on its own must
    have the required members; if it has not, the stream is refused.
   */
  lemma {:induction false} SubmessagesMerge(
    fs: seq<Field>, i: nat, p: seq<byte>, q: seq<byte>, t: seq<byte>, m: Message, seen: set<nat>)
    requires WellFormed(fs) && i < |fs| && Single(fs[i]) && fs[i].l.Submessage? && |p| + |q| < 0x1_0000_0000
    requires i < |m.slots| && m.slots[i].One? && m.slots[i].v.Msg?
    requires DecodedRecords(fs[i].l.fields, p, m.slots[i].v.m, {}).Ok?
    ensures var tag, sub := fs[i].tag, DecodedRecords(fs[i].l.fields, p, m.slots[i].v.m, {}).value;
      DecodedRecords(fs, LengthRecord(tag, p) + (LengthRecord(tag, q) + t), m, seen)
        == if DecodedRecords(fs[i].l.fields, q, sub, {}).Err? then Err
           else DecodedRecords(fs, LengthRecord(tag, p + q) + t, m, seen)
  {
    var f := fs[i];
    var sub := DecodedRecords(f.l.fields, p, m.slots[i].v.m, {}).value;
    var m1 := m.(slots := m.slots[i := One(true, Msg(sub))]);
    SubmessageRecord(fs, i, p, LengthRecord(f.tag, q) + t, m, seen);
    SubmessageRecord(fs, i, q, t, m1, SeenWith(f, i, seen));
    var both := DecodedRecords(f.l.fields, q, sub, {});
    if both.Ok? {
      StreamsJoin(f.l.fields, p, q, m.slots[i].v.m);
      SubmessageRecord(fs, i, p + q, t, m, seen);
      WrittenTwice(m.slots, i, One(true, Msg(sub)), One(true, Msg(both.value)));
      assert SeenWith(f, i, SeenWith(f, i, seen)) == SeenWith(f, i, seen);
    }
  }

  // ---- The last one counts -----------------------------------------------------------------------

  /** r is a record of field i that is accepted over m. */
  predicate Takes(fs: seq<Field>, i: nat, r: seq<byte>, m: Message)
    requires i < |fs|
  {
    && Complete(r) && TagOf(r) == fs[i].tag
    && DecodedField(fs[i], i, ReadHeader(r).value.wireType, m, ReadHeader(r).rest).Got?
  }

  lemma TakenRecord(fs: seq<Field>, i: nat, r: seq<byte>, t: seq<byte>, m: Message, seen: set<nat>)
    requires WellFormed(fs) && i < |fs| && Complete(r) && TagOf(r) == fs[i].tag
    ensures var d := DecodedField(fs[i], i, ReadHeader(r).value.wireType, m, ReadHeader(r).rest);
      DecodedRecords(fs, r + t, m, seen)
        == if d.Bad? then Err else DecodedRecords(fs, t, d.value, SeenWith(fs[i], i, seen))
  {
    FieldIndexUnique(fs, i);
    RecordOff(fs, r, t, m, seen);
  }

  /** Of two records of a number, string or byte string, the second alone decides. */
  lemma {:induction false} LastValueCounts(
    fs: seq<Field>, i: nat, r1: seq<byte>, r2: seq<byte>, t: seq<byte>, m: Message, seen: set<nat>)
    requires WellFormed(fs) && i < |fs| && Single(fs[i]) && !fs[i].l.Submessage?
    requires Takes(fs, i, r1, m) && Complete(r2) && TagOf(r2) == fs[i].tag
    ensures DecodedRecords(fs, r1 + (r2 + t), m, seen) == DecodedRecords(fs, r2 + t, m, seen)
  {
    var f, h1, h2 := fs[i], ReadHeader(r1), ReadHeader(r2);
    var m1 := DecodedField(f, i, h1.value.wireType, m, h1.rest).value;
    TakenRecord(fs, i, r1, r2 + t, m, seen);
    TakenRecord(fs, i, r2, t, m1, SeenWith(f, i, seen));
    TakenRecord(fs, i, r2, t, m, seen);
    ValueOverwritten(f, i, h1.value.wireType, h1.rest, h2.value.wireType, h2.rest, m);
    assert SeenWith(f, i, SeenWith(f, i, seen)) == SeenWith(f, i, seen);
  }

  lemma {:induction false} ValueOverwritten(
    f: Field, i: nat, w1: nat, s1: seq<byte>, w2: nat, s2: seq<byte>, m: Message)
    requires Single(f) && !f.l.Submessage? && DecodedField(f, i, w1, m, s1).Got?
    ensures DecodedField(f, i, w2, DecodedField(f, i, w1, m, s1).value, s2) == DecodedField(f, i, w2, m, s2)
  {
    var d1, d2 := DecodedSingle(f, i, w1, m, s1), DecodedSingle(f, i, w2, m, s2);
    assert DecodedField(f, i, w1, m, s1) == d1 && DecodedField(f, i, w2, m, s2) == d2;
    assert DecodedField(f, i, w2, d1.value, s2) == DecodedSingle(f, i, w2, d1.value, s2);
    HeldIrrelevant(f.l, m.slots[i].v, d1.value.slots[i].v, s2);
    if d2.Got? { WrittenTwice(m.slots, i, d1.value.slots[i], d2.value.slots[i]); }
  }

  lemma HeldIrrelevant(l: LType, a: Value, b: Value, s: seq<byte>)
    requires !l.Submessage?
    ensures DecodedValue(l, a, s) == DecodedValue(l, b, s)
  {
  }

  lemma WrittenTwice<T>(s: seq<T>, i: nat, a: T, b: T)
    requires i < |s|
    ensures s[i := a][i := b] == s[i := b]
  {
  }

  /**
    Of two records of members of one union, the same or not, the second alone decides: a
    submessage starts afresh with every record.
   */
  lemma {:induction false} LastMemberCounts(
    fs: seq<Field>, i: nat, j: nat, r1: seq<byte>, r2: seq<byte>, t: seq<byte>, m: Message, seen: set<nat>)
    requires WellFormed(fs) && i < |fs| && j < |fs| && fs[i].h.OneOf? && fs[j].h == fs[i].h && j < |m.slots|
    requires Takes(fs, i, r1, m) && Complete(r2) && TagOf(r2) == fs[j].tag
    ensures DecodedRecords(fs, r1 + (r2 + t), m, seen) == DecodedRecords(fs, r2 + t, m, seen)
  {
    var h1 := ReadHeader(r1);
    var m1 := DecodedField(fs[i], i, h1.value.wireType, m, h1.rest).value;
    TakenRecord(fs, i, r1, r2 + t, m, seen);
    TakenRecord(fs, j, r2, t, m1, seen);
    TakenRecord(fs, j, r2, t, m, seen);
    var u := fs[i].h.union;
    var d := DecodedField(fs[j], j, ReadHeader(r2).value.wireType, m, ReadHeader(r2).rest);
    if d.Got? { WrittenTwice(m.unions, u, m1.unions[u], d.value.unions[u]); }
  }

  // ---- Items add up --------------------------------------------------------------------------------

  /** What can be read as items in one go can be read in two. */
  lemma {:induction false} ItemsSplit(l: LType, a: seq<byte>, b: seq<byte>, items: seq<Value>, size: nat)
    requires Packable(l) && DecodedPacked(l, a, items, size).Ok?
    ensures DecodedPacked(l, a + b, items, size) == DecodedPacked(l, b, DecodedPacked(l, a, items, size).value, size)
    decreases |a|
  {
    if a == [] {
      assert a + b == b;
    } else {
      var r := DecodedNum(l, a);
      FrontReads(l, a, b);
      ItemsSplit(l, r.rest, b, items + [Num(r.value)], size);
    }
  }

  /** A number that can be read is read alike whatever comes behind. */
  lemma {:induction false} FrontReads(l: LType, a: seq<byte>, b: seq<byte>)
    requires Packable(l) && DecodedNum(l, a).Got?
    ensures DecodedNum(l, a + b) == Got(DecodedNum(l, a).value, DecodedNum(l, a).rest + b)
  {
    NumSkips(l, a);
    var p := PayloadFront(WireType(l), a);
    var rest := DecodedNum(l, a).rest;
    assert a == p + rest;
    NumWhole(l, p, rest);
    NumWhole(l, p, rest + b);
    AppendAssoc(p, rest, b);
  }

  /** A packed record is its items, behind those the array has. */
  lemma {:induction false} PackedRecord(
    fs: seq<Field>, i: nat, p: seq<byte>, t: seq<byte>, m: Message, seen: set<nat>)
    requires WellFormed(fs) && i < |fs| && fs[i].h.Repeated? && Packable(fs[i].l) && |p| < 0x1_0000_0000
    requires i < |m.slots| && m.slots[i].Many?
    ensures var items := DecodedPacked(fs[i].l, p, m.slots[i].items, fs[i].h.arraySize);
      DecodedRecords(fs, LengthRecord(fs[i].tag, p) + t, m, seen)
        == if items.Err? then Err
           else DecodedRecords(fs, t, m.(slots := m.slots[i := Many(items.value)]), seen)
  {
    var f := fs[i];
    assert WellFormedField(f);
    LengthRecordComplete(f.tag, p);
    TakenRecord(fs, i, LengthRecord(f.tag, p), t, m, seen);
  }

  /** Two packed records are one with both payloads. */
  lemma {:induction false} PackedRecordsJoin(
    fs: seq<Field>, i: nat, p: seq<byte>, q: seq<byte>, t: seq<byte>, m: Message, seen: set<nat>)
    requires WellFormed(fs) && i < |fs| && fs[i].h.Repeated? && Packable(fs[i].l) && |p| + |q| < 0x1_0000_0000
    requires i < |m.slots| && m.slots[i].Many?
    requires DecodedPacked(fs[i].l, p, m.slots[i].items, fs[i].h.arraySize).Ok?
    ensures var tag := fs[i].tag;
      DecodedRecords(fs, LengthRecord(tag, p) + (LengthRecord(tag, q) + t), m, seen)
        == DecodedRecords(fs, LengthRecord(tag, p + q) + t, m, seen)
  {
    var f := fs[i];
    var items := DecodedPacked(f.l, p, m.slots[i].items, f.h.arraySize).value;
    var m1 := m.(slots := m.slots[i := Many(items)]);
    PackedRecord(fs, i, p, LengthRecord(f.tag, q) + t, m, seen);
    PackedRecord(fs, i, q, t, m1, seen);
    ItemsSplit(f.l, p, q, m.slots[i].items, f.h.arraySize);
    PackedRecord(fs, i, p + q, t, m, seen);
    var all := DecodedPacked(f.l, p + q, m.slots[i].items, f.h.arraySize);
    if all.Ok? { WrittenTwice(m.slots, i, Many(items), Many(all.value)); }
  }

  /** A record of a single item is the packed record of that item. */
  lemma {:induction false} UnpackedIsPacked(
    fs: seq<Field>, i: nat, e: seq<byte>, t: seq<byte>, m: Message, seen: set<nat>)
    requires WellFormed(fs) && i < |fs| && fs[i].h.Repeated? && Packable(fs[i].l) && |e| < 0x1_0000_0000
    requires i < |m.slots| && m.slots[i].Many? && DecodedNum(fs[i].l, e).Got? && DecodedNum(fs[i].l, e).rest == []
    ensures DecodedRecords(fs, TagBytes(fs[i].tag, WireType(fs[i].l)) + e + t, m, seen)
      == DecodedRecords(fs, LengthRecord(fs[i].tag, e) + t, m, seen)
  {
    var f, items := fs[i], m.slots[i].items;
    assert WellFormedField(f);
    HeaderRoundTrip(f.tag, WireType(f.l), e);
    NumSkips(f.l, e);
    assert Skipped(WireType(f.l), e).value == ();
    assert Complete(TagBytes(f.tag, WireType(f.l)) + e);
    TakenRecord(fs, i, TagBytes(f.tag, WireType(f.l)) + e, t, m, seen);
    PackedRecord(fs, i, e, t, m, seen);
    assert e != [];
    assert DecodedPacked(f.l, [], items + [Num(DecodedNum(f.l, e).value)], f.h.arraySize)
      == Ok(items + [Num(DecodedNum(f.l, e).value)]);
  }
}
