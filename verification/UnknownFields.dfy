/**
  Records the message type does not know.  They can be left out of a stream, any
  of them and wherever they stand between records, without changing what is decoded.
 */
module UnknownFields {
  import opened Basics
  import opened Wire
  import opened Schema
  import opened Decoder

  /** `r` reads the same with t behind it. */
  function Extended<T>(r: Read<T>, t: seq<byte>): Read<T> {
    if r.Bad? then Bad else Got(r.value, r.rest + t)
  }

  // ---- Readers look at nothing behind what they consume -------------------------------

  lemma {:induction false} SkippedVarintLocal(p: seq<byte>, t: seq<byte>)
    requires SkippedVarint(p).Got?
    ensures SkippedVarint(p + t) == Extended(SkippedVarint(p), t)
  {
    assert (p + t)[1..] == p[1..] + t;
    if p[0] >= 0x80 {
      SkippedVarintLocal(p[1..], t);
    }
  }

  lemma {:induction false} GroupsLocal(p: seq<byte>, n: nat, t: seq<byte>)
    requires SkippedVarint(p).Got?
    ensures ReadGroups(p + t, n) == Extended(ReadGroups(p, n), t)
    ensures ReadGroups(p, n).Got? ==> ReadGroups(p, n).rest == SkippedVarint(p).rest
    decreases |p|
  {
    assert (p + t)[1..] == p[1..] + t;
    if p[0] >= 0x80 && n > 0 {
      GroupsLocal(p[1..], n - 1, t);
    }
  }

  lemma {:induction false} High32Local(p: seq<byte>, k: nat, acc: nat, t: seq<byte>)
    requires SkippedVarint(p).Got?
    ensures ReadHigh32(p + t, k, acc) == Extended(ReadHigh32(p, k, acc), t)
    ensures ReadHigh32(p, k, acc).Got? ==> ReadHigh32(p, k, acc).rest == SkippedVarint(p).rest
    decreases |p|
  {
    assert (p + t)[1..] == p[1..] + t;
    if p[0] >= 0x80 {
      High32Local(p[1..], k + 1, acc, t);
    }
  }

  lemma {:induction false} Low32Local(p: seq<byte>, k: nat, acc: nat, t: seq<byte>)
    requires SkippedVarint(p).Got? && k <= 4
    ensures ReadLow32(p + t, k, acc) == Extended(ReadLow32(p, k, acc), t)
    ensures ReadLow32(p, k, acc).Got? ==> ReadLow32(p, k, acc).rest == SkippedVarint(p).rest
    decreases |p|
  {
    assert (p + t)[1..] == p[1..] + t;
    var g := p[0] as nat % 0x80;
    if p[0] >= 0x80 && k < 4 {
      Low32Local(p[1..], k + 1, Or32(acc, g, k), t);
    } else if p[0] >= 0x80 {
      High32Local(p[1..], 5, Or32(acc, g, k), t);
    }
  }

  lemma {:induction false} FixedLocal(p: seq<byte>, n: nat, t: seq<byte>)
    requires |p| == n
    ensures ReadFixed(p + t, n) == Extended(ReadFixed(p, n), t)
    ensures ReadFixed(p, n).Got? && ReadFixed(p, n).rest == []
    decreases |p|
  {
    if n > 0 {
      assert (p + t)[1..] == p[1..] + t;
      FixedLocal(p[1..], n - 1, t);
    } else {
      assert p + t == t;
    }
  }

  /** What the 32-bit reader accepts ends where a varint ends. */
  lemma {:induction false} High32Ends(p: seq<byte>, k: nat, acc: nat)
    requires ReadHigh32(p, k, acc).Got?
    ensures SkippedVarint(p).Got?
    decreases |p|
  {
    if p[0] >= 0x80 {
      High32Ends(p[1..], k + 1, acc);
    }
  }

  lemma {:induction false} Low32Ends(p: seq<byte>, k: nat, acc: nat)
    requires k <= 4 && ReadLow32(p, k, acc).Got?
    ensures SkippedVarint(p).Got?
    decreases |p|
  {
    var g := p[0] as nat % 0x80;
    if p[0] >= 0x80 && k < 4 {
      Low32Ends(p[1..], k + 1, Or32(acc, g, k));
    } else if p[0] >= 0x80 {
      High32Ends(p[1..], 5, Or32(acc, g, k));
    }
  }

  lemma Varint32Local(p: seq<byte>, t: seq<byte>)
    requires ReadVarint32(p).Got?
    ensures ReadVarint32(p + t) == Extended(ReadVarint32(p), t)
  {
    Low32Ends(p, 0, 0);
    Low32Local(p, 0, 0, t);
  }

  lemma UndelimitedLocal(p: seq<byte>, t: seq<byte>)
    requires Undelimited(p).Split?
    ensures Undelimited(p + t) == Split(Undelimited(p).front, Undelimited(p).rest + t)
  {
    Varint32Local(p, t);
    var r := ReadVarint32(p);
    assert (r.rest + t)[..r.value] == r.rest[..r.value];
    assert (r.rest + t)[r.value..] == r.rest[r.value..] + t;
  }

  // ---- A record reads the same whatever follows it ----------------------------------

  /** p is exactly the payload of a record of the given wire type. */
  predicate Payload(wireType: nat, p: seq<byte>) {
    Skipped(wireType, p) == Got((), [])
  }

  lemma SkippedLocal(wireType: nat, p: seq<byte>, t: seq<byte>)
    requires Payload(wireType, p)
    ensures Skipped(wireType, p + t) == Got((), t)
  {
    assert [] + t == t;
    if wireType == 0 {
      SkippedVarintLocal(p, t);
    } else if wireType == 2 {
      UndelimitedLocal(p, t);
    } else {
      assert (p + t)[|p|..] == t;
    }
  }

  /** `with` is what `alone` becomes with t behind the input; if it is no error, it consumes all but t. */
  predicate Whole<T(==)>(alone: Read<T>, with: Read<T>, t: seq<byte>) {
    if alone.Bad? then with.Bad? else alone.rest == [] && with == Got(alone.value, t)
  }

  lemma NumWhole(l: LType, p: seq<byte>, t: seq<byte>)
    requires Packable(l) && Payload(WireType(l), p)
    ensures Whole(DecodedNum(l, p), DecodedNum(l, p + t), t)
  {
    assert [] + t == t;
    match l
    case Bool => Low32Local(p, 0, 0, t);
    case Fixed32 => FixedLocal(p, 4, t);
    case Fixed64 => FixedLocal(p, 8, t);
    case Varint(_) => GroupsLocal(p, 10, t);
    case UVarint(_) => GroupsLocal(p, 10, t);
    case SVarint(_) => GroupsLocal(p, 10, t);
  }

  lemma ValueWhole(l: LType, held: Value, p: seq<byte>, t: seq<byte>)
    requires Payload(WireType(l), p)
    ensures Whole(DecodedValue(l, held, p), DecodedValue(l, held, p + t), t)
  {
    if Packable(l) {
      NumWhole(l, p, t);
    } else {
      UndelimitedLocal(p, t);
      assert [] + t == t;
    }
  }

  lemma FieldWhole(f: Field, i: nat, wireType: nat, m: Message, p: seq<byte>, t: seq<byte>)
    requires Payload(wireType, p)
    ensures Whole(DecodedField(f, i, wireType, m, p), DecodedField(f, i, wireType, m, p + t), t)
  {
    if f.h.Repeated? && wireType == 2 && Packable(f.l) {
      UndelimitedLocal(p, t);
      assert [] + t == t;
    } else if wireType == WireType(f.l) && i < |m.slots| {
      match f.h
      case Repeated(_) => ValueWhole(f.l, DefaultValue(f.l), p, t);
      case OneOf(_) => ValueWhole(f.l, DefaultValue(f.l), p, t);
      case _ =>
        SingleWhole(f, i, m, p, t);
    }
  }

  lemma SingleWhole(f: Field, i: nat, m: Message, p: seq<byte>, t: seq<byte>)
    requires Payload(WireType(f.l), p)
    ensures Whole(DecodedSingle(f, i, WireType(f.l), m, p), DecodedSingle(f, i, WireType(f.l), m, p + t), t)
  {
    if i < |m.slots| && m.slots[i].One? {
      ValueWhole(f.l, m.slots[i].v, p, t);
    }
  }

  lemma RecordWhole(fs: seq<Field>, h: Header, p: seq<byte>, g: Progress, t: seq<byte>)
    requires Payload(h.wireType, p)
    ensures Whole(DecodedRecord(fs, h, p, g), DecodedRecord(fs, h, p + t, g), t)
  {
    var i := FieldIndex(fs, h.tag);
    if i == |fs| {
      SkippedLocal(h.wireType, p, t);
    } else {
      FieldWhole(fs[i], i, h.wireType, g.m, p, t);
    }
  }

  // ---- Streams of records ---------------------------------------------------------------

  /** A tag and exactly its payload. */
  predicate Complete(r: seq<byte>) {
    ReadHeader(r).Got? && Payload(ReadHeader(r).value.wireType, ReadHeader(r).rest)
  }

  function TagOf(r: seq<byte>): nat
    requires Complete(r)
  {
    ReadHeader(r).value.tag
  }

  predicate Known(fs: seq<Field>, tag: nat) {
    exists i :: 0 <= i < |fs| && fs[i].tag == tag
  }

  /** One record off the front of a stream. */
  lemma RecordOff(fs: seq<Field>, r: seq<byte>, t: seq<byte>, m: Message, seen: set<nat>)
    requires Complete(r)
    ensures var h := ReadHeader(r);
      var d := DecodedRecord(fs, h.value, h.rest, Progress(m, seen));
      DecodedRecords(fs, r + t, m, seen)
        == if d.Bad? then Err else DecodedRecords(fs, t, d.value.m, d.value.seen)
  {
    var h := ReadHeader(r);
    Varint32Local(r, t);
    Varint32Consumes(r);
    RecordWhole(fs, h.value, h.rest, Progress(m, seen), t);
    assert ReadHeader(r + t) == Got(h.value, h.rest + t);
  }

  /** The records that are kept, one after the other. */
  function Kept(records: seq<seq<byte>>, dropped: seq<bool>): seq<byte>
    requires |dropped| == |records|
  {
    if records == [] then []
    else (if dropped[0] then [] else records[0]) + Kept(records[1..], dropped[1..])
  }

  /** The whole stream. */
  function Joined(records: seq<seq<byte>>): seq<byte> {
    if records == [] then [] else records[0] + Joined(records[1..])
  }

  /** Dropping unknown records changes nothing, from any state of the decoder and whatever follows. */
  lemma {:induction false} DroppingFrom(
    fs: seq<Field>, records: seq<seq<byte>>, dropped: seq<bool>, tail: seq<byte>, m: Message, seen: set<nat>)
    requires |dropped| == |records|
    requires forall i :: 0 <= i < |records| ==> Complete(records[i])
    requires forall i :: 0 <= i < |records| && dropped[i] ==> !Known(fs, TagOf(records[i]))
    ensures DecodedRecords(fs, Kept(records, dropped) + tail, m, seen)
         == DecodedRecords(fs, Joined(records) + tail, m, seen)
    decreases |records|
  {
    if records != [] {
      var r, rest, rdrop := records[0], records[1..], dropped[1..];
      var a, b := Kept(rest, rdrop), Joined(rest);
      StreamSplit(r, a, b, tail);
      RecordOff(fs, r, b + tail, m, seen);
      if dropped[0] {
        UnknownSkipped(fs, r, m, seen);
        DroppingFrom(fs, rest, rdrop, tail, m, seen);
      } else {
        RecordOff(fs, r, a + tail, m, seen);
        var h := ReadHeader(r);
        var d := DecodedRecord(fs, h.value, h.rest, Progress(m, seen));
        if d.Got? {
          DroppingFrom(fs, rest, rdrop, tail, d.value.m, d.value.seen);
        }
      }
    }
  }

  lemma StreamSplit(r: seq<byte>, a: seq<byte>, b: seq<byte>, tail: seq<byte>)
    ensures (r + b) + tail == r + (b + tail)
    ensures (r + a) + tail == r + (a + tail)
    ensures ([] + a) + tail == a + tail
  {
    assert [] + a == a;
  }

  lemma UnknownSkipped(fs: seq<Field>, r: seq<byte>, m: Message, seen: set<nat>)
    requires Complete(r) && !Known(fs, TagOf(r))
    ensures DecodedRecord(fs, ReadHeader(r).value, ReadHeader(r).rest, Progress(m, seen)) == Got(Progress(m, seen), [])
  {
    assert FieldIndex(fs, TagOf(r)) == |fs|;
  }

  // ---- Every accepted stream is a sequence of complete records ------------------------

  /** What is left after skipping is the end of the input. */
  lemma {:induction false} SkippedVarintRest(s: seq<byte>)
    requires SkippedVarint(s).Got?
    ensures Consumed(s, SkippedVarint(s).rest, 1)
    ensures SkippedVarint(s[..|s| - |SkippedVarint(s).rest|]) == Got((), [])
  {
    if s[0] >= 0x80 {
      SkippedVarintRest(s[1..]);
      var n := |s| - |SkippedVarint(s).rest|;
      assert s[..n][1..] == s[1..][..n - 1];
    }
  }

  lemma {:induction false} GroupsEnd(p: seq<byte>, n: nat)
    requires ReadGroups(p, n).Got?
    ensures SkippedVarint(p).Got?
    decreases |p|
  {
    if p[0] >= 0x80 {
      GroupsEnd(p[1..], n - 1);
    }
  }

  /** The front of s up to the end of its first varint reads as s does. */
  lemma Varint32Front(s: seq<byte>) returns (q: seq<byte>)
    requires ReadVarint32(s).Got?
    ensures s == q + ReadVarint32(s).rest && q != []
    ensures ReadVarint32(q) == Got(ReadVarint32(s).value, [])
  {
    Low32Ends(s, 0, 0);
    SkippedVarintRest(s);
    var rest := SkippedVarint(s).rest;
    q := s[..|s| - |rest|];
    assert s == q + rest;
    Low32Local(q, 0, 0, rest);
    assert [] + rest == rest;
  }

  lemma UndelimitedFront(s: seq<byte>) returns (p: seq<byte>)
    requires Undelimited(s).Split?
    ensures s == p + Undelimited(s).rest && Undelimited(p) == Split(Undelimited(s).front, [])
  {
    var d := Undelimited(s);
    var q := Varint32Front(s);
    p := q + d.front;
    Varint32Local(q, d.front);
    assert [] + d.front == d.front && d.front[..|d.front|] == d.front && d.front[|d.front|..] == [];
    assert ReadVarint32(s).rest == d.front + d.rest;
  }

  lemma PayloadFront(wireType: nat, s: seq<byte>) returns (p: seq<byte>)
    requires Skipped(wireType, s).Got?
    ensures s == p + Skipped(wireType, s).rest && Payload(wireType, p)
  {
    if wireType == 2 {
      p := UndelimitedFront(s);
    } else {
      if wireType == 0 { SkippedVarintRest(s); }
      p := s[..|s| - |Skipped(wireType, s).rest|];
    }
  }

  lemma NumSkips(l: LType, s: seq<byte>)
    requires Packable(l) && DecodedNum(l, s).Got?
    ensures Skipped(WireType(l), s).Got? && Skipped(WireType(l), s).rest == DecodedNum(l, s).rest
  {
    match l
    case Bool => Low32Ends(s, 0, 0); Low32Local(s, 0, 0, []);
    case Fixed32 => FixedSkips(s, 4);
    case Fixed64 => FixedSkips(s, 8);
    case Varint(_) => GroupsEnd(s, 10); GroupsLocal(s, 10, []);
    case UVarint(_) => GroupsEnd(s, 10); GroupsLocal(s, 10, []);
    case SVarint(_) => GroupsEnd(s, 10); GroupsLocal(s, 10, []);
  }

  lemma {:induction false} FixedSkips(s: seq<byte>, n: nat)
    requires ReadFixed(s, n).Got?
    ensures |s| >= n && ReadFixed(s, n).rest == s[n..]
    decreases |s|
  {
    if n > 0 {
      FixedSkips(s[1..], n - 1);
    }
  }

  lemma ValueSkips(l: LType, held: Value, s: seq<byte>)
    requires DecodedValue(l, held, s).Got?
    ensures Skipped(WireType(l), s).Got? && Skipped(WireType(l), s).rest == DecodedValue(l, held, s).rest
  {
    if Packable(l) {
      NumSkips(l, s);
    }
  }

  /** Decoding a known field consumes exactly what skipping it would. */
  lemma FieldSkips(f: Field, i: nat, wireType: nat, m: Message, s: seq<byte>)
    requires DecodedField(f, i, wireType, m, s).Got?
    ensures Skipped(wireType, s).Got? && Skipped(wireType, s).rest == DecodedField(f, i, wireType, m, s).rest
  {
    match f.h
    case Repeated(_) =>
      if !(wireType == 2 && Packable(f.l)) { ValueSkips(f.l, DefaultValue(f.l), s); }
    case OneOf(_) => ValueSkips(f.l, DefaultValue(f.l), s);
    case Required =>
      assert DecodedSingle(f, i, wireType, m, s).Got?;
      ValueSkips(f.l, m.slots[i].v, s);
    case Optional =>
      assert DecodedSingle(f, i, wireType, m, s).Got?;
      ValueSkips(f.l, m.slots[i].v, s);
  }

  /** Every accepted stream splits into complete records. */
  lemma {:induction false} AcceptedSplits(
    fs: seq<Field>, s: seq<byte>, m: Message, seen: set<nat>)
    returns (records: seq<seq<byte>>)
    requires DecodedRecords(fs, s, m, seen).Ok?
    ensures Joined(records) == s
    ensures forall i :: 0 <= i < |records| ==> Complete(records[i])
    decreases |s|
  {
    if s == [] {
      records := [];
    } else {
      var h := ReadHeader(s);
      var d := DecodedRecord(fs, h.value, h.rest, Progress(m, seen));
      RecordSkips(fs, h.value, h.rest, Progress(m, seen));
      var r := RecordFront(s);
      var more := AcceptedSplits(fs, d.rest, d.value.m, d.value.seen);
      records := [r] + more;
      assert records[1..] == more;
    }
  }

  lemma RecordSkips(fs: seq<Field>, h: Header, s: seq<byte>, g: Progress)
    requires DecodedRecord(fs, h, s, g).Got?
    ensures Skipped(h.wireType, s).Got? && Skipped(h.wireType, s).rest == DecodedRecord(fs, h, s, g).rest
  {
    var i := FieldIndex(fs, h.tag);
    if i < |fs| {
      FieldSkips(fs[i], i, h.wireType, g.m, s);
    }
  }

  lemma RecordFront(s: seq<byte>) returns (r: seq<byte>)
    requires ReadHeader(s).Got? && Skipped(ReadHeader(s).value.wireType, ReadHeader(s).rest).Got?
    ensures s == r + Skipped(ReadHeader(s).value.wireType, ReadHeader(s).rest).rest && Complete(r)
  {
    var h := ReadHeader(s);
    var q := Varint32Front(s);
    var p := PayloadFront(h.value.wireType, h.rest);
    r := q + p;
    Varint32Local(q, p);
    assert [] + p == p;
    assert ReadHeader(r) == Got(h.value, p);
  }

  /**
    Deleting any set of complete records whose tags the type does not have leaves
    the result of decoding unchanged, also when it is an error.
   */
  lemma UnknownRecordsIrrelevant(fs: seq<Field>, records: seq<seq<byte>>, dropped: seq<bool>, tail: seq<byte>)
    requires |dropped| == |records|
    requires forall i :: 0 <= i < |records| ==> Complete(records[i])
    requires forall i :: 0 <= i < |records| && dropped[i] ==> !Known(fs, TagOf(records[i]))
    ensures DecodedMessage(fs, Kept(records, dropped) + tail) == DecodedMessage(fs, Joined(records) + tail)
  {
    DroppingFrom(fs, records, dropped, tail, Default(fs), {});
  }
}
