/**
  What the check for required fields achieves.  Only the first 64 of a message type
  are tracked: up to that number an accepted stream has a record for each of them,
  and any further one can be left out of any accepted stream.
 */
module RequiredFields {
  import opened Wire
  import opened Schema
  import opened Decoder
  import opened UnknownFields

  predicate Tracked(fs: seq<Field>, i: nat) {
    i < |fs| && fs[i].h.Required? && RequiredBefore(fs, i) < 64
  }

  predicate HasRecord(records: seq<seq<byte>>, tag: nat) {
    exists k :: 0 <= k < |records| && Complete(records[k]) && TagOf(records[k]) == tag
  }

  lemma LaterRecord(records: seq<seq<byte>>, tag: nat)
    requires records != [] && HasRecord(records[1..], tag)
    ensures HasRecord(records, tag)
  {
    var k :| 0 <= k < |records| - 1 && Complete(records[1..][k]) && TagOf(records[1..][k]) == tag;
    assert records[k + 1] == records[1..][k];
  }

  /** A tracked field is seen only by way of a record with its tag. */
  lemma {:induction false} TrackedHasRecord(
    fs: seq<Field>, records: seq<seq<byte>>, m: Message, seen: set<nat>, i: nat)
    requires forall k :: 0 <= k < |records| ==> Complete(records[k])
    requires DecodedRecords(fs, Joined(records), m, seen).Ok? && Tracked(fs, i)
    ensures i in seen || HasRecord(records, fs[i].tag)
    decreases |records|
  {
    if records != [] {
      var r, rest := records[0], records[1..];
      RecordOff(fs, r, Joined(rest), m, seen);
      var h := ReadHeader(r);
      var d := DecodedRecord(fs, h.value, h.rest, Progress(m, seen));
      TrackedHasRecord(fs, rest, d.value.m, d.value.seen, i);
      if HasRecord(rest, fs[i].tag) {
        LaterRecord(records, fs[i].tag);
      } else if i !in seen {
        assert FieldIndex(fs, h.value.tag) == i;
        assert TagOf(records[0]) == fs[i].tag;
      }
    }
  }

  /**
    However an accepted stream is split into records, each required field among the
    first 64 has one; with at most 64 of them, all do.
   */
  lemma AcceptedHasRequired(fs: seq<Field>, records: seq<seq<byte>>, i: nat)
    requires forall k :: 0 <= k < |records| ==> Complete(records[k])
    requires DecodedMessage(fs, Joined(records)).Ok? && i < |fs| && fs[i].h.Required?
    requires RequiredBefore(fs, |fs|) <= 64 || RequiredBefore(fs, i) < 64
    ensures HasRecord(records, fs[i].tag)
  {
    RequiredBeforeMonotone(fs, i, |fs|);
    TrackedHasRecord(fs, records, Default(fs), {}, i);
  }

  /** The same without a splitting in hand. */
  lemma AcceptedStreamHasRequired(fs: seq<Field>, s: seq<byte>) returns (records: seq<seq<byte>>)
    requires DecodedMessage(fs, s).Ok? && RequiredBefore(fs, |fs|) <= 64
    ensures Joined(records) == s && forall k :: 0 <= k < |records| ==> Complete(records[k])
    ensures forall i :: 0 <= i < |fs| && fs[i].h.Required? ==> HasRecord(records, fs[i].tag)
  {
    records := AcceptedSplits(fs, s, Default(fs), {});
    forall i | 0 <= i < |fs| && fs[i].h.Required? ensures HasRecord(records, fs[i].tag) {
      AcceptedHasRequired(fs, records, i);
    }
  }

  // ---- Records of fields that are not tracked -------------------------------------------

  /** The records without those that carry the given tag. */
  function Without(records: seq<seq<byte>>, tag: nat): (kept: seq<seq<byte>>)
    ensures !HasRecord(kept, tag)
    ensures forall k :: 0 <= k < |kept| ==> kept[k] in records
  {
    if records == [] then []
    else
      var r, rest := records[0], Without(records[1..], tag);
      if Complete(r) && TagOf(r) == tag then rest else KeptFirst(r, rest, tag); [r] + rest
  }

  lemma KeptFirst(r: seq<byte>, rest: seq<seq<byte>>, tag: nat)
    requires !HasRecord(rest, tag) && !(Complete(r) && TagOf(r) == tag)
    ensures !HasRecord([r] + rest, tag)
  {
    forall k | 0 <= k < |[r] + rest| && Complete(([r] + rest)[k]) ensures TagOf(([r] + rest)[k]) != tag {
      if k > 0 { assert rest[k - 1] == ([r] + rest)[k]; }
    }
  }

  /** Two messages that differ in slot i at most. */
  predicate SameBut(i: nat, a: Message, b: Message) {
    && a.unions == b.unions && |a.slots| == |b.slots|
    && forall j :: 0 <= j < |a.slots| && j != i ==> a.slots[j] == b.slots[j]
  }

  /** What another field makes of a message does not depend on slot i. */
  lemma OtherField(f: Field, j: nat, wireType: nat, i: nat, a: Message, b: Message, s: seq<byte>)
    requires i != j && SameBut(i, a, b) && DecodedField(f, j, wireType, a, s).Got?
    ensures DecodedField(f, j, wireType, b, s).Got?
    ensures DecodedField(f, j, wireType, b, s).rest == DecodedField(f, j, wireType, a, s).rest
    ensures SameBut(i, DecodedField(f, j, wireType, a, s).value, DecodedField(f, j, wireType, b, s).value)
  {
    if f.h.Required? || f.h.Optional? {
      assert DecodedSingle(f, j, wireType, a, s).Got?;
    }
  }

  /** A record of required field i changes slot i only. */
  lemma OwnField(f: Field, i: nat, wireType: nat, a: Message, b: Message, s: seq<byte>)
    requires f.h.Required? && SameBut(i, a, b) && DecodedField(f, i, wireType, a, s).Got?
    ensures SameBut(i, DecodedField(f, i, wireType, a, s).value, b)
  {
    assert DecodedSingle(f, i, wireType, a, s).Got?;
  }

  /** One record, before two messages that differ in slot i at most. */
  lemma {:induction false} OtherRecord(
    fs: seq<Field>, r: seq<byte>, i: nat, a: Progress, b: Progress)
    requires WellFormed(fs) && i < |fs| && fs[i].h.Required? && Complete(r) && SameBut(i, a.m, b.m)
    requires DecodedRecord(fs, ReadHeader(r).value, ReadHeader(r).rest, a).Got?
    ensures
      var h := ReadHeader(r);
      var d := DecodedRecord(fs, h.value, h.rest, a);
      if TagOf(r) == fs[i].tag then SameBut(i, d.value.m, b.m) && d.value.seen <= a.seen + {i}
      else
        var e := DecodedRecord(fs, h.value, h.rest, b);
        && e.Got? && SameBut(i, d.value.m, e.value.m)
        && d.value.seen - a.seen <= e.value.seen && b.seen <= e.value.seen
  {
    var h := ReadHeader(r);
    var j := FieldIndex(fs, h.value.tag);
    if j < |fs| {
      if fs[j].tag == fs[i].tag {
        OwnField(fs[i], i, h.value.wireType, a.m, b.m, h.rest);
      } else {
        OtherField(fs[j], j, h.value.wireType, i, a.m, b.m, h.rest);
      }
    }
  }

  lemma {:induction false} DispensableFrom(
    fs: seq<Field>, records: seq<seq<byte>>, i: nat, a: Progress, b: Progress)
    requires WellFormed(fs) && i < |fs| && fs[i].h.Required? && RequiredBefore(fs, i) >= 64
    requires forall k :: 0 <= k < |records| ==> Complete(records[k])
    requires SameBut(i, a.m, b.m) && a.seen <= b.seen + {i}
    requires DecodedRecords(fs, Joined(records), a.m, a.seen).Ok?
    ensures
      var d := DecodedRecords(fs, Joined(Without(records, fs[i].tag)), b.m, b.seen);
      d.Ok? && SameBut(i, DecodedRecords(fs, Joined(records), a.m, a.seen).value, d.value)
    decreases |records|
  {
    if records != [] {
      var r, rest := records[0], records[1..];
      var h := ReadHeader(r);
      RecordOff(fs, r, Joined(rest), a.m, a.seen);
      OtherRecord(fs, r, i, a, b);
      var d := DecodedRecord(fs, h.value, h.rest, a).value;
      if TagOf(r) == fs[i].tag {
        DispensableFrom(fs, rest, i, d, b);
      } else {
        var e := DecodedRecord(fs, h.value, h.rest, b).value;
        DispensableFrom(fs, rest, i, d, e);
        var kept := Without(rest, fs[i].tag);
        assert ([r] + kept)[1..] == kept;
        RecordOff(fs, r, Joined(kept), b.m, b.seen);
      }
    }
  }

  /**
    All records of a required field behind the 64th can be left out of any accepted
    stream: it stays accepted, and says the same about all other fields.
   */
  lemma UntrackedDispensable(fs: seq<Field>, records: seq<seq<byte>>, i: nat)
    requires WellFormed(fs) && i < |fs| && fs[i].h.Required? && RequiredBefore(fs, i) >= 64
    requires Accepted(fs, records)
    ensures Accepted(fs, Without(records, fs[i].tag)) && !HasRecord(Without(records, fs[i].tag), fs[i].tag)
    ensures SameBut(i, DecodedMessage(fs, Joined(records)).value,
                    DecodedMessage(fs, Joined(Without(records, fs[i].tag))).value)
  {
    DispensableFrom(fs, records, i, Progress(Default(fs), {}), Progress(Default(fs), {}));
  }

  // ---- When the check is thorough ---------------------------------------------------------

  /** All required fields were seen. */
  predicate Thorough(fs: seq<Field>, seen: set<nat>) {
    forall i :: 0 <= i < |fs| && fs[i].h.Required? ==> i in seen
  }

  /** Complete records that together are accepted. */
  predicate Accepted(fs: seq<Field>, records: seq<seq<byte>>) {
    (forall k :: 0 <= k < |records| ==> Complete(records[k])) && DecodedMessage(fs, Joined(records)).Ok?
  }

  /** There is a record for every required field. */
  predicate HasAllRequired(fs: seq<Field>, records: seq<seq<byte>>) {
    forall i :: 0 <= i < |fs| && fs[i].h.Required? ==> HasRecord(records, fs[i].tag)
  }

  /** The check at the end is thorough exactly for types with at most 64 required fields. */
  lemma CheckIsThorough(fs: seq<Field>)
    ensures (forall seen :: AllRequiredSeen(fs, seen) ==> Thorough(fs, seen)) <==> RequiredBefore(fs, |fs|) <= 64
  {
    if RequiredBefore(fs, |fs|) <= 64 {
      forall i | 0 <= i < |fs| && fs[i].h.Required? ensures RequiredBefore(fs, i) < 64 {
        RequiredBeforeMonotone(fs, i, |fs|);
      }
    } else {
      var i := RequiredNumbered(fs, |fs|, 64);
      var seen := set j: nat | j < |fs| && Tracked(fs, j);
      assert AllRequiredSeen(fs, seen) && i !in seen;
      assert !Thorough(fs, seen);
    }
  }

  /**
    A type for which any stream is accepted at all accepts only streams with every
    required field exactly if it has at most 64 of them.
   */
  lemma {:induction false} AcceptanceIsThorough(fs: seq<Field>, some: seq<seq<byte>>)
    requires WellFormed(fs) && Accepted(fs, some)
    ensures (forall records :: Accepted(fs, records) ==> HasAllRequired(fs, records))
      <==> RequiredBefore(fs, |fs|) <= 64
  {
    if RequiredBefore(fs, |fs|) <= 64 {
      forall records, i | Accepted(fs, records) && 0 <= i < |fs| && fs[i].h.Required?
        ensures HasRecord(records, fs[i].tag)
      {
        AcceptedHasRequired(fs, records, i);
      }
    } else {
      var i := RequiredNumbered(fs, |fs|, 64);
      UntrackedDispensable(fs, some, i);
      assert !HasAllRequired(fs, Without(some, fs[i].tag));
    }
  }

  // ---- A stream that lacks a required field ----------------------------------------------

  /** A type with n required boolean fields, tagged 1 to n. */
  function Booleans(n: nat): seq<Field> {
    seq(n, k requires 0 <= k < n => Field(k + 1, Required, Bool))
  }

  /** The record that sets the field with the given tag to false. */
  function FalseRecord(tag: nat): seq<byte> {
    VarintBytes(tag * 8) + [0]
  }

  lemma FalseRecordComplete(tag: nat)
    requires 0 < tag < 0x2000_0000
    ensures Complete(FalseRecord(tag)) && TagOf(FalseRecord(tag)) == tag
    ensures ReadHeader(FalseRecord(tag)) == Got(Header(tag, 0), [0])
  {
    Varint32RoundTrip(tag * 8, [0]);
    var z: seq<byte> := [0];
    assert z[1..] == [];
  }

  lemma {:induction false} BooleansCounted(n: nat, i: nat)
    requires i <= n
    ensures RequiredBefore(Booleans(n), i) == i
  {
    if i > 0 {
      BooleansCounted(n, i - 1);
    }
  }

  /** Records for the fields from `from` on, up to the 64th. */
  function FalseRecords(from: nat): seq<seq<byte>>
    requires from <= 64
  {
    seq(64 - from, k requires 0 <= k < 64 - from => FalseRecord(from + k + 1))
  }

  lemma {:induction false} FalseRecordsAccepted(n: nat, from: nat, m: Message, seen: set<nat>)
    requires 64 <= n < 0x1000_0000 && from <= 64
    requires |m.slots| == n && (forall k :: from <= k < n ==> m.slots[k].One?)
    requires forall k :: 0 <= k < from ==> k in seen
    ensures DecodedRecords(Booleans(n), Joined(FalseRecords(from)), m, seen).Ok?
    decreases 64 - from
  {
    var fs, records := Booleans(n), FalseRecords(from);
    if from == 64 {
      forall i | 0 <= i < n && RequiredBefore(fs, i) < 64 ensures i in seen {
        BooleansCounted(n, i);
      }
    } else {
      assert records[0] == FalseRecord(from + 1) && records[1..] == FalseRecords(from + 1);
      FalseRecordStep(n, from, m, seen, Joined(records[1..]));
      FalseRecordsAccepted(n, from + 1, m.(slots := m.slots[from := One(true, Num(0))]), seen + {from});
    }
  }

  lemma {:induction false} FalseRecordStep(n: nat, i: nat, m: Message, seen: set<nat>, t: seq<byte>)
    requires i < n < 0x1000_0000 && |m.slots| == n && m.slots[i].One?
    ensures DecodedRecords(Booleans(n), FalseRecord(i + 1) + t, m, seen)
      == DecodedRecords(Booleans(n), t, m.(slots := m.slots[i := One(true, Num(0))]), seen + {i})
  {
    var fs := Booleans(n);
    FalseRecordComplete(i + 1);
    assert fs[i].tag == i + 1;
    assert FieldIndex(fs, i + 1) == i;
    FalseDecoded(fs, i, m);
    RecordOff(fs, FalseRecord(i + 1), t, m, seen);
  }

  lemma FalseDecoded(fs: seq<Field>, i: nat, m: Message)
    requires i < |fs| && i < |m.slots| && m.slots[i].One? && fs[i].h == Required && fs[i].l == Bool
    ensures DecodedField(fs[i], i, 0, m, [0]) == Got(m.(slots := m.slots[i := One(true, Num(0))]), [])
  {
    Varint32RoundTrip(0, []);
    var z: seq<byte> := [0];
    assert VarintBytes(0) + [] == z;
    assert DecodedSingle(fs[i], i, 0, m, z) == Got(m.(slots := m.slots[i := One(true, Num(0))]), []);
  }

  lemma BooleansWellFormed(n: nat)
    requires n < 0x1000_0000
    ensures WellFormed(Booleans(n))
  {
  }

  lemma BooleansDefault(n: nat)
    ensures |Default(Booleans(n)).slots| == n
    ensures forall k :: 0 <= k < n ==> Default(Booleans(n)).slots[k].One?
  {
    var fs := Booleans(n);
    forall k | 0 <= k < n ensures Default(fs).slots[k].One? {
      assert Default(fs).slots[k] == DefaultSlot(fs[k]);
    }
  }

  lemma FalseRecordsComplete()
    ensures |FalseRecords(0)| == 64
    ensures forall k :: 0 <= k < 64 ==> Complete(FalseRecords(0)[k]) && TagOf(FalseRecords(0)[k]) == k + 1
  {
    forall k | 0 <= k < 64 ensures Complete(FalseRecords(0)[k]) && TagOf(FalseRecords(0)[k]) == k + 1 {
      FalseRecordComplete(k + 1);
    }
  }

  /** With n required fields, a stream without a record for any behind the 64th is accepted. */
  lemma {:induction false} UntrackedMissing(n: nat) returns (records: seq<seq<byte>>)
    requires 64 < n < 0x1000_0000
    ensures |Booleans(n)| == n && WellFormed(Booleans(n)) && forall i :: 0 <= i < n ==> Booleans(n)[i].h.Required?
    ensures forall k :: 0 <= k < |records| ==> Complete(records[k])
    ensures DecodedMessage(Booleans(n), Joined(records)).Ok?
    ensures forall i :: 64 <= i < n ==> !HasRecord(records, Booleans(n)[i].tag)
  {
    records := FalseRecords(0);
    BooleansWellFormed(n);
    BooleansDefault(n);
    FalseRecordsAccepted(n, 0, Default(Booleans(n)), {});
    FalseRecordsComplete();
  }

  /** So 65 of them are one too many. */
  lemma SixtyFifthMissing() returns (fs: seq<Field>, records: seq<seq<byte>>)
    ensures |fs| == 65 && WellFormed(fs) && fs[64].h.Required?
    ensures forall k :: 0 <= k < |records| ==> Complete(records[k])
    ensures DecodedMessage(fs, Joined(records)).Ok? && !HasRecord(records, fs[64].tag)
  {
    fs := Booleans(65);
    records := UntrackedMissing(65);
  }
}
