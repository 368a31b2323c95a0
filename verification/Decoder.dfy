/**
  The nanopb decoder: what a byte string means as a message of a given type, and
  the stream methods that find it out.
 */
module Decoder {
  import opened Basics
  import opened Wire
  import opened Schema

  // ---- Scalars -----------------------------------------------------------------------

  /** The signed value of the low 32 bits. */
  function ToS32(v: nat): int {
    var low := v % 0x1_0000_0000;
    if low < 0x8000_0000 then low else low - 0x1_0000_0000
  }

  /** `pb_dec_bool`, `pb_dec_varint` and the fixed-width decoders. */
  function DecodedNum(l: LType, s: seq<byte>): Read<int> {
    match l
    case Bool =>
      var r := ReadVarint32(s);
      if r.Bad? then Bad else Got(if r.value != 0 then 1 else 0, r.rest)
    case Varint(size) =>
      var r := ReadVarint(s);
      if r.Bad? then Bad
      else Clamped(l, if size == 8 then ToS64(r.value) else ToS32(r.value), r.rest)
    case UVarint(_) =>
      var r := ReadVarint(s);
      if r.Bad? then Bad else Clamped(l, r.value, r.rest)
    case SVarint(_) =>
      var r := ReadVarint(s);
      if r.Bad? then Bad else Clamped(l, UnZigZag(r.value), r.rest)
    case Fixed32 => Widen(ReadFixed(s, 4))
    case Fixed64 => Widen(ReadFixed(s, 8))
    case _ => Bad
  }

  function Widen(r: Read<nat>): Read<int> {
    if r.Bad? then Bad else Got(r.value, r.rest)
  }

  /** Storing into a member of the given type must not change the value. */
  function Clamped(l: LType, n: int, rest: seq<byte>): Read<int> {
    if SizeOk(l) && InRange(l, n) then Got(n, rest) else Bad
  }

  // ---- Lengths -----------------------------------------------------------------------

  datatype Split = Split(front: seq<byte>, rest: seq<byte>) | Short

  /** A length prefix and the bytes it counts. */
  function Undelimited(s: seq<byte>): Split {
    var r := ReadVarint32(s);
    if r.Bad? || |r.rest| < r.value then Short else Split(r.rest[..r.value], r.rest[r.value..])
  }

  // ---- Messages ----------------------------------------------------------------------

  /** A value of type l; a submessage is decoded over what the member already holds. */
  function DecodedValue(l: LType, held: Value, s: seq<byte>): Read<Value>
    decreases l, |s|
  {
    match l
    case Bytes(max) =>
      var d := Undelimited(s);
      if d.Short? || |d.front| > 0xFFFF || |d.front| > max then Bad else Got(Blob(d.front), d.rest)
    case String(size) =>
      var d := Undelimited(s);
      if d.Short? || |d.front| == 0xFFFF_FFFF || |d.front| >= size then Bad else Got(Blob(d.front), d.rest)
    case Submessage(fs) =>
      var d := Undelimited(s);
      if d.Short? || !held.Msg? then Bad
      else
        var m := DecodedRecords(fs, d.front, held.m, {});
        if m.Err? then Bad else Got(Msg(m.value), d.rest)
    case _ =>
      var r := DecodedNum(l, s);
      if r.Bad? then Bad else Got(Num(r.value), r.rest)
  }

  /** The items of a packed array behind the ones already there; all of s must be used. */
  function DecodedPacked(l: LType, s: seq<byte>, items: seq<Value>, arraySize: nat): Result<seq<Value>>
    decreases |s|
  {
    if s == [] then Ok(items)
    else if |items| >= arraySize then Err
    else
      var r := DecodedNum(l, s);
      if r.Bad? || |r.rest| >= |s| then Err
      else DecodedPacked(l, r.rest, items + [Num(r.value)], arraySize)
  }

  /** `decode_static_field` for field f, the i-th. */
  function DecodedField(f: Field, i: nat, wireType: nat, m: Message, s: seq<byte>): Read<Message>
    decreases f, |s|
  {
    if !(i < |m.slots|) then Bad
    else
      match f.h
      case Required => DecodedSingle(f, i, wireType, m, s)
      case Optional => DecodedSingle(f, i, wireType, m, s)
      case Repeated(arraySize) =>
        if !m.slots[i].Many? then Bad
        else if wireType == 2 && Packable(f.l) then
          var d := Undelimited(s);
          if d.Short? then Bad
          else
            var items := DecodedPacked(f.l, d.front, m.slots[i].items, arraySize);
            if items.Err? then Bad else Got(m.(slots := m.slots[i := Many(items.value)]), d.rest)
        else if |m.slots[i].items| >= arraySize || wireType != WireType(f.l) then Bad
        else
          var r := DecodedValue(f.l, DefaultValue(f.l), s);
          if r.Bad? then Bad else Got(m.(slots := m.slots[i := Many(m.slots[i].items + [r.value])]), r.rest)
      case OneOf(u) =>
        if !(u < |m.unions|) || wireType != WireType(f.l) then Bad
        else
          var r := DecodedValue(f.l, DefaultValue(f.l), s);
          if r.Bad? then Bad else Got(m.(unions := m.unions[u := Choice(f.tag, r.value)]), r.rest)
  }

  function DecodedSingle(f: Field, i: nat, wireType: nat, m: Message, s: seq<byte>): Read<Message>
    decreases f, |s|, 0
  {
    if !(i < |m.slots| && m.slots[i].One?) || wireType != WireType(f.l) then Bad
    else
      var r := DecodedValue(f.l, m.slots[i].v, s);
      if r.Bad? then Bad else Got(m.(slots := m.slots[i := One(true, r.value)]), r.rest)
  }

  /** `pb_skip_field` */
  function Skipped(wireType: nat, s: seq<byte>): Read<()> {
    if wireType == 0 then SkippedVarint(s)
    else if wireType == 1 then if |s| < 8 then Bad else Got((), s[8..])
    else if wireType == 2 then var d := Undelimited(s); if d.Short? then Bad else Got((), d.rest)
    else if wireType == 5 then if |s| < 4 then Bad else Got((), s[4..])
    else Bad
  }

  /** Skipping a varint sets no bound on its length. */
  function SkippedVarint(s: seq<byte>): Read<()> {
    if s == [] then Bad else if s[0] < 0x80 then Got((), s[1..]) else SkippedVarint(s[1..])
  }

  /** The field with a tag; |fs| if there is none. */
  function FieldIndex(fs: seq<Field>, tag: nat): (i: nat)
    ensures i <= |fs|
    ensures i < |fs| ==> fs[i].tag == tag
    ensures i == |fs| ==> forall j :: 0 <= j < |fs| ==> fs[j].tag != tag
  {
    if fs == [] then 0
    else
      var i := FieldIndex(fs[..|fs| - 1], tag);
      assert forall j :: 0 <= j < |fs| - 1 ==> fs[j] == fs[..|fs| - 1][j];
      if i < |fs| - 1 then i else if fs[|fs| - 1].tag == tag then |fs| - 1 else |fs|
  }

  /** How many required fields come before field i. */
  function RequiredBefore(fs: seq<Field>, i: nat): nat
    requires i <= |fs|
  {
    if i == 0 then 0 else RequiredBefore(fs, i - 1) + (if fs[i - 1].h.Required? then 1 else 0)
  }

  lemma {:induction false} RequiredBeforeMonotone(fs: seq<Field>, i: nat, j: nat)
    requires i < j <= |fs|
    ensures RequiredBefore(fs, i) + (if fs[i].h.Required? then 1 else 0) <= RequiredBefore(fs, j)
    decreases j
  {
    if i < j - 1 {
      RequiredBeforeMonotone(fs, i, j - 1);
    }
  }

  /** The k-th required field. */
  lemma {:induction false} RequiredNumbered(fs: seq<Field>, n: nat, k: nat) returns (i: nat)
    requires n <= |fs| && k < RequiredBefore(fs, n)
    ensures i < n && fs[i].h.Required? && RequiredBefore(fs, i) == k
  {
    if k < RequiredBefore(fs, n - 1) {
      i := RequiredNumbered(fs, n - 1, k);
    } else {
      i := n - 1;
    }
  }

  /** The check at the end of a message; only the first 64 required fields are tracked. */
  predicate AllRequiredSeen(fs: seq<Field>, seen: set<nat>) {
    forall i :: 0 <= i < |fs| && fs[i].h.Required? && RequiredBefore(fs, i) < 64 ==> i in seen
  }

  /** The tag that starts a record. */
  datatype Header = Header(tag: nat, wireType: nat)

  function ReadHeader(s: seq<byte>): Read<Header> {
    var r := ReadVarint32(s);
    if r.Bad? || r.value / 8 == 0 then Bad else Got(Header(r.value / 8, r.value % 8), r.rest)
  }

  /** One record: the message after it, and the fields seen. */
  datatype Progress = Progress(m: Message, seen: set<nat>)

  function DecodedRecord(fs: seq<Field>, h: Header, s: seq<byte>, p: Progress): Read<Progress>
    decreases fs, |s|, 1
  {
    var i := FieldIndex(fs, h.tag);
    if i == |fs| then
      var k := Skipped(h.wireType, s);
      if k.Bad? then Bad else Got(p, k.rest)
    else
      var r := DecodedField(fs[i], i, h.wireType, p.m, s);
      if r.Bad? then Bad else Got(Progress(r.value, if fs[i].h.Required? then p.seen + {i} else p.seen), r.rest)
  }

  /** `pb_decode_inner` after the message has been initialised. */
  function DecodedRecords(fs: seq<Field>, s: seq<byte>, m: Message, seen: set<nat>): Result<Message>
    decreases fs, |s|, 2
  {
    if s == [] then if AllRequiredSeen(fs, seen) then Ok(m) else Err
    else
      var h := ReadHeader(s);
      if h.Bad? || |h.rest| >= |s| then Err
      else
        var r := DecodedRecord(fs, h.value, h.rest, Progress(m, seen));
        if r.Bad? || |r.rest| > |h.rest| then Err
        else DecodedRecords(fs, r.rest, r.value.m, r.value.seen)
  }

  /** `pb_decode` */
  function DecodedMessage(fs: seq<Field>, s: seq<byte>): Result<Message> {
    DecodedRecords(fs, s, Default(fs), {})
  }
}
