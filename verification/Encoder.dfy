/**
  The nanopb encoder.  `EncodedMessage` and its companions say which bytes a
  message is written as; the methods write them to a stream, running twice over
  every submessage, once to learn its size and once to write it.
 */
module Encoder {
  import opened Basics
  import opened Wire
  import opened Schema

  type Output = Option<seq<byte>>

  /** One output after the other; an error in either is an error. */
  function Cat(a: Output, b: Output): Output {
    if a.Some? && b.Some? then Some(a.value + b.value) else None
  }

  // ---- Which bytes are written -----------------------------------------------------

  function EncodedNum(l: LType, n: int): Output {
    if !InRange(l, n) || !SizeOk(l) then None
    else
      match l
      case Bool => Some(VarintBytes(n))
      case Varint(_) => Some(VarintBytes(ToU64(n)))
      case UVarint(_) => Some(VarintBytes(n))
      case SVarint(_) => Some(VarintBytes(ZigZag(n)))
      case Fixed32 => Some(FixedBytes(n, 4))
      case Fixed64 => Some(FixedBytes(n, 8))
  }

  /** A length prefix and what it counts; the prefix is a 64-bit number. */
  function Delimited(p: Output): Output {
    if p.Some? && |p.value| < 0x1_0000_0000_0000_0000 then Some(VarintBytes(|p.value|) + p.value) else None
  }

  /** A value without its tag. */
  function EncodedValue(l: LType, v: Value): Output
    decreases l, 0
  {
    match l
    case Bytes(max) => if v.Blob? && |v.bytes| <= max then Delimited(Some(v.bytes)) else None
    case String(size) => if v.Blob? && |CString(v.bytes)| < size then Delimited(Some(CString(v.bytes))) else None
    case Submessage(fs) => if v.Msg? then Delimited(EncodedMessage(fs, v.m)) else None
    case _ => if v.Num? then EncodedNum(l, v.n) else None
  }

  function TagBytes(tag: nat, wireType: nat): seq<byte> {
    VarintBytes(tag * 8 + wireType)
  }

  /** One record of field f. */
  function EncodedRecord(f: Field, v: Value): Output
    decreases f, 0
  {
    Cat(Some(TagBytes(f.tag, WireType(f.l))), EncodedValue(f.l, v))
  }

  /** One record per item. */
  function EncodedRecords(f: Field, items: seq<Value>): Output
    decreases f, 1, |items|
  {
    if items == [] then Some([])
    else Cat(EncodedRecords(f, items[..|items| - 1]), EncodedRecord(f, items[|items| - 1]))
  }

  /** The items of a packed array, back to back. */
  function PackedItems(l: LType, items: seq<Value>): Output
    decreases l, 1, |items|
  {
    if items == [] then Some([])
    else Cat(PackedItems(l, items[..|items| - 1]), EncodedValue(l, items[|items| - 1]))
  }

  function EncodedArray(f: Field, size: nat, items: seq<Value>): Output
    decreases f, 2
  {
    if items == [] then Some([])
    else if |items| > size then None
    else if Packable(f.l) then Cat(Some(TagBytes(f.tag, 2)), Delimited(PackedItems(f.l, items)))
    else EncodedRecords(f, items)
  }

  /** Everything written for field f, the i-th of m. */
  function EncodedField(f: Field, i: nat, m: Message): Output
    decreases f, 3
  {
    match f.h
    case Required => if i < |m.slots| && m.slots[i].One? then EncodedRecord(f, m.slots[i].v) else None
    case Optional =>
      if !(i < |m.slots| && m.slots[i].One?) then None
      else if m.slots[i].has then EncodedRecord(f, m.slots[i].v) else Some([])
    case Repeated(size) =>
      if i < |m.slots| && m.slots[i].Many? then EncodedArray(f, size, m.slots[i].items) else None
    case OneOf(u) =>
      if !(u < |m.unions|) then None
      else if m.unions[u].which == f.tag then EncodedRecord(f, m.unions[u].v) else Some([])
  }

  function EncodedUpTo(fs: seq<Field>, m: Message, n: nat): Output
    requires n <= |fs|
    decreases fs, 4, n
  {
    if n == 0 then Some([]) else Cat(EncodedUpTo(fs, m, n - 1), EncodedField(fs[n - 1], n - 1, m))
  }

  function EncodedMessage(fs: seq<Field>, m: Message): Output
    decreases fs, 5
  {
    EncodedUpTo(fs, m, |fs|)
  }

  // ---- The output stream -----------------------------------------------------------

  /** A stream into a buffer, or one that only counts. */
  class OutputStream {
    const sizing: bool
    const maxSize: nat
    var bytesWritten: nat
    var written: seq<byte>

    constructor Sizing()
      ensures sizing && bytesWritten == 0 && written == [] && Valid()
    {
      sizing, maxSize, bytesWritten, written := true, 0, 0, [];
    }

    constructor Buffer(size: nat)
      ensures !sizing && maxSize == size && bytesWritten == 0 && written == [] && Valid()
    {
      sizing, maxSize, bytesWritten, written := false, size, 0, [];
    }

    ghost predicate Valid()
      reads this
    {
      sizing || bytesWritten <= maxSize
    }

    /** Since it held n0 bytes and content w0, the stream took all of p, exactly if p is no error and fits. */
    ghost predicate Took(n0: nat, w0: seq<byte>, p: Output, ok: bool)
      reads this
    {
      && Valid()
      && (ok <==> p.Some? && (sizing || n0 + |p.value| <= maxSize))
      && (ok ==> bytesWritten == n0 + |p.value| && written == (if sizing then w0 else w0 + p.value))
    }

    /** `pb_write` */
    method Write(buf: seq<byte>) returns (ok: bool)
      requires Valid()
      modifies this
      ensures Took(old(bytesWritten), old(written), Some(buf), ok)
    {
      if |buf| > 0 && !sizing {
        if bytesWritten + |buf| > maxSize {
          return false;
        }
        written := written + buf;
      }
      bytesWritten := bytesWritten + |buf|;
      return true;
    }

    /** Writing a size's worth of bytes to a counting stream without looking at them. */
    method Count(size: nat)
      requires Valid() && sizing
      modifies this
      ensures Valid() && bytesWritten == old(bytesWritten) + size && written == old(written)
    {
      bytesWritten := bytesWritten + size;
    }

    /** `pb_encode_varint` */
    method EncodeVarint(value: nat) returns (ok: bool)
      requires Valid() && value < 0x1_0000_0000_0000_0000
      modifies this
      ensures Took(old(bytesWritten), old(written), Some(VarintBytes(value)), ok)
    {
      if value <= 0x7F {
        ok := Write([value as byte]);
      } else {
        var buffer := SplitHalfVarint(value % 0x1_0000_0000, value / 0x1_0000_0000);
        ok := Write(buffer);
      }
    }
  }

  /**
    The bytes `pb_encode_varint_32` writes for a 64-bit value given as two halves,
    found without 64-bit shifts.  The ghost `rest` is the value still to be written.
   */
  method SplitHalfVarint(low0: nat, high0: nat) returns (buffer: seq<byte>)
    requires low0 < 0x1_0000_0000 && high0 < 0x1_0000_0000
    ensures buffer == VarintBytes(high0 * 0x1_0000_0000 + low0)
  {
    var low: nat, high: nat := low0 / 0x80, high0;
    var group: nat := low0 % 0x80;
    buffer := [];
    ghost var value: nat := high0 * 0x1_0000_0000 + low0;
    ghost var rest: nat := value;
    while |buffer| < 4 && (low != 0 || high != 0)
      invariant |buffer| <= 4 && high == high0 && group < 0x80
      invariant low * 0x80 < Room(|buffer|)
      invariant rest == group + 0x80 * low + Room(|buffer|) * high
      invariant buffer + VarintBytes(rest) == VarintBytes(value)
      invariant |buffer| == 4 ==> group < 0x10
    {
      RoomStep(group, low, high, |buffer|, rest);
      OneMoreGroup(buffer, rest);
      buffer := buffer + [(group + 0x80) as byte];
      group, low, rest := low % 0x80, low / 0x80, rest / 0x80;
    }
    if high != 0 {
      buffer, group := HighGroups(buffer, group + high % 8 * 0x10, high / 8, rest, value);
    }
    buffer := buffer + [group as byte];
  }

  /** The groups of the high half; the last one stays pending. */
  method HighGroups(buffer0: seq<byte>, group0: nat, high0: nat, ghost rest0: nat, ghost value: nat)
      returns (buffer: seq<byte>, group: nat)
    requires group0 < 0x80 && rest0 == group0 + 0x80 * high0
    requires buffer0 + VarintBytes(rest0) == VarintBytes(value)
    ensures group < 0x80 && buffer + [group as byte] == VarintBytes(value)
  {
    buffer, group := buffer0, group0;
    var high := high0;
    ghost var rest := rest0;
    while high != 0
      invariant group < 0x80 && rest == group + 0x80 * high
      invariant buffer + VarintBytes(rest) == VarintBytes(value)
    {
      OneMoreGroup(buffer, rest);
      buffer := buffer + [(group + 0x80) as byte];
      group, high, rest := high % 0x80, high / 0x80, rest / 0x80;
    }
  }

  lemma OneMoreGroup(buffer: seq<byte>, rest: nat)
    requires rest >= 0x80
    ensures buffer + VarintBytes(rest) == buffer + [(rest % 0x80 + 0x80) as byte] + VarintBytes(rest / 0x80)
  {
  }

  /** The weight of the high half once i groups of the low half are out. */
  function Room(i: nat): nat {
    if i == 0 then 0x1_0000_0000
    else if i == 1 then 0x200_0000
    else if i == 2 then 0x4_0000
    else if i == 3 then 0x800
    else 0x10
  }

  /** One group out: what is left is the value shifted down by seven bits. */
  lemma RoomStep(b: nat, low: nat, high: nat, i: nat, rest: nat)
    requires i < 4 && b < 0x80 && low * 0x80 < Room(i) && (low != 0 || high != 0)
    requires rest == b + 0x80 * low + Room(i) * high
    ensures rest >= 0x80 && rest % 0x80 == b
    ensures rest / 0x80 == low % 0x80 + 0x80 * (low / 0x80) + Room(i + 1) * high
    ensures low / 0x80 * 0x80 < Room(i + 1)
    ensures i == 3 ==> low < 0x10
  {
    assert Room(i) == 0x80 * Room(i + 1);
    assert Room(i) * high == 0x80 * (Room(i + 1) * high);
    if high != 0 { assert Room(i) * high >= Room(i); }
  }

  // ---- The field encoders ------------------------------------------------------------

  /** `pb_encode_tag` */
  method EncodeTag(st: OutputStream, tag: nat, wireType: nat) returns (ok: bool)
    requires st.Valid() && tag < 0x1_0000_0000 && wireType < 8
    modifies st
    ensures st.Took(old(st.bytesWritten), old(st.written), Some(TagBytes(tag, wireType)), ok)
  {
    ok := st.EncodeVarint(tag * 8 + wireType);
  }

  /** `pb_encode_string` */
  method EncodeString(st: OutputStream, buffer: seq<byte>) returns (ok: bool)
    requires st.Valid()
    modifies st
    ensures st.Took(old(st.bytesWritten), old(st.written), Delimited(Some(buffer)), ok)
  {
    if |buffer| >= 0x1_0000_0000_0000_0000 {
      return false;
    }
    ok := st.EncodeVarint(|buffer|);
    if ok {
      AppendAssoc(old(st.written), VarintBytes(|buffer|), buffer);
      ok := st.Write(buffer);
    }
  }

  lemma AppendAssoc(a: seq<byte>, b: seq<byte>, c: seq<byte>)
    ensures (a + b) + c == a + (b + c)
  {
  }

  /** `pb_enc_bool`, `pb_enc_varint` and `pb_enc_fixed` */
  method EncodeNum(st: OutputStream, l: LType, n: int) returns (ok: bool)
    requires st.Valid() && Packable(l) && InRange(l, n)
    modifies st
    ensures st.Took(old(st.bytesWritten), old(st.written), EncodedNum(l, n), ok)
  {
    if !SizeOk(l) {
      return false;
    }
    match l
    case Bool => ok := st.EncodeVarint(n);
    case Varint(_) => ok := st.EncodeVarint(ToU64(n));
    case UVarint(_) => ok := st.EncodeVarint(n);
    case SVarint(_) => ok := st.EncodeVarint(ZigZag(n));
    case Fixed32 => ok := st.Write(FixedBytes(n, 4));
    case Fixed64 => ok := st.Write(FixedBytes(n, 8));
  }

  /** The length of the string in a buffer, and whether it ends in time: the loop of `pb_enc_string`. */
  method BoundedStringLength(s: seq<byte>, maxSize: nat) returns (size: nat, terminated: bool)
    ensures terminated <==> |CString(s)| <= maxSize
    ensures terminated ==> size <= |s| && s[..size] == CString(s)
  {
    size := 0;
    while size < maxSize && size < |s| && s[size] != 0
      invariant size <= |s| && size <= maxSize
      invariant CString(s) == s[..size] + CString(s[size..])
    {
      assert s[size..][1..] == s[size + 1..];
      assert s[..size + 1] == s[..size] + [s[size]];
      size := size + 1;
    }
    terminated := size == |s| || s[size] == 0;
  }

  /** `encode_basic_field` after the tag */
  method EncodeValue(st: OutputStream, l: LType, v: Value) returns (ok: bool)
    requires st.Valid() && Typed(l, v) && WellFormedType(l)
    modifies st
    ensures st.Took(old(st.bytesWritten), old(st.written), EncodedValue(l, v), ok)
    decreases l, 0
  {
    match l
    case Bytes(max) =>
      if |v.bytes| > max {
        return false;
      }
      ok := EncodeString(st, v.bytes);
    case String(size) =>
      if size == 0 {
        return false;
      }
      var length, terminated := BoundedStringLength(v.bytes, size - 1);
      if !terminated {
        return false;
      }
      ok := EncodeString(st, v.bytes[..length]);
    case Submessage(fs) =>
      ok := EncodeSubmessage(st, fs, v.m);
    case _ =>
      ok := EncodeNum(st, l, v.n);
  }

  /**
    `pb_encode_submessage`: the size found by a counting run is what the writing
    run then takes up, so the source's check for a changed size never fires.
   */
  method EncodeSubmessage(st: OutputStream, fs: seq<Field>, m: Message) returns (ok: bool)
    requires st.Valid() && TypedMessage(fs, m) && WellFormed(fs)
    modifies st
    ensures st.Took(old(st.bytesWritten), old(st.written), Delimited(EncodedMessage(fs, m)), ok)
    decreases fs, 6
  {
    var sizer := new OutputStream.Sizing();
    var sized := Encode(sizer, fs, m);
    if !sized {
      return false;
    }
    var size := sizer.bytesWritten;
    if size >= 0x1_0000_0000_0000_0000 {
      return false;
    }
    ok := st.EncodeVarint(size);
    if !ok {
      return;
    }
    ghost var p := EncodedMessage(fs, m).value;
    if st.sizing {
      st.Count(size);
      return true;
    }
    if st.bytesWritten + size > st.maxSize {
      return false;
    }
    var sub := new OutputStream.Buffer(size);
    var status := Encode(sub, fs, m);
    assert status && sub.bytesWritten == size && sub.written == [] + p;
    AppendAssoc(old(st.written), VarintBytes(size), p);
    st.bytesWritten := st.bytesWritten + sub.bytesWritten;
    st.written := st.written + sub.written;
    return status;
  }

  /** `encode_basic_field` */
  method EncodeRecord(st: OutputStream, f: Field, v: Value) returns (ok: bool)
    requires st.Valid() && Typed(f.l, v) && WellFormedField(f)
    modifies st
    ensures st.Took(old(st.bytesWritten), old(st.written), EncodedRecord(f, v), ok)
    decreases f, 0
  {
    ok := EncodeTag(st, f.tag, WireType(f.l));
    if ok {
      ghost var p := EncodedValue(f.l, v);
      if p.Some? { AppendAssoc(old(st.written), TagBytes(f.tag, WireType(f.l)), p.value); }
      ok := EncodeValue(st, f.l, v);
    }
  }

  /** A longer run of fields or items writes at least what a shorter one does, and fails where it fails. */
  lemma {:induction false} UpToMonotone(fs: seq<Field>, m: Message, i: nat, n: nat)
    requires i <= n <= |fs|
    ensures EncodedUpTo(fs, m, n).Some? ==>
      EncodedUpTo(fs, m, i).Some? && |EncodedUpTo(fs, m, i).value| <= |EncodedUpTo(fs, m, n).value|
  {
    if i < n {
      UpToMonotone(fs, m, i, n - 1);
    }
  }

  lemma {:induction false} RecordsMonotone(f: Field, items: seq<Value>, i: nat)
    requires i <= |items|
    ensures EncodedRecords(f, items).Some? ==>
      EncodedRecords(f, items[..i]).Some? && |EncodedRecords(f, items[..i]).value| <= |EncodedRecords(f, items).value|
    decreases |items|
  {
    if i < |items| {
      var init := items[..|items| - 1];
      RecordsMonotone(f, init, i);
      assert init[..i] == items[..i];
    } else {
      assert items[..i] == items;
    }
  }

  lemma {:induction false} PackedMonotone(l: LType, items: seq<Value>, i: nat)
    requires i <= |items|
    ensures PackedItems(l, items).Some? ==>
      PackedItems(l, items[..i]).Some? && |PackedItems(l, items[..i]).value| <= |PackedItems(l, items).value|
    decreases |items|
  {
    if i < |items| {
      var init := items[..|items| - 1];
      PackedMonotone(l, init, i);
      assert init[..i] == items[..i];
    } else {
      assert items[..i] == items;
    }
  }

  lemma {:induction false} PackedNext(l: LType, items: seq<Value>, i: nat)
    requires i < |items| && Packable(l) && Typed(l, items[i])
    ensures items[i].Num?
    ensures PackedItems(l, items[..i + 1]) == Cat(PackedItems(l, items[..i]), EncodedNum(l, items[i].n))
  {
    assert items[..i + 1][..i] == items[..i];
    assert EncodedValue(l, items[i]) == EncodedNum(l, items[i].n);
  }

  /** A number behind what the stream has taken. */
  method EncodeOneMore(
    st: OutputStream, l: LType, n: int, ghost n0: nat, ghost w0: seq<byte>, ghost done: Output) returns (ok: bool)
    requires st.Took(n0, w0, done, true) && Packable(l) && InRange(l, n)
    modifies st
    ensures st.Took(n0, w0, Cat(done, EncodedNum(l, n)), ok)
  {
    if EncodedNum(l, n).Some? { AppendAssoc(w0, done.value, EncodedNum(l, n).value); }
    ok := EncodeNum(st, l, n);
  }

  /** Item i behind the ones before it; if that fails, so do all items together. */
  method EncodeItem(
    st: OutputStream, l: LType, items: seq<Value>, i: nat, ghost n0: nat, ghost w0: seq<byte>) returns (ok: bool)
    requires Packable(l) && i < |items| && Typed(l, items[i])
    requires st.Took(n0, w0, PackedItems(l, items[..i]), true)
    modifies st
    ensures ok ==> st.Took(n0, w0, PackedItems(l, items[..i + 1]), true)
    ensures !ok ==> st.Took(n0, w0, PackedItems(l, items), false)
  {
    PackedNext(l, items, i);
    PackedMonotone(l, items, i + 1);
    ok := EncodeOneMore(st, l, items[i].n, n0, w0, PackedItems(l, items[..i]));
  }

  /** The items of a packed array, to a counting or a writing stream. */
  method EncodePackedItems(st: OutputStream, l: LType, items: seq<Value>) returns (ok: bool)
    requires st.Valid() && Packable(l) && forall i :: 0 <= i < |items| ==> Typed(l, items[i])
    modifies st
    ensures st.Took(old(st.bytesWritten), old(st.written), PackedItems(l, items), ok)
  {
    var i := 0;
    while i < |items|
      invariant 0 <= i <= |items|
      invariant st.Took(old(st.bytesWritten), old(st.written), PackedItems(l, items[..i]), true)
    {
      ok := EncodeItem(st, l, items, i, old(st.bytesWritten), old(st.written));
      if !ok {
        return;
      }
      i := i + 1;
    }
    assert items[..i] == items;
    return true;
  }

  lemma {:induction false} RecordsNext(f: Field, items: seq<Value>, i: nat)
    requires i < |items|
    ensures EncodedRecords(f, items[..i + 1]) == Cat(EncodedRecords(f, items[..i]), EncodedRecord(f, items[i]))
  {
    assert items[..i + 1][..i] == items[..i];
  }

  /** A record behind what the stream has taken. */
  method EncodeOneRecord(
    st: OutputStream, f: Field, v: Value, ghost n0: nat, ghost w0: seq<byte>, ghost done: Output) returns (ok: bool)
    requires st.Took(n0, w0, done, true) && WellFormedField(f) && Typed(f.l, v)
    modifies st
    ensures st.Took(n0, w0, Cat(done, EncodedRecord(f, v)), ok)
    decreases f, 1
  {
    if EncodedRecord(f, v).Some? { AppendAssoc(w0, done.value, EncodedRecord(f, v).value); }
    ok := EncodeRecord(st, f, v);
  }

  /** One record per item. */
  method EncodeRecords(st: OutputStream, f: Field, items: seq<Value>) returns (ok: bool)
    requires st.Valid() && WellFormedField(f) && forall i :: 0 <= i < |items| ==> Typed(f.l, items[i])
    modifies st
    ensures st.Took(old(st.bytesWritten), old(st.written), EncodedRecords(f, items), ok)
    decreases f, 2
  {
    var i := 0;
    while i < |items|
      invariant 0 <= i <= |items|
      invariant st.Took(old(st.bytesWritten), old(st.written), EncodedRecords(f, items[..i]), true)
    {
      RecordsNext(f, items, i);
      ok := EncodeOneRecord(st, f, items[i], old(st.bytesWritten), old(st.written), EncodedRecords(f, items[..i]));
      if !ok {
        RecordsMonotone(f, items, i + 1);
        return;
      }
      i := i + 1;
    }
    assert items[..i] == items;
    return true;
  }

  /** `encode_array` */
  method EncodeArray(st: OutputStream, f: Field, arraySize: nat, items: seq<Value>) returns (ok: bool)
    requires st.Valid() && WellFormedField(f) && forall i :: 0 <= i < |items| ==> Typed(f.l, items[i])
    modifies st
    ensures st.Took(old(st.bytesWritten), old(st.written), EncodedArray(f, arraySize, items), ok)
    decreases f, 3
  {
    if |items| == 0 {
      return true;
    }
    if |items| > arraySize {
      return false;
    }
    if Packable(f.l) {
      ok := EncodeTag(st, f.tag, 2);
      if ok {
        ghost var p := Delimited(PackedItems(f.l, items));
        if p.Some? { AppendAssoc(old(st.written), TagBytes(f.tag, 2), p.value); }
        ok := EncodePacked(st, f.l, items);
      }
    } else {
      ok := EncodeRecords(st, f, items);
    }
  }

  /** The length prefix of a packed array and its items; fixed-width items are sized without a counting run. */
  method EncodePacked(st: OutputStream, l: LType, items: seq<Value>) returns (ok: bool)
    requires st.Valid() && Packable(l) && forall i :: 0 <= i < |items| ==> Typed(l, items[i])
    modifies st
    ensures st.Took(old(st.bytesWritten), old(st.written), Delimited(PackedItems(l, items)), ok)
  {
    var size: nat;
    if l.Fixed32? || l.Fixed64? {
      size := (if l.Fixed32? then 4 else 8) * |items|;
      FixedPackedSize(l, items);
    } else {
      var sizer := new OutputStream.Sizing();
      var sized := EncodePackedItems(sizer, l, items);
      if !sized {
        return false;
      }
      size := sizer.bytesWritten;
    }
    if size >= 0x1_0000_0000_0000_0000 {
      return false;
    }
    ok := st.EncodeVarint(size);
    if ok {
      if st.sizing {
        st.Count(size);
        return true;
      }
      AppendAssoc(old(st.written), VarintBytes(size), PackedItems(l, items).value);
      ok := EncodePackedItems(st, l, items);
    }
  }

  lemma {:induction false} FixedPackedSize(l: LType, items: seq<Value>)
    requires (l.Fixed32? || l.Fixed64?) && forall i :: 0 <= i < |items| ==> Typed(l, items[i])
    ensures PackedItems(l, items).Some?
    ensures |PackedItems(l, items).value| == (if l.Fixed32? then 4 else 8) * |items|
  {
    if items != [] {
      FixedPackedSize(l, items[..|items| - 1]);
    }
  }

  /** `encode_field` */
  method EncodeField(st: OutputStream, f: Field, i: nat, m: Message) returns (ok: bool)
    requires st.Valid() && WellFormedField(f)
    requires i < |m.slots| && TypedSlot(f, m.slots[i]) && TypedChoice(f, m.unions)
    requires f.h.OneOf? ==> f.h.union < |m.unions|
    modifies st
    ensures st.Took(old(st.bytesWritten), old(st.written), EncodedField(f, i, m), ok)
    decreases f, 4
  {
    match f.h
    case Required =>
      ok := EncodeRecord(st, f, m.slots[i].v);
    case Optional =>
      if !m.slots[i].has {
        return true;
      }
      ok := EncodeRecord(st, f, m.slots[i].v);
    case Repeated(arraySize) =>
      ok := EncodeArray(st, f, arraySize, m.slots[i].items);
    case OneOf(u) =>
      if m.unions[u].which != f.tag {
        return true;
      }
      ok := EncodeRecord(st, f, m.unions[u].v);
  }

  /** `pb_encode` */
  method Encode(st: OutputStream, fs: seq<Field>, m: Message) returns (ok: bool)
    requires st.Valid() && TypedMessage(fs, m) && WellFormed(fs)
    modifies st
    ensures st.Took(old(st.bytesWritten), old(st.written), EncodedMessage(fs, m), ok)
    decreases fs, 5
  {
    var i := 0;
    while i < |fs|
      invariant 0 <= i <= |fs|
      invariant st.Took(old(st.bytesWritten), old(st.written), EncodedUpTo(fs, m, i), true)
    {
      ghost var done, next := EncodedUpTo(fs, m, i), EncodedField(fs[i], i, m);
      UpToMonotone(fs, m, i + 1, |fs|);
      if next.Some? { AppendAssoc(old(st.written), done.value, next.value); }
      assert WellFormedField(fs[i]) && TypedSlot(fs[i], m.slots[i]) && TypedChoice(fs[i], m.unions);
      ok := EncodeField(st, fs[i], i, m);
      if !ok {
        return;
      }
      i := i + 1;
    }
    return true;
  }
}
