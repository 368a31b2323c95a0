/**
  The decoder as it runs: a stream that is consumed in place, substreams that
  borrow part of it, and the record loop, each proved against what the bytes mean.
 */
module DecoderCode {
  import opened Wire
  import opened Schema
  import opened Decoder
  import opened Storage

  // ---- The input stream ------------------------------------------------------------

  class InputStream {
    const buf: seq<byte>
    var pos: nat         // `state`, as an offset
    var left: nat        // `bytes_left`

    /** `pb_istream_from_buffer` */
    constructor (bytes: seq<byte>)
      ensures buf == bytes && Valid() && pos == 0 && Rest() == bytes
    {
      buf, pos, left := bytes, 0, |bytes|;
    }

    constructor Copy(from: InputStream)
      ensures buf == from.buf && pos == from.pos && left == from.left
    {
      buf, pos, left := from.buf, from.pos, from.left;
    }

    ghost predicate Valid()
      reads this
    {
      pos + left <= |buf|
    }

    ghost function Rest(): (s: seq<byte>)
      requires Valid()
      reads this
      ensures |s| == left
    {
      buf[pos..pos + left]
    }

    /**
      From `left0` bytes ending at `end`, the stream gave what r says, or failed
      exactly if r is an error; at least n bytes are gone.
     */
    ghost predicate Gave<T>(end: nat, left0: nat, n: nat, r: Read<T>, ok: bool, v: T)
      reads this
    {
      && Valid()
      && pos + left <= end
      && (ok <==> r.Got?)
      && (ok ==> r == Got(v, Rest()) && pos + left == end && left + n <= left0)
    }

    /** `pb_readbyte` */
    method ReadByte() returns (ok: bool, b: byte)
      requires Valid()
      modifies this
      ensures Valid() && pos + left == old(pos + left)
      ensures ok <==> old(Rest()) != []
      ensures ok ==> b == old(Rest())[0] && Rest() == old(Rest())[1..] && left < old(left)
    {
      if left == 0 {
        return false, 0;
      }
      b := buf[pos];
      pos, left := pos + 1, left - 1;
      return true, b;
    }

    /** `pb_read` */
    method Read(count: nat) returns (ok: bool, bytes: seq<byte>)
      requires Valid()
      modifies this
      ensures Valid() && pos + left == old(pos + left)
      ensures ok <==> count <= old(left)
      ensures ok ==> bytes == old(Rest())[..count] && Rest() == old(Rest())[count..]
    {
      if left < count {
        return false, [];
      }
      bytes := buf[pos..pos + count];
      pos, left := pos + count, left - count;
      return true, bytes;
    }

    /** `pb_decode_varint` */
    method DecodeVarint() returns (ok: bool, value: nat)
      requires Valid()
      modifies this
      ensures Gave(old(pos + left), old(left), 1, ReadVarint(old(Rest())), ok, value)
    {
      ghost var end := pos + left;
      var k := 0;               // bitpos is 7 * k
      value := 0;
      while true
        invariant Valid() && pos + left == end && left + k == old(left)
        invariant k <= 10 && value < 0x1_0000_0000_0000_0000 && (k <= 9 ==> value < Pow128(k))
        invariant ReadVarint(old(Rest())) == Continued(value, k, Rest())
        decreases left
      {
        if k == 10 {
          return false, 0;
        }
        ghost var s := Rest();
        var got, b := ReadByte();
        if !got {
          return false, 0;
        }
        var group := b as nat % 0x80;
        GroupTaken(value, k, s);
        value := value + ShiftIn64(group, k);
        k := k + 1;
        if b < 0x80 {
          return true, value;
        }
      }
    }

    /** `pb_decode_varint32` */
    method DecodeVarint32() returns (ok: bool, value: nat)
      requires Valid()
      modifies this
      ensures Gave(old(pos + left), old(left), 1, ReadVarint32(old(Rest())), ok, value)
    {
      ghost var end := pos + left;
      var got, b := ReadByte();
      if !got {
        return false, 0;
      }
      if b < 0x80 {
        return true, b as nat;
      }
      var bitpos := 7;
      ghost var k: nat := 1;
      value := b as nat % 0x80;
      while true
        invariant Valid() && pos + left == end && left < old(left)
        invariant 1 <= k <= 10 && bitpos == 7 * k
        invariant ReadVarint32(old(Rest())) == Continued32(value, k, Rest())
        decreases left
      {
        got, b := ReadByte();
        if !got {
          return false, 0;
        }
        if bitpos >= 32 {
          var signExtension := if bitpos < 63 then 0xFF else 0x01;
          var validExtension := b as nat % 0x80 == 0 || (value / 0x8000_0000 != 0 && b as nat == signExtension);
          if bitpos >= 64 || !validExtension {
            return false, 0;
          }
        } else {
          value := Or32(value, b as nat % 0x80, bitpos / 7);
        }
        bitpos, k := bitpos + 7, k + 1;
        if b < 0x80 {
          break;
        }
      }
      if bitpos == 35 && b as nat / 0x10 % 8 != 0 {
        return false, 0;
      }
      return true, value;
    }

    /** `pb_skip_varint` */
    method SkipVarint() returns (ok: bool)
      requires Valid()
      modifies this
      ensures Gave(old(pos + left), old(left), 1, SkippedVarint(old(Rest())), ok, ())
    {
      ghost var end := pos + left;
      while true
        invariant Valid() && pos + left == end && left <= old(left)
        invariant SkippedVarint(old(Rest())) == SkippedVarint(Rest())
        decreases left
      {
        var got, b := ReadByte();
        if !got {
          return false;
        }
        if b < 0x80 {
          return true;
        }
      }
    }

    /** `pb_skip_field` */
    method SkipField(wireType: nat) returns (ok: bool)
      requires Valid()
      modifies this
      ensures Gave(old(pos + left), old(left), 0, Skipped(wireType, old(Rest())), ok, ())
    {
      var bytes: seq<byte>;
      if wireType == 0 {
        ok := SkipVarint();
      } else if wireType == 1 {
        ok, bytes := Read(8);
      } else if wireType == 2 {
        var size: nat;
        ok, size := DecodeVarint32();
        if ok {
          ok, bytes := Read(size);
        }
      } else if wireType == 5 {
        ok, bytes := Read(4);
      } else {
        ok := false;
      }
    }

    /** `pb_decode_fixed32` and `pb_decode_fixed64` */
    method DecodeFixed(n: nat) returns (ok: bool, value: nat)
      requires Valid() && (n == 4 || n == 8)
      modifies this
      ensures Gave(old(pos + left), old(left), 1, ReadFixed(old(Rest()), n), ok, value)
    {
      var bytes: seq<byte>;
      ReadFixedSplit(Rest(), n);
      ok, bytes := Read(n);
      if !ok {
        return false, 0;
      }
      value := LittleEndian(bytes);
    }

    /**
      `pb_make_string_substream`: the parent gives up the counted bytes at once,
      but moves past them only when the substream is closed.
     */
    method MakeSubstream() returns (ok: bool, sub: InputStream)
      requires Valid()
      modifies this
      ensures fresh(sub) && Valid() && pos + left <= old(pos + left)
      ensures ok <==> Undelimited(old(Rest())).Split?
      ensures ok ==> sub.Valid() && sub.buf == buf && sub.Rest() == Undelimited(old(Rest())).front
      ensures ok ==> sub.pos + sub.left + left == old(pos + left) && left < old(left)
      ensures ok ==> buf[sub.pos + sub.left..sub.pos + sub.left + left] == Undelimited(old(Rest())).rest
    {
      var size: nat;
      ok, size := DecodeVarint32();
      sub := new InputStream.Copy(this);
      if !ok {
        return;
      }
      if sub.left < size {
        return false, sub;
      }
      sub.left := size;
      left := left - size;
    }

    /** `pb_close_string_substream` */
    method CloseSubstream(sub: InputStream)
      requires Valid() && sub.Valid() && sub != this && sub.buf == buf && sub.pos + sub.left + left <= |buf|
      modifies this, sub
      ensures Valid() && pos == old(sub.pos + sub.left) && left == old(left)
    {
      if sub.left != 0 {
        var _, _ := sub.Read(sub.left);
      }
      pos := sub.pos;
    }
  }

  // ---- The varint loops --------------------------------------------------------------

  /** group << 7k, kept to 64 bits */
  function ShiftIn64(group: nat, k: nat): nat {
    group * Pow128(k) % 0x1_0000_0000_0000_0000
  }

  /** What a 64-bit varint means once k of its groups gave `value` and s is to come. */
  ghost function Continued(value: nat, k: nat, s: seq<byte>): Read<nat>
    requires k <= 10
  {
    var r := ReadGroups(s, 10 - k);
    if r.Bad? then Bad else Got((value + r.value * Pow128(k)) % 0x1_0000_0000_0000_0000, r.rest)
  }

  lemma GroupTaken(value: nat, k: nat, s: seq<byte>)
    requires k <= 9 && value < Pow128(k) && s != []
    ensures value + ShiftIn64(s[0] as nat % 0x80, k) < 0x1_0000_0000_0000_0000
    ensures k < 9 ==> value + ShiftIn64(s[0] as nat % 0x80, k) < Pow128(k + 1)
    ensures s[0] < 0x80 ==> Continued(value, k, s) == Got(value + ShiftIn64(s[0] as nat % 0x80, k), s[1..])
    ensures s[0] >= 0x80 ==>
      Continued(value, k, s) == Continued(value + ShiftIn64(s[0] as nat % 0x80, k), k + 1, s[1..])
  {
    var g := s[0] as nat % 0x80;
    Shifted(value, g, k);
    if s[0] < 0x80 {
      assert ReadGroups(s, 10 - k) == Got(g, s[1..]);
      GroupSum(value, g, 0, Pow128(k));
    } else {
      MoreGroups(value, k, s, g);
    }
  }

  lemma MoreGroups(value: nat, k: nat, s: seq<byte>, g: nat)
    requires k <= 9 && s != [] && s[0] >= 0x80 && g == s[0] as nat % 0x80
    requires value + ShiftIn64(g, k) < 0x1_0000_0000_0000_0000
    ensures Continued(value, k, s) == Continued(value + ShiftIn64(g, k), k + 1, s[1..])
  {
    var r := ReadGroups(s[1..], 9 - k);
    if r.Bad? {
      assert ReadGroups(s, 10 - k).Bad?;
    } else {
      assert ReadGroups(s, 10 - k) == Got(g + 0x80 * r.value, r.rest);
      assert Pow128(k + 1) == 0x80 * Pow128(k);
      GroupSum(value, g, r.value, Pow128(k));
    }
  }

  lemma GroupSum(value: nat, g: nat, r: nat, w: nat)
    requires value + g * w % 0x1_0000_0000_0000_0000 < 0x1_0000_0000_0000_0000
    ensures (value + (g + 0x80 * r) * w) % 0x1_0000_0000_0000_0000
         == (value + g * w % 0x1_0000_0000_0000_0000 + r * (0x80 * w)) % 0x1_0000_0000_0000_0000
    ensures (value + g * w) % 0x1_0000_0000_0000_0000 == value + g * w % 0x1_0000_0000_0000_0000
  {
    Distribute(g, r, w);
    Spill(value, g * w, r * (0x80 * w));
  }

  lemma Distribute(g: nat, r: nat, w: nat)
    ensures (g + 0x80 * r) * w == g * w + r * (0x80 * w)
  {
  }

  /** Bits that leave the 64 while a group is shifted in make no difference. */
  lemma Spill(value: nat, shifted: nat, above: nat)
    requires value + shifted % 0x1_0000_0000_0000_0000 < 0x1_0000_0000_0000_0000
    ensures (value + shifted + above) % 0x1_0000_0000_0000_0000
         == (value + shifted % 0x1_0000_0000_0000_0000 + above) % 0x1_0000_0000_0000_0000
    ensures (value + shifted) % 0x1_0000_0000_0000_0000 == value + shifted % 0x1_0000_0000_0000_0000
  {
    AddMultiple(value + shifted % 0x1_0000_0000_0000_0000 + above, shifted / 0x1_0000_0000_0000_0000);
    AddMultiple(value + shifted % 0x1_0000_0000_0000_0000, shifted / 0x1_0000_0000_0000_0000);
  }

  lemma AddMultiple(a: nat, q: nat)
    ensures (a + q * 0x1_0000_0000_0000_0000) % 0x1_0000_0000_0000_0000 == a % 0x1_0000_0000_0000_0000
  {
  }

  lemma Shifted(value: nat, g: nat, k: nat)
    requires k <= 9 && value < Pow128(k) && g < 0x80
    ensures value + ShiftIn64(g, k) < 0x1_0000_0000_0000_0000
    ensures k < 9 ==> value + ShiftIn64(g, k) < Pow128(k + 1)
  {
    Pow128Values();
    assert k == 0 || k == 1 || k == 2 || k == 3 || k == 4 || k == 5 || k == 6 || k == 7 || k == 8 || k == 9;
    if k < 9 {
      assert g * Pow128(k) <= 0x7F * Pow128(k);
    } else {
      TopBit(g);
    }
  }

  lemma TopBit(g: nat)
    ensures g * 0x8000_0000_0000_0000 % 0x1_0000_0000_0000_0000 <= 0x8000_0000_0000_0000
  {
    var q := g / 2;
    assert g * 0x8000_0000_0000_0000 == q * 0x1_0000_0000_0000_0000 + (g % 2) * 0x8000_0000_0000_0000;
    AddMultiple(g % 2 * 0x8000_0000_0000_0000, q);
  }

  lemma Pow128Values()
    ensures Pow128(0) == 1 && Pow128(1) == 0x80 && Pow128(2) == 0x4000 && Pow128(3) == 0x20_0000
    ensures Pow128(4) == 0x1000_0000 && Pow128(5) == 0x8_0000_0000 && Pow128(6) == 0x400_0000_0000
    ensures Pow128(7) == 0x2_0000_0000_0000 && Pow128(8) == 0x100_0000_0000_0000 && Pow128(9) == 0x8000_0000_0000_0000
  {
  }

  /** What a 32-bit varint means once k bytes with their top bit set gave `value` and s is to come. */
  ghost function Continued32(value: nat, k: nat, s: seq<byte>): Read<nat> {
    if k <= 4 then ReadLow32(s, k, value) else ReadHigh32(s, k, value)
  }

  // ---- Fixed width -------------------------------------------------------------------

  function LittleEndian(s: seq<byte>): nat {
    if s == [] then 0 else s[0] as nat + 0x100 * LittleEndian(s[1..])
  }

  lemma {:induction false} ReadFixedSplit(s: seq<byte>, n: nat)
    ensures ReadFixed(s, n) == if |s| < n then Bad else Got(LittleEndian(s[..n]), s[n..])
    decreases |s|
  {
    if n > 0 && s != [] {
      ReadFixedSplit(s[1..], n - 1);
      if n <= |s| {
        assert s[..n][1..] == s[1..][..n - 1];
        assert s[n..] == s[1..][n - 1..];
      }
    }
  }

  // ---- Values --------------------------------------------------------------------------

  /** A value cast to a signed or an unsigned integer of the given size. */
  function Cast(l: LType, n: int): int
    requires (l.Varint? || l.UVarint? || l.SVarint?) && SizeOk(l)
  {
    var offset := if l.UVarint? then 0 else Half(l.size);
    if l.size == 1 then (n + offset) % 0x100 - offset
    else if l.size == 2 then (n + offset) % 0x1_0000 - offset
    else if l.size == 4 then (n + offset) % 0x1_0000_0000 - offset
    else (n + offset) % 0x1_0000_0000_0000_0000 - offset
  }

  /** A cast changes nothing exactly on the values the type holds. */
  lemma CastExact(l: LType, n: int)
    requires (l.Varint? || l.UVarint? || l.SVarint?) && SizeOk(l)
    ensures Cast(l, n) == n <==> InRange(l, n)
  {
  }

  /** `pb_dec_bool`, `pb_dec_varint` and the fixed-width decoders */
  method DecodeNum(st: InputStream, l: LType) returns (ok: bool, n: int)
    requires st.Valid() && Packable(l)
    modifies st
    ensures st.Gave(old(st.pos + st.left), old(st.left), 1, DecodedNum(l, old(st.Rest())), ok, n)
  {
    var value: nat;
    if l.Bool? {
      ok, value := st.DecodeVarint32();
      n := if value != 0 then 1 else 0;
    } else if l.Fixed32? {
      ok, value := st.DecodeFixed(4);
      n := value;
    } else if l.Fixed64? {
      ok, value := st.DecodeFixed(8);
      n := value;
    } else {
      ok, value := st.DecodeVarint();
      if !ok {
        return false, 0;
      }
      n := if l.UVarint? then value
           else if l.SVarint? then UnZigZag(value)
           else if l.size == 8 then ToS64(value)
           else ToS32(value);
      if !SizeOk(l) {
        return false, 0;
      }
      CastExact(l, n);
      ok := Cast(l, n) == n;
    }
  }

  /** `decode_basic_field` on a value of type l; a submessage is decoded over what the member holds. */
  method DecodeValue(st: InputStream, l: LType, held: Value) returns (ok: bool, v: Value)
    requires st.Valid() && WellFormedType(l) && Stored(l, held)
    modifies st
    ensures st.Gave(old(st.pos + st.left), old(st.left), 0, DecodedValue(l, held, old(st.Rest())), ok, v)
    decreases l, 0
  {
    match l
    case Bytes(max) =>
      var size: nat, bytes: seq<byte>;
      v := held;
      ok, size := st.DecodeVarint32();
      if !ok || size > 0xFFFF || size > max {
        return false, v;
      }
      ok, bytes := st.Read(size);
      v := Blob(bytes);
    case String(capacity) =>
      var size: nat, bytes: seq<byte>;
      v := held;
      ok, size := st.DecodeVarint32();
      if !ok || size == 0xFFFF_FFFF || size + 1 > capacity {
        return false, v;
      }
      ok, bytes := st.Read(size);
      v := Blob(bytes);
    case Submessage(fs) =>
      ok, v := DecodeSubmessage(st, fs, held);
    case _ =>
      var n: int;
      ok, n := DecodeNum(st, l);
      v := Num(n);
  }

  /** `pb_dec_submessage` */
  method DecodeSubmessage(st: InputStream, fs: seq<Field>, held: Value) returns (ok: bool, v: Value)
    requires st.Valid() && WellFormed(fs) && held.Msg? && StoredMessage(fs, held.m)
    modifies st
    ensures st.Gave(old(st.pos + st.left), old(st.left), 0, DecodedValue(Submessage(fs), held, old(st.Rest())), ok, v)
    decreases fs, 3
  {
    var made, sub := st.MakeSubstream();
    if !made {
      return false, held;
    }
    var status, m := DecodeRecords(sub, fs, held.m);
    st.CloseSubstream(sub);
    return status, Msg(m);
  }

  // ---- Fields --------------------------------------------------------------------------

  /** The packed branch of `decode_static_field`: items until the substream or the array is used up. */
  method DecodePacked(st: InputStream, l: LType, held: seq<Value>, arraySize: nat) returns (ok: bool, items: seq<Value>)
    requires st.Valid() && Packable(l)
    modifies st
    ensures st.Valid() && st.pos + st.left <= old(st.pos + st.left)
    ensures ok <==> DecodedPacked(l, old(st.Rest()), held, arraySize).Ok?
    ensures ok ==> items == DecodedPacked(l, old(st.Rest()), held, arraySize).value
    ensures ok ==> st.left == 0 && st.pos == old(st.pos + st.left)
  {
    ghost var end := st.pos + st.left;
    items := held;
    while st.left > 0 && |items| < arraySize
      invariant st.Valid() && st.pos + st.left == end
      invariant DecodedPacked(l, old(st.Rest()), held, arraySize) == DecodedPacked(l, st.Rest(), items, arraySize)
      decreases st.left
    {
      var got, n := DecodeNum(st, l);
      if !got {
        return false, items;
      }
      items := items + [Num(n)];
    }
    ok := st.left == 0;
  }

  /** What a packed record means: its items go behind those the array has. */
  lemma PackedFieldMeaning(f: Field, i: nat, m: Message, s: seq<byte>)
    requires i < |m.slots| && f.h.Repeated? && m.slots[i].Many? && Packable(f.l)
    ensures var d := Undelimited(s);
      if d.Short? || DecodedPacked(f.l, d.front, m.slots[i].items, f.h.arraySize).Err?
      then DecodedField(f, i, 2, m, s).Bad?
      else
        var items := DecodedPacked(f.l, d.front, m.slots[i].items, f.h.arraySize).value;
        DecodedField(f, i, 2, m, s) == Got(m.(slots := m.slots[i := Many(items)]), d.rest)
  {
  }

  /** A packed record of field f, the i-th, whose member holds `held` */
  method DecodePackedField(st: InputStream, f: Field, i: nat, m: Message) returns (ok: bool, m': Message)
    requires st.Valid() && i < |m.slots| && f.h.Repeated? && m.slots[i].Many? && Packable(f.l)
    modifies st
    ensures st.Gave(old(st.pos + st.left), old(st.left), 0, DecodedField(f, i, 2, m, old(st.Rest())), ok, m')
  {
    PackedFieldMeaning(f, i, m, st.Rest());
    var made, sub := st.MakeSubstream();
    if !made {
      return false, m;
    }
    var got, items := DecodePacked(sub, f.l, m.slots[i].items, f.h.arraySize);
    if !got {
      return false, m;
    }
    st.CloseSubstream(sub);
    return true, m.(slots := m.slots[i := Many(items)]);
  }

  /** `decode_static_field` for field f, the i-th */
  method DecodeField(st: InputStream, f: Field, i: nat, wireType: nat, m: Message)
      returns (ok: bool, m': Message)
    requires st.Valid() && WellFormedField(f) && i < |m.slots| && StoredSlot(f, m.slots[i])
    requires f.h.OneOf? ==> f.h.union < |m.unions|
    modifies st
    ensures st.Gave(old(st.pos + st.left), old(st.left), 0, DecodedField(f, i, wireType, m, old(st.Rest())), ok, m')
    decreases f, 1
  {
    if f.h.Repeated? && wireType == 2 && Packable(f.l) {
      ok, m' := DecodePackedField(st, f, i, m);
      return;
    }
    if (f.h.Repeated? && |m.slots[i].items| >= f.h.arraySize) || wireType != WireType(f.l) {
      return false, m;
    }
    DefaultStored(f.l);
    var held := if f.h.Repeated? || f.h.OneOf? then DefaultValue(f.l) else m.slots[i].v;
    var v: Value;
    ok, v := DecodeValue(st, f.l, held);
    m' := match f.h
      case Repeated(_) => m.(slots := m.slots[i := Many(m.slots[i].items + [v])])
      case OneOf(u) => m.(unions := m.unions[u := Choice(f.tag, v)])
      case _ => m.(slots := m.slots[i := One(true, v)]);
  }

  // ---- Required fields -------------------------------------------------------------------

  /** `pb_fields_seen_t`: two words of 32 bits, one bit for each of the first 64 required fields. */
  type Bitfield = seq<seq<bool>>

  predicate TwoWords(b: Bitfield) {
    |b| == 2 && |b[0]| == 32 && |b[1]| == 32
  }

  predicate Bit(b: Bitfield, k: nat)
    requires TwoWords(b) && k < 64
  {
    b[k / 32][k % 32]
  }

  function Zeros(): (b: Bitfield)
    ensures TwoWords(b)
    ensures forall k :: 0 <= k < 64 ==> !Bit(b, k)
  {
    [seq(32, _ => false), seq(32, _ => false)]
  }

  function WithBit(b: Bitfield, k: nat): (r: Bitfield)
    requires TwoWords(b) && k < 64
    ensures TwoWords(r)
    ensures forall j :: 0 <= j < 64 ==> (Bit(r, j) <==> j == k || Bit(b, j))
  {
    var r := b[k / 32 := b[k / 32][k % 32 := true]];
    assert forall j :: 0 <= j < 64 && j / 32 == k / 32 && j % 32 == k % 32 ==> j == k;
    r
  }

  /** The bits tell which required fields were seen, and no bit stands for anything else. */
  ghost predicate Tracks(fs: seq<Field>, seen: set<nat>, b: Bitfield) {
    && TwoWords(b)
    && (forall i :: 0 <= i < |fs| && fs[i].h.Required? && RequiredBefore(fs, i) < 64 ==>
          (Bit(b, RequiredBefore(fs, i)) <==> i in seen))
    && (forall k :: 0 <= k < 64 && Bit(b, k) ==> k < RequiredBefore(fs, |fs|))
  }

  lemma TrackOne(fs: seq<Field>, seen: set<nat>, b: Bitfield, i: nat)
    requires Tracks(fs, seen, b) && i < |fs| && fs[i].h.Required?
    ensures RequiredBefore(fs, i) < 64 ==> Tracks(fs, seen + {i}, WithBit(b, RequiredBefore(fs, i)))
    ensures RequiredBefore(fs, i) >= 64 ==> Tracks(fs, seen + {i}, b)
  {
    RequiredBeforeMonotone(fs, i, |fs|);
    forall j | 0 <= j < |fs| && j != i && fs[j].h.Required?
      ensures RequiredBefore(fs, j) != RequiredBefore(fs, i)
    {
      if j < i { RequiredBeforeMonotone(fs, j, i); } else { RequiredBeforeMonotone(fs, i, j); }
    }
  }

  /** The check at the end of `pb_decode_inner`: whole words first, then the remaining bits. */
  method CheckRequired(fs: seq<Field>, ghost seen: set<nat>, b: Bitfield) returns (ok: bool)
    requires Tracks(fs, seen, b)
    ensures ok <==> AllRequiredSeen(fs, seen)
  {
    var count := RequiredBefore(fs, |fs|);
    if count > 64 {
      count := 64;
    }
    var i := 0;
    while i < count / 32
      invariant 0 <= i <= count / 32
      invariant forall k :: 0 <= k < 32 * i ==> Bit(b, k)
    {
      if b[i] != seq(32, _ => true) {
        ghost var j :| 0 <= j < 32 && !b[i][j];
        MissingBit(fs, seen, b, 32 * i + j);
        return false;
      }
      i := i + 1;
    }
    if count % 32 != 0 && b[count / 32] != seq(32, j => j < count % 32) {
      LastWord(fs, seen, b, count);
      return false;
    }
    assert forall k :: 0 <= k < count ==> Bit(b, k);
    forall i | 0 <= i < |fs| && fs[i].h.Required? && RequiredBefore(fs, i) < 64
      ensures i in seen
    {
      RequiredBeforeMonotone(fs, i, |fs|);
    }
    return true;
  }

  lemma MissingBit(fs: seq<Field>, seen: set<nat>, b: Bitfield, k: nat)
    requires Tracks(fs, seen, b) && k < 64 && k < RequiredBefore(fs, |fs|) && !Bit(b, k)
    ensures !AllRequiredSeen(fs, seen)
  {
    var i := RequiredNumbered(fs, |fs|, k);
    assert i !in seen;
  }

  /** The last word can differ from the expected one only by a bit that is missing. */
  lemma LastWord(fs: seq<Field>, seen: set<nat>, b: Bitfield, count: nat)
    requires Tracks(fs, seen, b) && count < 64 && count == RequiredBefore(fs, |fs|) && count % 32 != 0
    requires b[count / 32] != seq(32, j => j < count % 32)
    ensures !AllRequiredSeen(fs, seen)
  {
    var k := WordsDiffer(b, count);
    MissingBit(fs, seen, b, k);
  }

  lemma WordsDiffer(b: Bitfield, count: nat) returns (k: nat)
    requires TwoWords(b) && count < 64 && b[count / 32] != seq(32, j => j < count % 32)
    requires forall k :: 0 <= k < 64 && Bit(b, k) ==> k < count
    ensures k < count && !Bit(b, k)
  {
    var w := count / 32;
    var j :| 0 <= j < 32 && b[w][j] != (j < count % 32);
    k := 32 * w + j;
    assert k < 64 && k / 32 == w && k % 32 == j;
    assert Bit(b, k) == b[w][j];
  }

  // ---- Messages --------------------------------------------------------------------------

  /** The rest of a turn of the record loop: a field of the message, or a record to skip. */
  method DecodeRecord(st: InputStream, fs: seq<Field>, tag: nat, wireType: nat, m0: Message,
                      fieldsSeen0: Bitfield, ghost seen0: set<nat>)
    returns (ok: bool, m: Message, fieldsSeen: Bitfield, ghost seen: set<nat>)
    requires st.Valid() && WellFormed(fs) && StoredMessage(fs, m0) && Tracks(fs, seen0, fieldsSeen0)
    modifies st
    ensures st.Gave(
      old(st.pos + st.left), old(st.left), 0,
      DecodedRecord(fs, Header(tag, wireType), old(st.Rest()), Progress(m0, seen0)), ok, Progress(m, seen))
    ensures ok ==> StoredMessage(fs, m) && Tracks(fs, seen, fieldsSeen)
    decreases fs, 1
  {
    m, fieldsSeen, seen := m0, fieldsSeen0, seen0;
    var i := FieldIndex(fs, tag);
    if i == |fs| {
      ok := st.SkipField(wireType);
      return;
    }
    if fs[i].h.Required? {
      TrackOne(fs, seen, fieldsSeen, i);
      if RequiredBefore(fs, i) < 64 {
        fieldsSeen := WithBit(fieldsSeen, RequiredBefore(fs, i));
      }
      seen := seen + {i};
    }
    ghost var s := st.Rest();
    assert WellFormedField(fs[i]) && StoredSlot(fs[i], m.slots[i]);
    ok, m := DecodeField(st, fs[i], i, wireType, m);
    if ok { FieldStored(fs, fs[i], i, wireType, m0, s); }
  }

  /** `pb_decode_inner` over a message that is already initialised */
  method DecodeRecords(st: InputStream, fs: seq<Field>, m0: Message) returns (ok: bool, m: Message)
    requires st.Valid() && WellFormed(fs) && StoredMessage(fs, m0)
    modifies st
    ensures st.Valid() && st.pos + st.left <= old(st.pos + st.left)
    ensures ok <==> DecodedRecords(fs, old(st.Rest()), m0, {}).Ok?
    ensures ok ==> m == DecodedRecords(fs, old(st.Rest()), m0, {}).value && StoredMessage(fs, m)
    ensures ok ==> st.left == 0 && st.pos == old(st.pos + st.left)
    decreases fs, 2
  {
    ghost var end := st.pos + st.left;
    m := m0;
    var fieldsSeen := Zeros();
    ghost var seen := {};
    while st.left > 0
      invariant st.Valid() && st.pos + st.left == end
      invariant StoredMessage(fs, m) && Tracks(fs, seen, fieldsSeen)
      invariant DecodedRecords(fs, old(st.Rest()), m0, {}) == DecodedRecords(fs, st.Rest(), m, seen)
      decreases st.left
    {
      var got, temp := st.DecodeVarint32();
      if !got {
        return false, m;
      }
      var tag, wireType := temp / 8, temp % 8;
      if tag == 0 {
        return false, m;
      }
      got, m, fieldsSeen, seen := DecodeRecord(st, fs, tag, wireType, m, fieldsSeen, seen);
      if !got {
        return false, m;
      }
    }
    ok := CheckRequired(fs, seen, fieldsSeen);
  }

  /** `pb_decode` of a whole buffer */
  method Decode(bytes: seq<byte>, fs: seq<Field>) returns (ok: bool, m: Message)
    requires WellFormed(fs)
    ensures ok <==> DecodedMessage(fs, bytes).Ok?
    ensures ok ==> m == DecodedMessage(fs, bytes).value && StoredMessage(fs, m)
  {
    var st := new InputStream(bytes);
    DefaultMessageStored(fs);
    ok, m := DecodeRecords(st, fs, Default(fs));
  }
}
