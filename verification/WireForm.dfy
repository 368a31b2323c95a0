/**
  The form of the encoding on the wire, said without the decoder's own view of a
  member: digits and bytes at their places, and what readers of any width make of it.
 */
module WireForm {
  import opened Bits
  import opened Basics
  import opened Wire
  import opened Schema
  import opened Encoder
  import opened Decoder
  import opened RoundTrip
  import opened UnknownFields

  // ---- Digits --------------------------------------------------------------------------

  /** Byte k of a varint is digit k to the base 128, with the top bit set on all but the last. */
  lemma {:induction false} VarintByteAt(v: nat, k: nat)
    requires k < |VarintBytes(v)|
    ensures VarintBytes(v)[k] as nat == v / Pow128(k) % 0x80 + (if k < |VarintBytes(v)| - 1 then 0x80 else 0)
    decreases k
  {
    if k > 0 {
      VarintByteAt(v / 0x80, k - 1);
      DivTwice(v, 0x80, Pow128(k - 1));
      assert VarintBytes(v)[k] == VarintBytes(v / 0x80)[k - 1];
    }
  }

  lemma DivTwice(v: nat, a: nat, b: nat)
    requires a > 0 && b > 0
    ensures a * b > 0 && v / a / b == v / (a * b)
  {
    MulLe(1, a, b);
    DivBounds(v, a);
    DivBounds(v / a, b);
    var q, r, s := v / a / b, v / a % b, v % a;
    assert v == a * (b * q + r) + s;
    assert a * (b * q + r) == (a * b) * q + a * r;
    MulLe(r + 1, b, a);
    assert a * r + s < a * b;
    DivModUnique(v, a * b, q, a * r + s);
  }

  /** It has as many digits as the value calls for, and no leading zeros. */
  lemma {:induction false} VarintDigits(v: nat)
    ensures v < Pow128(|VarintBytes(v)|)
    ensures |VarintBytes(v)| > 1 ==> v >= Pow128(|VarintBytes(v)| - 1)
  {
    if v >= 0x80 {
      VarintDigits(v / 0x80);
    }
  }

  lemma {:induction false} LongerForMore(a: nat, b: nat)
    requires a <= b
    ensures |VarintBytes(a)| <= |VarintBytes(b)|
    decreases a
  {
    if a >= 0x80 {
      LongerForMore(a / 0x80, b / 0x80);
    }
  }

  /** No shorter bytes read as the same 64-bit value, not even by overflowing. */
  lemma ShortestVarint(s: seq<byte>)
    requires ReadVarint(s).Got?
    ensures |s| - |ReadVarint(s).rest| >= |VarintBytes(ReadVarint(s).value)|
  {
    VarintMinimal(s, 10);
    LongerForMore(ReadVarint(s).value, ReadGroups(s, 10).value);
  }

  /** Byte k of a fixed-width integer is digit k to the base 256: least significant first. */
  lemma {:induction false} FixedByteAt(v: nat, n: nat, k: nat)
    requires k < n
    ensures FixedBytes(v, n)[k] as nat == v / Pow256(k) % 0x100
    decreases k
  {
    if k > 0 {
      FixedByteAt(v / 0x100, n - 1, k - 1);
      DivTwice(v, 0x100, Pow256(k - 1));
      assert FixedBytes(v, n)[k] == FixedBytes(v / 0x100, n - 1)[k - 1];
    }
  }

  // ---- What any reader makes of a number ---------------------------------------------------

  /** The widest type that is written in the same way. */
  function Widest(l: LType): LType {
    match l
    case Bool => UVarint(8)
    case Varint(_) => Varint(8)
    case UVarint(_) => UVarint(8)
    case SVarint(_) => SVarint(8)
    case _ => l
  }

  /**
    A reader of the widest type, which sees the whole of a number, reads just what was
    written, whatever the size of the member it was written from; and no shorter bytes
    read so.
   */
  lemma {:induction false} AnyReaderSees(l: LType, n: int, t: seq<byte>)
    requires EncodedNum(l, n).Some?
    ensures l.Bool? || l.UVarint? ==> DecodedNum(UVarint(8), EncodedNum(l, n).value + t) == Got(n, t)
    ensures l.Varint? ==> DecodedNum(Varint(8), EncodedNum(l, n).value + t) == Got(n, t)
    ensures l.SVarint? ==> DecodedNum(SVarint(8), EncodedNum(l, n).value + t) == Got(n, t)
  {
    match l
    case Bool => VarintRoundTrip(n, t);
    case Varint(_) => VarintRoundTrip(ToU64(n), t);
    case UVarint(_) => VarintRoundTrip(n, t);
    case SVarint(_) =>
      VarintRoundTrip(ZigZag(n), t);
      ZigZagInverse(n);
    case _ =>
  }

  lemma {:induction false} NoShorterForm(l: LType, n: int, s: seq<byte>)
    requires EncodedNum(l, n).Some? && DecodedNum(Widest(l), s).Got? && DecodedNum(Widest(l), s).value == n
    ensures |s| - |DecodedNum(Widest(l), s).rest| >= |EncodedNum(l, n).value|
  {
    match l
    case Fixed32 => FixedConsumes(s, 4);
    case Fixed64 => FixedConsumes(s, 8);
    case Bool => ShortestVarint(s);
    case Varint(_) => ShortestVarint(s);
    case UVarint(_) => ShortestVarint(s);
    case SVarint(_) => ShortestVarint(s); UnZigZagInverse(ReadVarint(s).value);
    case _ =>
  }

  lemma {:induction false} FixedConsumes(s: seq<byte>, n: nat)
    requires ReadFixed(s, n).Got?
    ensures |s| - |ReadFixed(s, n).rest| == n
    decreases |s|
  {
    if n > 0 {
      FixedConsumes(s[1..], n - 1);
    }
  }

  // ---- Readers of different widths ------------------------------------------------------------

  /** An unsigned or zigzag reader of any size reads what the widest does, if it is in range, and fails otherwise. */
  lemma WidthsAgree(l: LType, s: seq<byte>)
    requires (l.UVarint? || l.SVarint?) && SizeOk(l)
    ensures DecodedNum(l, s).Got? <==> DecodedNum(Widest(l), s).Got? && InRange(l, DecodedNum(Widest(l), s).value)
    ensures DecodedNum(l, s).Got? ==> DecodedNum(l, s) == DecodedNum(Widest(l), s)
  {
  }

  /**
    A signed reader of less than 64 bits looks at the low 32 bits only: it reads the one
    32-bit number that agrees with the whole in these, if it is in range.
   */
  lemma {:induction false} SignedWidthsAgree(l: LType, s: seq<byte>)
    requires l.Varint? && SizeOk(l) && l.size != 8
    ensures DecodedNum(l, s).Got? <==>
      DecodedNum(Varint(8), s).Got?
      && exists n: int :: InRange(l, n) && (DecodedNum(Varint(8), s).value - n) % 0x1_0000_0000 == 0
    ensures DecodedNum(l, s).Got? ==>
      && DecodedNum(l, s).rest == DecodedNum(Varint(8), s).rest && InRange(l, DecodedNum(l, s).value)
      && (DecodedNum(Varint(8), s).value - DecodedNum(l, s).value) % 0x1_0000_0000 == 0
  {
    var r := ReadVarint(s);
    if r.Got? {
      var wide, low := ToS64(r.value), ToS32(r.value);
      SameLowBits(r.value);
      forall n: int | InRange(l, n) && (wide - n) % 0x1_0000_0000 == 0 ensures n == low {
        OnlyOne(wide, low, n);
      }
    }
  }

  lemma SameLowBits(v: nat)
    requires v < 0x1_0000_0000_0000_0000
    ensures (ToS64(v) - ToS32(v)) % 0x1_0000_0000 == 0 && -0x8000_0000 <= ToS32(v) < 0x8000_0000
  {
    var q, low := v / 0x1_0000_0000, v % 0x1_0000_0000;
    assert v == q * 0x1_0000_0000 + low;
  }

  lemma OnlyOne(wide: int, a: int, b: int)
    requires (wide - a) % 0x1_0000_0000 == 0 && (wide - b) % 0x1_0000_0000 == 0
    requires -0x8000_0000 <= a < 0x8000_0000 && -0x8000_0000 <= b < 0x8000_0000
    ensures a == b
  {
    var p, q := (wide - a) / 0x1_0000_0000, (wide - b) / 0x1_0000_0000;
    assert a - b == (q - p) * 0x1_0000_0000;
  }

  /** What fits is read alike by every signed reader. */
  lemma SignedInRange(l: LType, s: seq<byte>)
    requires l.Varint? && SizeOk(l) && DecodedNum(Varint(8), s).Got? && InRange(l, DecodedNum(Varint(8), s).value)
    ensures DecodedNum(l, s) == DecodedNum(Varint(8), s)
  {
  }

  /** Any number but zero reads as true. */
  lemma BooleanReads(s: seq<byte>)
    requires ReadVarint32(s).Got?
    ensures DecodedNum(UVarint(8), s).Got? && DecodedNum(Bool, s).rest == DecodedNum(UVarint(8), s).rest
    ensures DecodedNum(Bool, s).value == if DecodedNum(UVarint(8), s).value % 0x1_0000_0000 == 0 then 0 else 1
  {
    Varint32Agrees(s);
  }

  // ---- Records --------------------------------------------------------------------------------

  /** The tag before every value: eight times the field number, plus the wire type of the value. */
  lemma RecordTag(f: Field, v: Value, t: seq<byte>)
    requires WellFormedField(f) && EncodedRecord(f, v).Some?
    ensures ReadVarint(EncodedRecord(f, v).value + t)
      == Got(
        8 * f.tag
          + (match f.l
             case Bool => 0
             case Varint(_) => 0
             case UVarint(_) => 0
             case SVarint(_) => 0
             case Fixed64 => 1
             case Bytes(_) => 2
             case String(_) => 2
             case Submessage(_) => 2
             case Fixed32 => 5),
        EncodedValue(f.l, v).value + t)
  {
    var e := EncodedValue(f.l, v).value;
    AppendAssoc(TagBytes(f.tag, WireType(f.l)), e, t);
    VarintRoundTrip(f.tag * 8 + WireType(f.l), e + t);
  }

  // ---- What is refused ----------------------------------------------------------------------------

  /** A varint: bytes with the top bit set, and one without. */
  predicate IsVarint(p: seq<byte>) {
    p != [] && p[|p| - 1] < 0x80 && forall k :: 0 <= k < |p| - 1 ==> p[k] >= 0x80
  }

  lemma {:induction false} SkippedIsVarint(p: seq<byte>)
    ensures SkippedVarint(p) == Got((), []) <==> IsVarint(p)
  {
    if p != [] && p[0] >= 0x80 {
      SkippedIsVarint(p[1..]);
      var q := p[1..];
      if IsVarint(q) {
        assert forall k :: 1 <= k < |p| - 1 ==> p[k] == q[k - 1];
        assert p[|p| - 1] == q[|q| - 1];
      }
      if IsVarint(p) {
        assert forall k :: 0 <= k < |q| - 1 ==> q[k] == p[k + 1];
      }
    }
  }

  /**
    The payloads of the wire types: a varint of any length, eight bytes, a length and as
    many bytes, four bytes.  There are no others.
   */
  lemma PayloadExactly(wireType: nat, p: seq<byte>)
    ensures Payload(wireType, p) <==>
      || (wireType == 0 && IsVarint(p))
      || (wireType == 1 && |p| == 8)
      || (wireType == 2 && ReadVarint32(p).Got? && |ReadVarint32(p).rest| == ReadVarint32(p).value)
      || (wireType == 5 && |p| == 4)
  {
    if wireType == 0 { SkippedIsVarint(p); }
    if wireType == 2 && Payload(2, p) {
      var r := ReadVarint32(p);
      assert r.rest[r.value..] == [];
    }
  }

  /** A record of another wire type, group markers among them, is refused by every message type. */
  lemma OtherWireTypesRefused(fs: seq<Field>, s: seq<byte>, m: Message, seen: set<nat>)
    requires ReadHeader(s).Got? && ReadHeader(s).value.wireType !in {0, 1, 2, 5}
    ensures DecodedRecords(fs, s, m, seen).Err?
  {
    var h := ReadHeader(s);
    var i := FieldIndex(fs, h.value.tag);
    if i < |fs| { MismatchRefused(fs[i], i, h.value.wireType, m, h.rest); }
  }

  /** So is a field in another wire type than its own, packed arrays apart. */
  lemma MismatchRefused(f: Field, i: nat, wireType: nat, m: Message, s: seq<byte>)
    requires wireType != WireType(f.l) && !(f.h.Repeated? && Packable(f.l) && wireType == 2)
    ensures DecodedField(f, i, wireType, m, s).Bad?
  {
    if f.h.Required? || f.h.Optional? { assert DecodedSingle(f, i, wireType, m, s).Bad?; }
  }

  /** And so is field number 0. */
  lemma ZeroTagRefused(fs: seq<Field>, s: seq<byte>, m: Message, seen: set<nat>)
    requires ReadVarint32(s).Got? && ReadVarint32(s).value < 8
    ensures DecodedRecords(fs, s, m, seen).Err?
  {
    Varint32Consumes(s);
  }
}
