/**
  The scalar layer of the Protocol Buffers wire format as nanopb writes and reads
  it: base-128 varints, zigzag, and little-endian fixed-width integers.
 */
module Wire {
  import opened Bits

  newtype byte = x: int | 0 <= x < 0x100

  /** What reading from the front of a stream gives: a value and the bytes left, or an error. */
  datatype Read<+T> = Got(value: T, rest: seq<byte>) | Bad

  // ---- Varints ---------------------------------------------------------------

  /** The base-128 form of v, least significant group first, with no superfluous group. */
  function VarintBytes(v: nat): (s: seq<byte>)
    ensures |s| >= 1
  {
    if v < 0x80 then [v as byte] else [(v % 0x80 + 0x80) as byte] + VarintBytes(v / 0x80)
  }

  /** The groups of a varint of at most n bytes. */
  function ReadGroups(s: seq<byte>, n: nat): Read<nat>
    decreases |s|
  {
    if n == 0 || s == [] then Bad
    else if s[0] < 0x80 then Got(s[0] as nat, s[1..])
    else
      var r := ReadGroups(s[1..], n - 1);
      if r.Bad? then Bad else Got(s[0] as nat - 0x80 + 0x80 * r.value, r.rest)
  }

  /** `pb_decode_varint`: at most ten bytes, kept to 64 bits. */
  function ReadVarint(s: seq<byte>): (v: Read<nat>)
    ensures v.Got? ==> v.value < 0x1_0000_0000_0000_0000
  {
    var r := ReadGroups(s, 10);
    if r.Bad? then Bad else Got(r.value % 0x1_0000_0000_0000_0000, r.rest)
  }

  function Pow128(n: nat): (p: nat)
    ensures p > 0
  {
    if n == 0 then 1 else 0x80 * Pow128(n - 1)
  }

  lemma {:induction false} GroupsOfVarint(v: nat, n: nat, t: seq<byte>)
    requires n >= 1 && v < Pow128(n)
    ensures ReadGroups(VarintBytes(v) + t, n) == Got(v, t)
    ensures |VarintBytes(v)| <= n
  {
    var s := VarintBytes(v);
    if v < 0x80 {
      assert (s + t)[1..] == t;
    } else {
      assert n > 1 by { assert Pow128(1) == 0x80 * Pow128(0); }
      GroupsOfVarint(v / 0x80, n - 1, t);
      assert (s + t)[1..] == VarintBytes(v / 0x80) + t;
    }
  }

  lemma Pow128Ten()
    ensures Pow128(10) == 0x40_0000_0000_0000_0000
  {
    assert Pow128(2) == 0x4000;
    assert Pow128(4) == 0x1000_0000;
    assert Pow128(6) == 0x400_0000_0000;
    assert Pow128(8) == 0x100_0000_0000_0000;
  }

  /** Every 64-bit value survives, whatever follows it in the stream. */
  lemma VarintRoundTrip(v: nat, t: seq<byte>)
    requires v < 0x1_0000_0000_0000_0000
    ensures ReadVarint(VarintBytes(v) + t) == Got(v, t)
    ensures |VarintBytes(v)| <= 10
  {
    TenGroups(v, 10, t);
  }

  lemma TenGroups(v: nat, n: nat, t: seq<byte>)
    requires v < 0x1_0000_0000_0000_0000 && n == 10
    ensures ReadGroups(VarintBytes(v) + t, n) == Got(v, t)
    ensures |VarintBytes(v)| <= n
  {
    Pow128Ten();
    GroupsOfVarint(v, n, t);
  }

  /** No shorter byte string reads as the same value: the encoder's form is minimal. */
  lemma {:induction false} VarintMinimal(s: seq<byte>, n: nat)
    requires ReadGroups(s, n).Got?
    ensures |s| - |ReadGroups(s, n).rest| >= |VarintBytes(ReadGroups(s, n).value)|
    decreases |s|
  {
    if s[0] >= 0x80 {
      VarintMinimal(s[1..], n - 1);
      var r := ReadGroups(s[1..], n - 1);
      var v := ReadGroups(s, n).value;
      assert v / 0x80 == r.value;
    }
  }

  // ---- The 32-bit reader ---------------------------------------------------------

  /** g << 7k for the groups that reach into 32 bits. */
  function ShiftIn(g: nat, k: nat): nat
    requires k <= 4
  {
    if k == 0 then g
    else if k == 1 then 0x80 * g
    else if k == 2 then 0x4000 * g
    else if k == 3 then 0x20_0000 * g
    else 0x1000_0000 * g
  }

  /** acc | (g << 7k) in 32 bits, where acc has nothing from bit 7k on; the last group loses its top three bits. */
  function Or32(acc: nat, g: nat, k: nat): nat
    requires k <= 4
  {
    acc + (if k < 4 then ShiftIn(g, k) else ShiftIn(g % 0x10, 4))
  }

  /** The reader within the first five bytes, k of them behind it and `acc` read so far. */
  function ReadLow32(s: seq<byte>, k: nat, acc: nat): Read<nat>
    requires k <= 4
    decreases |s|
  {
    if s == [] then Bad
    else
      var g := s[0] as nat % 0x80;
      if s[0] < 0x80 then
        if k == 4 && g >= 0x10 then Bad else Got(Or32(acc, g, k), s[1..])
      else if k < 4 then ReadLow32(s[1..], k + 1, Or32(acc, g, k))
      else ReadHigh32(s[1..], 5, Or32(acc, g, k))
  }

  /** The reader after five bytes: only padding or a sign extension may follow, up to ten bytes in all. */
  function ReadHigh32(s: seq<byte>, k: nat, acc: nat): Read<nat>
    decreases |s|
  {
    if s == [] || k >= 10 then Bad
    else
      var signExtension := if k < 9 then 0xFF else 0x01;
      if s[0] as nat % 0x80 == 0 || (acc >= 0x8000_0000 && s[0] as nat == signExtension) then
        if s[0] < 0x80 then Got(acc, s[1..]) else ReadHigh32(s[1..], k + 1, acc)
      else Bad
  }

  /** `pb_decode_varint32` */
  function ReadVarint32(s: seq<byte>): Read<nat> {
    ReadLow32(s, 0, 0)
  }

  /** A group below the fifth, and the groups above it. */
  lemma NextGroup(acc: nat, g: nat, rest: nat, k: nat)
    requires k < 4 && g < 0x80
    ensures acc + ShiftIn(g + 0x80 * rest, k) == Or32(acc, g, k) + ShiftIn(rest, k + 1)
    ensures acc < ShiftIn(1, k) ==> Or32(acc, g, k) < ShiftIn(1, k + 1) < 0x1_0000_0000
  {
  }

  /** The fifth group, and the groups above it, which fall outside 32 bits. */
  lemma TopGroup(acc: nat, g: nat, rest: nat)
    requires g < 0x80
    ensures acc + ShiftIn(g + 0x80 * rest, 4) == Or32(acc, g, 4) + 0x1_0000_0000 * (g / 0x10 + 8 * rest)
    ensures acc < ShiftIn(1, 4) ==> Or32(acc, g, 4) < 0x1_0000_0000
  {
  }

  /** It recovers every 32-bit value. */
  lemma Varint32RoundTrip(v: nat, t: seq<byte>)
    requires v < 0x1_0000_0000
    ensures ReadVarint32(VarintBytes(v) + t) == Got(v, t)
  {
    Low32RoundTrip(v, 0, 0, t);
  }

  lemma {:induction false} Low32RoundTrip(v: nat, k: nat, acc: nat, t: seq<byte>)
    requires k <= 4 && ShiftIn(v, k) < 0x1_0000_0000
    ensures ReadLow32(VarintBytes(v) + t, k, acc) == Got(acc + ShiftIn(v, k), t)
    decreases v
  {
    var s := VarintBytes(v) + t;
    if v < 0x80 {
      assert s[1..] == t;
    } else {
      assert s[0] as nat % 0x80 == v % 0x80 && s[1..] == VarintBytes(v / 0x80) + t;
      NextGroup(acc, v % 0x80, v / 0x80, k);
      Low32RoundTrip(v / 0x80, k + 1, Or32(acc, v % 0x80, k), t);
    }
  }

  /** Whatever it accepts, the 64-bit reader accepts too, with the same bytes consumed and the same low 32 bits. */
  lemma Varint32Agrees(s: seq<byte>)
    requires ReadVarint32(s).Got?
    ensures ReadVarint(s).Got? && ReadVarint(s).rest == ReadVarint32(s).rest
    ensures ReadVarint(s).value % 0x1_0000_0000 == ReadVarint32(s).value < 0x1_0000_0000
  {
    var h := Low32Agrees(s, 0, 0, 10);
    LowHalf(ReadGroups(s, 10).value, ReadVarint32(s).value, h);
  }

  lemma LowHalf(v: nat, low: nat, h: nat)
    requires v == low + 0x1_0000_0000 * h && low < 0x1_0000_0000
    ensures (v % 0x1_0000_0000_0000_0000) % 0x1_0000_0000 == low
  {
    var a, b := h / 0x1_0000_0000, h % 0x1_0000_0000;
    assert h == 0x1_0000_0000 * a + b;
    assert v == a * 0x1_0000_0000_0000_0000 + (low + 0x1_0000_0000 * b);
    DivModUnique(v, 0x1_0000_0000_0000_0000, a, low + 0x1_0000_0000 * b);
    DivModUnique(low + 0x1_0000_0000 * b, 0x1_0000_0000, b, low);
  }

  /** One group and all later ones, against what the reader keeps of them; h is what falls outside 32 bits. */
  lemma {:induction false} Low32Agrees(s: seq<byte>, k: nat, acc: nat, n: nat) returns (h: nat)
    requires k <= 4 && acc < ShiftIn(1, k) && n == 10 - k
    requires ReadLow32(s, k, acc).Got?
    ensures ReadGroups(s, n).Got? && ReadGroups(s, n).rest == ReadLow32(s, k, acc).rest
    ensures acc + ShiftIn(ReadGroups(s, n).value, k) == ReadLow32(s, k, acc).value + 0x1_0000_0000 * h
    ensures ReadLow32(s, k, acc).value < 0x1_0000_0000
    decreases |s|
  {
    if s[0] < 0x80 {
      h := 0;
      Last32Agrees(s, k, acc, n);
    } else if k == 4 {
      h := Top32Agrees(s, acc, n);
    } else {
      var g := s[0] as nat % 0x80;
      NextGroup(acc, g, 0, k);
      assert ReadLow32(s, k, acc) == ReadLow32(s[1..], k + 1, Or32(acc, g, k));
      h := Low32Agrees(s[1..], k + 1, Or32(acc, g, k), n - 1);
      var r := ReadGroups(s[1..], n - 1);
      assert ReadGroups(s, n) == Got(g + 0x80 * r.value, r.rest);
      NextGroup(acc, g, r.value, k);
    }
  }

  lemma Last32Agrees(s: seq<byte>, k: nat, acc: nat, n: nat)
    requires k <= 4 && acc < ShiftIn(1, k) && n >= 1
    requires ReadLow32(s, k, acc).Got? && s[0] < 0x80
    ensures ReadGroups(s, n).Got? && ReadGroups(s, n).rest == ReadLow32(s, k, acc).rest
    ensures acc + ShiftIn(ReadGroups(s, n).value, k) == ReadLow32(s, k, acc).value < 0x1_0000_0000
  {
    var g := s[0] as nat;
    if k < 4 { NextGroup(acc, g, 0, k); } else { TopGroup(acc, g, 0); }
  }

  lemma Top32Agrees(s: seq<byte>, acc: nat, n: nat) returns (h: nat)
    requires acc < ShiftIn(1, 4) && n == 6
    requires ReadLow32(s, 4, acc).Got? && s[0] >= 0x80
    ensures ReadGroups(s, n).Got? && ReadGroups(s, n).rest == ReadLow32(s, 4, acc).rest
    ensures acc + ShiftIn(ReadGroups(s, n).value, 4) == ReadLow32(s, 4, acc).value + 0x1_0000_0000 * h
    ensures ReadLow32(s, 4, acc).value < 0x1_0000_0000
  {
    var g := s[0] as nat % 0x80;
    assert ReadLow32(s, 4, acc) == ReadHigh32(s[1..], 5, Or32(acc, g, 4));
    High32Agrees(s[1..], 5, Or32(acc, g, 4), n - 1);
    var r := ReadGroups(s[1..], n - 1);
    assert ReadGroups(s, n) == Got(g + 0x80 * r.value, r.rest);
    TopGroup(acc, g, r.value);
    h := g / 0x10 + 8 * r.value;
  }

  lemma {:induction false} High32Agrees(s: seq<byte>, k: nat, acc: nat, n: nat)
    requires 5 <= k && n + k == 10 && ReadHigh32(s, k, acc).Got?
    ensures ReadGroups(s, n).Got? && ReadGroups(s, n).rest == ReadHigh32(s, k, acc).rest
    ensures ReadHigh32(s, k, acc).value == acc
    decreases |s|
  {
    if s[0] >= 0x80 {
      High32Agrees(s[1..], k + 1, acc, n - 1);
    }
  }

  /** Above 32 bits it accepts only what could be the sign extension of a negative value. */
  lemma {:induction false} HighOfVarint(v: nat, k: nat, acc: nat, t: seq<byte>)
    requires 5 <= k <= 9 && acc >= 0x8000_0000 && v == SignGroups(k)
    ensures ReadHigh32(VarintBytes(v) + t, k, acc) == Got(acc, t)
    decreases 9 - k
  {
    var s := VarintBytes(v) + t;
    if k < 9 {
      assert s[1..] == VarintBytes(v / 0x80) + t;
      HighOfVarint(v / 0x80, k + 1, acc, t);
    } else {
      assert s[1..] == t;
    }
  }

  /** The groups from the k-th on of a negative value sign-extended to 64 bits. */
  function SignGroups(k: nat): nat
    requires 5 <= k <= 9
    decreases 9 - k
  {
    if k == 9 then 1 else 0x7F + 0x80 * SignGroups(k + 1)
  }

  // ---- Signed values ---------------------------------------------------------------

  /** The 64-bit pattern of a signed value, and the signed value of a pattern. */
  function ToU64(n: int): (v: nat)
    requires -0x8000_0000_0000_0000 <= n < 0x8000_0000_0000_0000
    ensures v < 0x1_0000_0000_0000_0000
  {
    if n < 0 then n + 0x1_0000_0000_0000_0000 else n
  }

  function ToS64(v: nat): (n: int)
    requires v < 0x1_0000_0000_0000_0000
    ensures -0x8000_0000_0000_0000 <= n < 0x8000_0000_0000_0000
  {
    if v < 0x8000_0000_0000_0000 then v else v - 0x1_0000_0000_0000_0000
  }

  function Not64(v: nat): (r: nat)
    requires v < 0x1_0000_0000_0000_0000
    ensures r < 0x1_0000_0000_0000_0000
  {
    0xFFFF_FFFF_FFFF_FFFF - v
  }

  /** v << 1 in 64 bits. */
  function Double64(v: nat): (r: nat)
    requires v < 0x1_0000_0000_0000_0000
    ensures r < 0x1_0000_0000_0000_0000
  {
    if v < 0x8000_0000_0000_0000 then 2 * v else 2 * v - 0x1_0000_0000_0000_0000
  }

  /** The mapping of `pb_encode_svarint`. */
  function ZigZag(n: int): (v: nat)
    requires -0x8000_0000_0000_0000 <= n < 0x8000_0000_0000_0000
    ensures v < 0x1_0000_0000_0000_0000
  {
    if n < 0 then Not64(Double64(ToU64(n))) else Double64(ToU64(n))
  }

  /** The mapping of `pb_decode_svarint`. */
  function UnZigZag(v: nat): (n: int)
    requires v < 0x1_0000_0000_0000_0000
    ensures -0x8000_0000_0000_0000 <= n < 0x8000_0000_0000_0000
  {
    if v % 2 == 1 then ToS64(Not64(v / 2)) else ToS64(v / 2)
  }

  /** Zigzag is a bijection between the signed and the unsigned 64-bit values. */
  lemma ZigZagInverse(n: int)
    requires -0x8000_0000_0000_0000 <= n < 0x8000_0000_0000_0000
    ensures UnZigZag(ZigZag(n)) == n
    ensures ZigZag(n) == if n < 0 then -2 * n - 1 else 2 * n
  {
  }

  lemma UnZigZagInverse(v: nat)
    requires v < 0x1_0000_0000_0000_0000
    ensures ZigZag(UnZigZag(v)) == v
  {
  }

  /** A negative 32-bit value is written sign-extended to 64 bits, and the 32-bit reader still recovers its pattern. */
  lemma Varint32OfNegative(n: int, t: seq<byte>)
    requires -0x8000_0000 <= n < 0
    ensures ReadVarint32(VarintBytes(ToU64(n)) + t) == Got(n + 0x1_0000_0000, t)
  {
    var v := ToU64(n);
    assert v == 0x1_0000_0000_0000_0000 + n;
    NegativeGroups(v, n + 0x1_0000_0000, 0, 0, t);
  }

  /** The first five groups of a sign-extended negative value, of which `low` is the 32-bit pattern from group k on. */
  lemma {:induction false} NegativeGroups(v: nat, low: nat, k: nat, acc: nat, t: seq<byte>)
    requires k <= 4 && ShiftIn(low, k) < 0x1_0000_0000 && acc < ShiftIn(1, k)
    requires acc + ShiftIn(low, k) >= 0x8000_0000
    requires v == low + HighPart(k)
    ensures ReadLow32(VarintBytes(v) + t, k, acc) == Got(acc + ShiftIn(low, k), t)
    decreases 4 - k
  {
    var s := VarintBytes(v) + t;
    HighPartSplit(v, low, k);
    assert s[0] as nat % 0x80 == v % 0x80 && s[1..] == VarintBytes(v / 0x80) + t;
    if k < 4 {
      NextGroup(acc, low % 0x80, low / 0x80, k);
      NegativeGroups(v / 0x80, low / 0x80, k + 1, Or32(acc, low % 0x80, k), t);
    } else {
      HighOfVarint(v / 0x80, 5, Or32(acc, v % 0x80, 4), t);
    }
  }

  lemma HighPartSplit(v: nat, low: nat, k: nat)
    requires k <= 4 && ShiftIn(low, k) < 0x1_0000_0000 && v == low + HighPart(k)
    ensures v >= 0x80
    ensures k < 4 ==> v % 0x80 == low % 0x80 && v / 0x80 == low / 0x80 + HighPart(k + 1)
    ensures k == 4 ==> v % 0x80 % 0x10 == low && v / 0x80 == 0x1FFF_FFFF == SignGroups(5)
  {
    if k == 4 {
      assert SignGroups(7) == 0x7FFF;
      assert v == low + 0x70 + 0x80 * 0x1FFF_FFFF;
    } else {
      assert HighPart(k) == 0x80 * HighPart(k + 1);
    }
  }

  /** 2^(64-7k) - 2^(32-7k): the ones above a 32-bit pattern, shifted down by k groups. */
  function HighPart(k: nat): nat
    requires k <= 4
  {
    if k == 0 then 0x1_0000_0000_0000_0000 - 0x1_0000_0000
    else if k == 1 then 0x200_0000_0000_0000 - 0x200_0000
    else if k == 2 then 0x4_0000_0000_0000 - 0x4_0000
    else if k == 3 then 0x800_0000_0000 - 0x800
    else 0x10_0000_0000 - 0x10
  }

  // ---- Fixed width -------------------------------------------------------------------

  /** The n low bytes of v, least significant first. */
  function FixedBytes(v: nat, n: nat): (s: seq<byte>)
    ensures |s| == n
  {
    if n == 0 then [] else [(v % 0x100) as byte] + FixedBytes(v / 0x100, n - 1)
  }

  function ReadFixed(s: seq<byte>, n: nat): Read<nat>
    decreases |s|
  {
    if n == 0 then Got(0, s)
    else if s == [] then Bad
    else
      var r := ReadFixed(s[1..], n - 1);
      if r.Bad? then Bad else Got(s[0] as nat + 0x100 * r.value, r.rest)
  }

  function Pow256(n: nat): (p: nat)
    ensures p > 0
  {
    if n == 0 then 1 else 0x100 * Pow256(n - 1)
  }

  lemma {:induction false} FixedRoundTrip(v: nat, n: nat, t: seq<byte>)
    requires v < Pow256(n)
    ensures ReadFixed(FixedBytes(v, n) + t, n) == Got(v, t)
  {
    if n > 0 {
      FixedRoundTrip(v / 0x100, n - 1, t);
      assert (FixedBytes(v, n) + t)[1..] == FixedBytes(v / 0x100, n - 1) + t;
    } else {
      assert FixedBytes(v, n) + t == t;
    }
  }

  // ---- Every reader consumes a prefix of its input -------------------------------

  /** `rest` is what is left of s after at least n bytes. */
  predicate Consumed(s: seq<byte>, rest: seq<byte>, n: nat) {
    |rest| + n <= |s| && s[|s| - |rest|..] == rest
  }

  lemma {:induction false} GroupsConsume(s: seq<byte>, n: nat)
    requires ReadGroups(s, n).Got?
    ensures Consumed(s, ReadGroups(s, n).rest, 1)
    decreases |s|
  {
    if s[0] >= 0x80 {
      GroupsConsume(s[1..], n - 1);
    }
  }

  lemma Varint32Consumes(s: seq<byte>)
    requires ReadVarint32(s).Got?
    ensures Consumed(s, ReadVarint32(s).rest, 1)
  {
    Varint32Agrees(s);
    GroupsConsume(s, 10);
  }
}
