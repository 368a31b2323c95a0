/** Records byte for byte, as the Protocol Buffers encoding has them. */
module WireExamples {
  import opened Basics
  import opened Wire
  import opened Schema
  import opened Encoder

  lemma OneDigit(v: nat)
    requires v < 0x80
    ensures VarintBytes(v) == [v as byte]
  {
  }

  lemma TwoDigits(v: nat, low: byte, high: byte)
    requires 0x80 <= v < 0x4000 && low as nat == v % 0x80 + 0x80 && high as nat == v / 0x80
    ensures VarintBytes(v) == [low, high]
  {
    OneDigit(v / 0x80);
    assert [low] + [high] == [low, high];
  }

  /** A tag of one byte, and the value after it. */
  lemma Record(f: Field, v: Value, tag: byte, e: seq<byte>)
    requires f.tag * 8 + WireType(f.l) == tag as nat < 0x80 && EncodedValue(f.l, v) == Some(e)
    ensures EncodedRecord(f, v) == Some([tag] + e)
  {
    OneDigit(tag as nat);
  }

  /** Field 1, the number 150. */
  lemma Number()
    ensures EncodedRecord(Field(1, Required, Varint(4)), Num(150)) == Some([0x08, 0x96, 0x01])
  {
    TwoDigits(150, 0x96, 0x01);
    Record(Field(1, Required, Varint(4)), Num(150), 0x08, [0x96, 0x01]);
    assert [0x08] + [0x96, 0x01] == [0x08, 0x96, 0x01];
  }

  /** 2^(7k + 1) - 1, and its form: k bytes of ones, and a last 1. */
  function Ones(k: nat): nat {
    if k == 0 then 1 else 0x80 * Ones(k - 1) + 0x7F
  }

  function OnesForm(k: nat): seq<byte> {
    seq(k, _ => 0xFF) + [0x01]
  }

  lemma {:induction false} AllOnes(k: nat)
    ensures Ones(k) > 0 && VarintBytes(Ones(k)) == OnesForm(k)
  {
    if k > 0 {
      AllOnes(k - 1);
      assert [0xFF] + OnesForm(k - 1) == OnesForm(k);
    } else {
      assert OnesForm(0) == [0x01];
    }
  }

  lemma NineOnes()
    ensures Ones(9) == 0xFFFF_FFFF_FFFF_FFFF
  {
    assert Ones(3) == 0x3F_FFFF;
    assert Ones(6) == 0x7FF_FFFF_FFFF;
  }

  /** Field 1, the number -1, of whatever size its member is: nine bytes of ones, and a last 1. */
  lemma MinusOne(size: nat)
    requires Half(size) != 0
    ensures EncodedRecord(Field(1, Required, Varint(size)), Num(-1)) == Some([0x08] + (seq(9, _ => 0xFF) + [0x01]))
  {
    AllOnes(9);
    NineOnes();
    Record(Field(1, Required, Varint(size)), Num(-1), 0x08, OnesForm(9));
    assert OnesForm(9) == seq(9, _ => 0xFF) + [0x01];
  }

  /** Field 1, zigzag numbers. */
  lemma ZigZagNumber(n: int, b: byte)
    requires (n == -1 && b == 1) || (n == 1 && b == 2) || (n == -2 && b == 3)
    ensures EncodedRecord(Field(1, Required, SVarint(4)), Num(n)) == Some([0x08, b])
  {
    ZigZagInverse(n);
    OneDigit(b as nat);
    Record(Field(1, Required, SVarint(4)), Num(n), 0x08, [b]);
    assert [0x08] + [b] == [0x08, b];
  }

  lemma {:induction false} Terminated(s: seq<byte>)
    requires forall i :: 0 <= i < |s| ==> s[i] != 0
    ensures CString(s + [0]) == s
  {
    if s != [] {
      assert forall i :: 0 <= i < |s[1..]| ==> s[1..][i] == s[i + 1];
      Terminated(s[1..]);
      assert (s + [0])[1..] == s[1..] + [0];
    }
  }

  /** Field 2, a string of seven bytes: tag, length, and the bytes without the terminator. */
  lemma Text(s: seq<byte>)
    requires |s| == 7 && forall i :: 0 <= i < |s| ==> s[i] != 0
    ensures EncodedRecord(Field(2, Required, String(8)), Blob(s + [0])) == Some([0x12, 0x07] + s)
  {
    Terminated(s);
    OneDigit(7);
    Record(Field(2, Required, String(8)), Blob(s + [0]), 0x12, [0x07] + s);
    assert [0x12] + ([0x07] + s) == [0x12, 0x07] + s;
  }

  /** Field 3, a message whose field 1 is the number 150. */
  lemma Nested()
    ensures EncodedRecord(
        Field(3, Required, Submessage([Field(1, Required, Varint(4))])), Msg(Message([One(true, Num(150))], [])))
      == Some([0x1A, 0x03, 0x08, 0x96, 0x01])
  {
    var fs, m := [Field(1, Required, Varint(4))], Message([One(true, Num(150))], []);
    Number();
    assert EncodedUpTo(fs, m, 0) == Some([]);
    assert [] + [0x08 as byte, 0x96, 0x01] == [0x08, 0x96, 0x01];
    assert EncodedUpTo(fs, m, 1) == Some([0x08, 0x96, 0x01]);
    OneDigit(3);
    assert [0x03] + [0x08 as byte, 0x96, 0x01] == [0x03, 0x08, 0x96, 0x01];
    Record(Field(3, Required, Submessage(fs)), Msg(m), 0x1A, [0x03, 0x08, 0x96, 0x01]);
    assert [0x1A] + [0x03 as byte, 0x08, 0x96, 0x01] == [0x1A, 0x03, 0x08, 0x96, 0x01];
  }

  /** Field 4, the array 3, 270, 86942, packed. */
  lemma Array()
    ensures EncodedArray(Field(4, Repeated(8), UVarint(4)), 8, [Num(3), Num(270), Num(86942)])
      == Some([0x22, 0x06, 0x03, 0x8E, 0x02, 0x9E, 0xA7, 0x05])
  {
    var l := UVarint(4);
    OneDigit(3);
    TwoDigits(270, 0x8E, 0x02);
    ThreeDigits();
    ThreeItems(l, Num(3), Num(270), Num(86942), [0x03], [0x8E, 0x02], [0x9E, 0xA7, 0x05]);
    OneDigit(0x22);
    OneDigit(6);
    var p: seq<byte> := [0x03] + [0x8E, 0x02] + [0x9E, 0xA7, 0x05];
    assert [0x22] + ([0x06] + p) == [0x22, 0x06, 0x03, 0x8E, 0x02, 0x9E, 0xA7, 0x05];
  }

  lemma ThreeDigits()
    ensures VarintBytes(86942) == [0x9E, 0xA7, 0x05]
  {
    TwoDigits(679, 0xA7, 0x05);
    assert [0x9E] + [0xA7 as byte, 0x05] == [0x9E, 0xA7, 0x05];
  }

  lemma ThreeItems(l: LType, a: Value, b: Value, c: Value, p: seq<byte>, q: seq<byte>, r: seq<byte>)
    requires EncodedValue(l, a) == Some(p) && EncodedValue(l, b) == Some(q) && EncodedValue(l, c) == Some(r)
    ensures PackedItems(l, [a, b, c]) == Some(p + q + r)
  {
    OneItem(l, [], a, [], p);
    assert [] + [a] == [a] && [] + p == p;
    OneItem(l, [a], b, p, q);
    assert [a] + [b] == [a, b];
    OneItem(l, [a, b], c, p + q, r);
    assert [a, b] + [c] == [a, b, c];
  }

  lemma OneItem(l: LType, items: seq<Value>, v: Value, p: seq<byte>, e: seq<byte>)
    requires PackedItems(l, items) == Some(p) && EncodedValue(l, v) == Some(e)
    ensures PackedItems(l, items + [v]) == Some(p + e)
  {
    assert (items + [v])[..|items|] == items;
  }
}
