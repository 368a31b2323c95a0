/**
  Message types and the C structures that hold their values, for statically
  allocated fields without callbacks or extensions.
 */
module Schema {
  import opened Wire

  /** How one value is stored and written; the numbers are the descriptor's data size. */
  datatype LType =
    | Bool
    | Varint(size: nat)
    | UVarint(size: nat)
    | SVarint(size: nat)
    | Fixed32
    | Fixed64
    | Bytes(max: nat)
    | String(size: nat)
    | Submessage(fields: seq<Field>)

  /** How often a field occurs and where its presence is recorded. */
  datatype HType =
    | Required
    | Optional
    | Repeated(arraySize: nat)
    | OneOf(union: nat)

  datatype Field = Field(tag: nat, h: HType, l: LType)

  /** What a struct member holds. */
  datatype Value =
    | Num(n: int)
    | Blob(bytes: seq<byte>)
    | Msg(m: Message)

  datatype Slot =
    | One(has: bool, v: Value)     // required or optional
    | Many(items: seq<Value>)      // the used part of a static array
    | Shared                       // lives in a union

  /** A union and the tag of the member it holds, 0 for none. */
  datatype Choice = Choice(which: nat, v: Value)

  datatype Message = Message(slots: seq<Slot>, unions: seq<Choice>)

  /** Types whose arrays are packed into one record. */
  predicate Packable(l: LType) {
    !l.Bytes? && !l.String? && !l.Submessage?
  }

  /** The wire type of a single value. */
  function WireType(l: LType): nat {
    match l
    case Fixed64 => 1
    case Bytes(_) => 2
    case String(_) => 2
    case Submessage(_) => 2
    case Fixed32 => 5
    case _ => 0
  }

  /** Half the number of values of an integer of the given size; 0 for a size the codec rejects. */
  function Half(size: nat): int {
    if size == 1 then 0x80
    else if size == 2 then 0x8000
    else if size == 4 then 0x8000_0000
    else if size == 8 then 0x8000_0000_0000_0000
    else 0
  }

  /** Integer sizes the codec supports. */
  predicate SizeOk(l: LType) {
    (l.Varint? || l.UVarint? || l.SVarint?) ==> Half(l.size) != 0
  }

  /** The numbers a member of this type can hold; of an unsupported size nothing is said. */
  predicate InRange(l: LType, n: int) {
    match l
    case Bool => n == 0 || n == 1
    case Varint(size) => SizeOk(l) ==> -Half(size) <= n < Half(size)
    case SVarint(size) => SizeOk(l) ==> -Half(size) <= n < Half(size)
    case UVarint(size) => SizeOk(l) ==> 0 <= n < 2 * Half(size)
    case Fixed32 => 0 <= n < 0x1_0000_0000
    case Fixed64 => 0 <= n < 0x1_0000_0000_0000_0000
    case _ => false
  }

  /** Strings end at the first zero byte. */
  function CString(s: seq<byte>): seq<byte> {
    if s == [] || s[0] == 0 then [] else [s[0]] + CString(s[1..])
  }

  // ---- Values that fit their type ------------------------------------------------

  /** v is a possible content of a member of type l. */
  predicate Typed(l: LType, v: Value)
    decreases l, 0
  {
    match l
    case Bytes(_) => v.Blob? && |v.bytes| <= 0xFFFF
    case String(_) => v.Blob?
    case Submessage(fs) => v.Msg? && TypedMessage(fs, v.m)
    case _ => v.Num? && InRange(l, v.n)
  }

  predicate TypedSlot(f: Field, s: Slot)
    decreases f, 0
  {
    match f.h
    case Required => s.One? && Typed(f.l, s.v)
    case Optional => s.One? && Typed(f.l, s.v)
    case Repeated(_) => s.Many? && forall i :: 0 <= i < |s.items| ==> Typed(f.l, s.items[i])
    case OneOf(_) => s.Shared?
  }

  predicate TypedMessage(fs: seq<Field>, m: Message)
    decreases fs, 1
  {
    && |m.slots| == |fs|
    && |m.unions| == Unions(fs)
    && (forall i :: 0 <= i < |fs| ==> TypedSlot(fs[i], m.slots[i]))
    && (forall i :: 0 <= i < |fs| ==> TypedChoice(fs[i], m.unions))
  }

  /** The union of f, if it holds f, holds a value for it. */
  predicate TypedChoice(f: Field, unions: seq<Choice>)
    decreases f, 0
  {
    f.h.OneOf? && f.h.union < |unions| && unions[f.h.union].which == f.tag ==> Typed(f.l, unions[f.h.union].v)
  }

  /** How many unions the fields use. */
  function Unions(fs: seq<Field>): (n: nat)
    ensures forall i :: 0 <= i < |fs| && fs[i].h.OneOf? ==> fs[i].h.union < n
  {
    if fs == [] then 0
    else
      var n := Unions(fs[..|fs| - 1]);
      var f := fs[|fs| - 1];
      assert forall i :: 0 <= i < |fs| - 1 ==> fs[i] == fs[..|fs| - 1][i];
      if f.h.OneOf? && f.h.union >= n then f.h.union + 1 else n
  }

  /** A descriptor the generator can emit: ascending tags of 29 bits, sizes of 32, and so in every submessage. */
  predicate WellFormed(fs: seq<Field>) {
    && (forall i :: 0 <= i < |fs| ==> WellFormedField(fs[i]))
    && (forall i, j :: 0 <= i < j < |fs| ==> fs[i].tag < fs[j].tag)
  }

  predicate WellFormedField(f: Field) {
    0 < f.tag < 0x2000_0000 && WellFormedType(f.l)
  }

  predicate WellFormedType(l: LType) {
    (l.Submessage? ==> WellFormed(l.fields)) && (l.String? ==> l.size <= 0xFFFF_FFFF)
  }

  // ---- Initial contents ----------------------------------------------------------

  function DefaultValue(l: LType): Value
    decreases l, 0
  {
    match l
    case Bytes(_) => Blob([])
    case String(_) => Blob([])
    case Submessage(fs) => Msg(Default(fs))
    case _ => Num(0)
  }

  function DefaultSlot(f: Field): Slot
    decreases f, 0
  {
    match f.h
    case Required => One(true, DefaultValue(f.l))
    case Optional => One(false, DefaultValue(f.l))
    case Repeated(_) => Many([])
    case OneOf(_) => Shared
  }

  /** What `pb_message_set_to_defaults` leaves in a message without default values. */
  function Default(fs: seq<Field>): Message
    decreases fs, 1
  {
    Message(seq(|fs|, i requires 0 <= i < |fs| => DefaultSlot(fs[i])),
            seq(Unions(fs), _ => Choice(0, Num(0))))
  }

  // ---- What a message shows ------------------------------------------------------

  /** The value without what no reader of the structure can see. */
  function NormalValue(l: LType, v: Value): Value
    decreases l, 1
  {
    match l
    case String(_) => if v.Blob? then Blob(CString(v.bytes)) else v
    case Submessage(fs) => if v.Msg? then Msg(Normal(fs, v.m)) else v
    case _ => v
  }

  function NormalItems(l: LType, items: seq<Value>): (r: seq<Value>)
    ensures |r| == |items|
    decreases l, 2, |items|
  {
    if items == [] then []
    else NormalItems(l, items[..|items| - 1]) + [NormalValue(l, items[|items| - 1])]
  }

  /** `done` with field f, the i-th, of m written over it, if m has it. */
  function WithField(f: Field, i: nat, m: Message, done: Message): Message
    decreases f, 3
  {
    if !(i < |m.slots| && i < |done.slots|) then done
    else
      match f.h
      case Required =>
        if m.slots[i].One? then done.(slots := done.slots[i := One(true, NormalValue(f.l, m.slots[i].v))]) else done
      case Optional =>
        if m.slots[i].One? && m.slots[i].has
        then done.(slots := done.slots[i := One(true, NormalValue(f.l, m.slots[i].v))]) else done
      case Repeated(_) =>
        if m.slots[i].Many? then done.(slots := done.slots[i := Many(NormalItems(f.l, m.slots[i].items))]) else done
      case OneOf(u) =>
        if u < |m.unions| && u < |done.unions| && m.unions[u].which == f.tag
        then done.(unions := done.unions[u := Choice(f.tag, NormalValue(f.l, m.unions[u].v))]) else done
  }

  /** A fresh message with the first n fields of m. */
  function NormalUpTo(fs: seq<Field>, m: Message, n: nat): Message
    requires n <= |fs|
    decreases fs, 2, n
  {
    if n == 0 then Default(fs) else WithField(fs[n - 1], n - 1, m, NormalUpTo(fs, m, n - 1))
  }

  /**
    The visible content of m: absent optional fields and unselected union members
    at their defaults, strings cut at their terminator.
   */
  function Normal(fs: seq<Field>, m: Message): Message
    decreases fs, 3
  {
    NormalUpTo(fs, m, |fs|)
  }
}
