/**
  The descriptor table of a message type.  What the decoder finds by looking through
  the list of fields, the iterator finds by walking the words of the table.
 */
module SchemaTable {
  import opened Schema
  import Decoder
  import opened FieldIter

  /** The type byte of a static field: how a value is stored, and how often it occurs. */
  function Kind(f: Field): nat {
    (match f.l
     case Bool => 0x0
     case Varint(_) => 0x1
     case UVarint(_) => 0x2
     case SVarint(_) => 0x3
     case Fixed32 => 0x4
     case Fixed64 => 0x5
     case Bytes(_) => 0x6
     case String(_) => 0x7
     case Submessage(_) => 0x8)
    +
    (match f.h
     case Required => 0x00
     case Optional => 0x10
     case Repeated(_) => 0x20
     case OneOf(_) => 0x30)
  }

  /** The entries describe the fields, one for one. */
  predicate Describes(es: seq<Entry>, fs: seq<Field>) {
    |es| == |fs| && forall i :: 0 <= i < |fs| ==> es[i].info.tag == fs[i].tag && es[i].info.kind == Kind(fs[i])
  }

  lemma KindFields(f: Field)
    ensures IsRequired(Kind(f)) <==> f.h.Required?
    ensures IsSubmessage(Kind(f)) <==> f.l.Submessage?
    ensures !IsExtension(Kind(f))
  {
  }

  /** The table counts required fields as the decoder does. */
  lemma {:induction false} RequiredAgree(es: seq<Entry>, fs: seq<Field>, k: nat)
    requires Describes(es, fs) && k <= |fs|
    ensures RequiredCount(es, k) == Decoder.RequiredBefore(fs, k)
  {
    if k > 0 {
      KindFields(fs[k - 1]);
      RequiredAgree(es, fs, k - 1);
    }
  }

  /** The tags of a well-formed type ascend, so its table is one the search is made for. */
  lemma DescribedAscend(es: seq<Entry>, fs: seq<Field>)
    requires Describes(es, fs) && WellFormed(fs)
    ensures Ascending(es)
  {
  }

  /**
    The search in the table of a message type, from wherever the iterator stands: it
    finds a field exactly if the type has one with the tag, and then stands at that
    field, with the number the decoder tracks it under.
   */
  method FindField(it: Iterator, ghost fs: seq<Field>, tag: nat) returns (found: bool)
    requires it.Valid() && Describes(it.es, fs) && it.Shows(it.index)
    modifies it
    ensures found <==> Decoder.FieldIndex(fs, tag) < |fs|
    ensures found ==> it.Shows(Decoder.FieldIndex(fs, tag)) && it.info.tag == tag
    ensures found ==> it.requiredIndex == Decoder.RequiredBefore(fs, Decoder.FieldIndex(fs, tag))
    ensures !found ==> it.Shows(old(it.index))
  {
    ghost var i, start := Decoder.FieldIndex(fs, tag), it.index;
    found := it.Find(tag);
    if i < |fs| {
      KindFields(fs[i]);
      assert it.Match(i, tag);
      OneWithTag(it.es, i, it.index);
      RequiredAgree(it.es, fs, i);
    } else {
      assert forall k :: 0 <= k < |fs| ==> it.es[k].info.tag != tag;
    }
  }

  /**
    From a fresh iterator over the table of any well-formed type: nothing is found in
    an empty type, and otherwise just what the list of fields has.
   */
  method FindInType(it: Iterator, ghost fs: seq<Field>, tag: nat) returns (found: bool)
    requires WellFormed(fs) && Describes(it.es, fs) && Packed(it.es) && it.words == Table(it.es)
    requires it.fieldCount == |fs| && it.largestTag == if fs == [] then 0 else fs[|fs| - 1].tag
    modifies it
    ensures it.Valid()
    ensures found <==> Decoder.FieldIndex(fs, tag) < |fs|
    ensures found ==> it.Shows(Decoder.FieldIndex(fs, tag))
    ensures found ==> it.requiredIndex == Decoder.RequiredBefore(fs, Decoder.FieldIndex(fs, tag))
  {
    DescribedAscend(it.es, fs);
    found := it.Begin();
    if found {
      found := FindField(it, fs, tag);
    }
  }

  lemma OneWithTag(es: seq<Entry>, i: nat, k: nat)
    requires Ascending(es) && i < |es| && k < |es| && es[i].info.tag == es[k].info.tag
    ensures i == k
  {
  }
}
