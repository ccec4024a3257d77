/** The circular field iterator of pb_common.c. */
module PbIterator {
  import opened Options
  import opened PbSchema
  import opened PbVarint
  import opened PbDecoding
  import opened PbRequired

  const PB_SIZE_MAX := TWO32 - 1

  /** The entry that ends every descriptor array. */
  const TERMINATOR := Field(0, Varint, Required, 0, 0, 0, 0, [], None)

  /** The descriptor entry at a position, the terminator past the last. */
  function At(fields: seq<Field>, pos: nat): Field {
    if pos < |fields| then fields[pos] else TERMINATOR
  }

  /** A member of a union after its first one. */
  predicate Overlaid(before: Field, f: Field) {
    before.htype.Oneof? && f.htype.Oneof? && f.dataOffset == PB_SIZE_MAX
  }

  /** The bytes that a field takes in the structure. */
  function Extent(f: Field): nat {
    if f.htype.Repeated? then f.dataSize * f.arraySize else f.dataSize
  }

  /** Where the data of a field is in the structure: each offset is relative to the
      end of the field before. */
  function DataAt(fields: seq<Field>, pos: nat): nat {
    if pos == 0 then At(fields, 0).dataOffset
    else if Overlaid(At(fields, pos - 1), At(fields, pos)) then DataAt(fields, pos - 1)
    else DataAt(fields, pos - 1) + Extent(At(fields, pos - 1)) + At(fields, pos).dataOffset
  }

  /** Where its has_ flag, count or which_ tag is; the members of a union share one. */
  function SizeAt(fields: seq<Field>, pos: nat): int {
    if pos > 0 && Overlaid(At(fields, pos - 1), At(fields, pos)) then SizeAt(fields, pos - 1)
    else DataAt(fields, pos) + At(fields, pos).sizeOffset
  }

  /** A field outside a union does not share its place with any later field. */
  lemma {:induction false} FieldsApart(fields: seq<Field>, i: nat, j: nat)
    requires i < j < |fields| && !fields[i].htype.Oneof?
    ensures DataAt(fields, i) + (if fields[i].htype.Repeated? then fields[i].dataSize * fields[i].arraySize
                                 else fields[i].dataSize) <= DataAt(fields, j)
    decreases j
  {
    if i < j - 1 { FieldsApart(fields, i, j - 1); }
  }

  /** The place of the next field: behind this one, and what the offset says further,
      or the same place in a union; its flag, count or tag is relative to its data. */
  lemma {:induction false} NextPlace(fields: seq<Field>, i: nat)
    requires i + 1 < |fields|
    ensures
      var f, g := fields[i], fields[i + 1];
      var overlaid := f.htype.Oneof? && g.htype.Oneof? && g.dataOffset == 0xffff_ffff;
      && DataAt(fields, i + 1) == (if overlaid then DataAt(fields, i)
                                   else if f.htype.Repeated?
                                   then DataAt(fields, i) + f.dataSize * f.arraySize + g.dataOffset
                                   else DataAt(fields, i) + f.dataSize + g.dataOffset)
      && SizeAt(fields, i + 1) == (if overlaid then SizeAt(fields, i) else DataAt(fields, i + 1) + g.sizeOffset)
  {
  }

  /** The members of a union laid over its first one share its place, and its tag. */
  lemma {:induction false} MembersTogether(fields: seq<Field>, i: nat, j: nat)
    requires i <= j < |fields|
    requires forall k :: i < k <= j ==> Overlaid(fields[k - 1], fields[k])
    ensures DataAt(fields, j) == DataAt(fields, i) && SizeAt(fields, j) == SizeAt(fields, i)
    decreases j
  {
    if i < j {
      assert Overlaid(At(fields, j - 1), At(fields, j));
      MembersTogether(fields, i, j - 1);
    }
  }

  predicate Tagged(fields: seq<Field>) { forall i :: 0 <= i < |fields| ==> fields[i].tag != 0 }

  /** pb_field_iter_t. A position is an index, an address an offset from the start of
      the structure. */
  class FieldIter {
    const fields: seq<Field>
    var pos: nat
    var requiredIndex: nat
    var data: int
    var size: int

    /** Everything is determined by the position, which is at the terminator only in
        an empty message. */
    ghost predicate Valid()
      reads this
    {
      && Tagged(fields)
      && (if fields == [] then pos == 0 else pos < |fields|)
      && requiredIndex == RequiredBefore(fields, pos)
      && data == DataAt(fields, pos)
      && size == SizeAt(fields, pos)
    }

    constructor (fields: seq<Field>)
      requires Tagged(fields)
      ensures Valid() && this.fields == fields && pos == 0
    {
      this.fields := fields;
      pos := 0;
      requiredIndex := 0;
      data := At(fields, 0).dataOffset;
      size := At(fields, 0).dataOffset + At(fields, 0).sizeOffset;
    }

    /** pb_field_iter_begin. */
    method Begin() returns (more: bool)
      requires Tagged(fields)
      modifies this
      ensures Valid() && pos == 0 && more == (fields != [])
    {
      pos := 0;
      requiredIndex := 0;
      data := At(fields, pos).dataOffset;
      size := data + At(fields, pos).sizeOffset;
      more := At(fields, pos).tag != 0;
    }

    /** pb_field_iter_next. */
    method Next() returns (more: bool)
      requires Valid()
      modifies this
      ensures Valid()
      ensures more == (old(pos) + 1 < |fields|)
      ensures pos == if more then old(pos) + 1 else 0
    {
      var before := At(fields, pos);
      if before.tag == 0 { return false; }
      pos := pos + 1;
      var f := At(fields, pos);
      if f.tag == 0 {
        var _ := Begin();
        return false;
      }
      if before.htype.Oneof? && f.htype.Oneof? && f.dataOffset == PB_SIZE_MAX { return true; }
      var beforeSize := before.dataSize;
      if before.htype.Repeated? { beforeSize := beforeSize * before.arraySize; }
      if before.htype.Required? { requiredIndex := requiredIndex + 1; }
      data := data + beforeSize + f.dataOffset;
      size := data + f.sizeOffset;
      return true;
    }

    /** pb_field_iter_find: from any start, a tag is found exactly if some field has
        it; else the iterator is back where it was. An empty message has tag zero. */
    method Find(tag: nat) returns (found: bool)
      requires Valid()
      modifies this
      ensures Valid()
      ensures found == if fields == [] then tag == 0 else PbSchema.Find(fields, tag).Some?
      ensures found ==> At(fields, pos).tag == tag
      ensures !found ==> pos == old(pos)
    {
      var start := pos;
      ghost var wrapped := false;
      while true
        invariant Valid()
        invariant wrapped ==> forall k :: start <= k < |fields| ==> fields[k].tag != tag
        invariant forall k :: (if wrapped then 0 else start) <= k < pos ==> fields[k].tag != tag
        invariant if wrapped then pos < start else start <= pos
        decreases !wrapped, |fields| - pos
      {
        if At(fields, pos).tag == tag { return true; }
        var more := Next();
        wrapped := wrapped || !more;
        if pos == start { return false; }
      }
    }

    /** The bit of the field at this position in pb_decode_noinit's fields_seen. */
    method MarkSeen(words: array<nat>, ghost seen: set<nat>)
      requires Valid() && pos < |fields| && Holds(words, seen, TrackedCount(fields))
      modifies words
      ensures Holds(words, See(fields, seen, pos), TrackedCount(fields))
    {
      if fields[pos].htype.Required? && requiredIndex < MAX_REQUIRED {
        RequiredGrows(fields, pos, |fields|);
        var word, bit := requiredIndex / 32, requiredIndex % 32;
        OrBit(seen, 32 * word, 32, bit);
        if word == 0 { OtherBits(seen, requiredIndex, 32, 32); } else { OtherBits(seen, requiredIndex, 0, 32); }
        words[word] := Or(words[word], Shl(1, bit));
      }
    }

    /** The number of required fields, but at most 64: the end of the descriptor is
        sought from where decoding left off. */
    method CountRequired() returns (count: nat)
      requires Valid()
      modifies this
      ensures Valid() && count == TrackedCount(fields)
    {
      count := requiredIndex;
      var last := At(fields, pos).htype;
      var more := Next();
      while more
        invariant Valid()
        invariant if more then pos > 0 && count == RequiredBefore(fields, pos - 1) && last == At(fields, pos - 1).htype
                  else if fields == [] then count == 0
                  else count == RequiredBefore(fields, |fields| - 1) && last == fields[|fields| - 1].htype
        decreases more, |fields| - pos
      {
        count := requiredIndex;
        last := At(fields, pos).htype;
        more := Next();
      }
      if last.Required? && At(fields, pos).tag != 0 { count := count + 1; }
      if count > MAX_REQUIRED { count := MAX_REQUIRED; }
    }

    /** The check of pb_decode_noinit that every tracked required field was seen. */
    method CheckRequired(words: array<nat>, ghost seen: set<nat>) returns (ok: bool)
      requires Valid() && Holds(words, seen, TrackedCount(fields))
      modifies this
      ensures Valid() && (ok <==> AllSeen(fields, seen))
    {
      var count := CountRequired();
      ok := CheckSeen(words, count, seen);
      SeenByNumber(fields, seen);
    }
  }
}
