/** Exactly which messages are encoded. */
module PbLimits {
  import opened Options
  import opened PbVarint
  import opened PbSchema
  import opened PbEncoding

  /** A bytes field leaves room for the size beside its bytes; a submessage is within
      the limits. */
  predicate ValueWithin(fields: seq<Field>, i: nat, v: Value)
    requires i < |fields| && FitsValue(fields, i, v)
    decreases fields, 0, 0
  {
    var f := fields[i];
    (f.ltype.Bytes? ==> |v.b| + 4 <= f.dataSize) && (f.ltype.Submessage? ==> Within(f.sub, v.slots))
  }

  /** No array is longer than its field; every value that is sent is within the
      limits. */
  predicate SlotWithin(fields: seq<Field>, slots: seq<Slot>, i: nat)
    requires Fits(fields, slots) && i < |fields|
    decreases fields, 1, 0
  {
    var f, s := fields[i], slots[i];
    assert FitsSlot(fields, i, s);
    match f.htype
    case Required => ValueWithin(fields, i, s.v)
    case Optional => s.present ==> ValueWithin(fields, i, s.v)
    case Singular => IsZero(fields, i, s.v) || ValueWithin(fields, i, s.v)
    case Repeated => |s.vs| <= f.arraySize && forall k :: 0 <= k < |s.vs| ==> ValueWithin(fields, i, s.vs[k])
    case Oneof(_) =>
      var u := Union(fields, slots, i);
      u.Chosen? && u.which == f.tag && FitsValue(fields, i, u.v) ==> ValueWithin(fields, i, u.v)
  }

  predicate Within(fields: seq<Field>, slots: seq<Slot>)
    requires Fits(fields, slots)
    decreases fields, 2, 0
  {
    forall i :: 0 <= i < |fields| ==> SlotWithin(fields, slots, i)
  }

  predicate SlotsWithin(fields: seq<Field>, slots: seq<Slot>, i: nat)
    requires Fits(fields, slots)
  {
    forall k :: i <= k < |fields| ==> SlotWithin(fields, slots, k)
  }

  lemma {:induction false} SlotsSplit(fields: seq<Field>, slots: seq<Slot>, i: nat)
    requires Fits(fields, slots) && i < |fields|
    ensures SlotsWithin(fields, slots, i) <==> SlotWithin(fields, slots, i) && SlotsWithin(fields, slots, i + 1)
  {
  }

  lemma {:induction false} ValueEncodes(fields: seq<Field>, i: nat, v: Value)
    requires WellFormed(fields) && i < |fields| && FitsValue(fields, i, v)
    ensures EncodeValue(fields, i, v).Some? <==> ValueWithin(fields, i, v)
    ensures EncodeTagged(fields, i, v).Some? <==> ValueWithin(fields, i, v)
    decreases fields, 0, 0
  {
    if fields[i].ltype.Submessage? { EncodesIff(fields[i].sub, v.slots); }
  }

  lemma {:induction false} ItemsEncode(fields: seq<Field>, i: nat, vs: seq<Value>, k: nat, packed: bool)
    requires WellFormed(fields) && i < |fields| && k <= |vs|
    requires forall j :: 0 <= j < |vs| ==> FitsValue(fields, i, vs[j])
    ensures EncodeItems(fields, i, vs, k, packed).Some?
            <==> forall j :: k <= j < |vs| ==> ValueWithin(fields, i, vs[j])
    decreases fields, 1, |vs| - k
  {
    if k < |vs| {
      ValueEncodes(fields, i, vs[k]);
      ItemsEncode(fields, i, vs, k + 1, packed);
    }
  }

  lemma {:induction false} FieldEncodes(fields: seq<Field>, slots: seq<Slot>, i: nat)
    requires WellFormed(fields) && Fits(fields, slots) && i < |fields|
    ensures EncodeField(fields, slots, i).Some? <==> SlotWithin(fields, slots, i)
    decreases fields, 2, 0
  {
    var f, s := fields[i], slots[i];
    assert FitsSlot(fields, i, s);
    match f.htype
    case Required | Optional | Singular => ValueEncodes(fields, i, s.v);
    case Repeated => ItemsEncode(fields, i, s.vs, 0, Packable(f.ltype));
    case Oneof(_) =>
      var u := Union(fields, slots, i);
      if u.Chosen? && u.which == f.tag && FitsValue(fields, i, u.v) { ValueEncodes(fields, i, u.v); }
  }

  lemma {:induction false} FieldsEncode(fields: seq<Field>, slots: seq<Slot>, i: nat)
    requires WellFormed(fields) && Fits(fields, slots) && i <= |fields|
    ensures EncodeFrom(fields, slots, i).Some? <==> SlotsWithin(fields, slots, i)
    decreases fields, 3, |fields| - i
  {
    if i < |fields| {
      SlotsSplit(fields, slots, i);
      FieldEncodes(fields, slots, i);
      FieldsEncode(fields, slots, i + 1);
    }
  }

  /** A message of the right types is encoded exactly if it keeps within the limits of
      its fields, at every level. */
  lemma {:induction false} EncodesIff(fields: seq<Field>, slots: seq<Slot>)
    requires WellFormed(fields) && Fits(fields, slots)
    ensures Encode(fields, slots).Some? <==> Within(fields, slots)
    decreases fields, 4, 0
  {
    FieldsEncode(fields, slots, 0);
  }
}
