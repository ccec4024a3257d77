/** Message descriptors (pb_field_t arrays) and message structures as typed values. */
module PbSchema {
  import opened Options
  import opened Bytes
  import opened PbVarint

  datatype LType = Varint | UVarint | SVarint | Fixed32 | Fixed64 | Bytes | String | Submessage | FixedLengthBytes

  /** Optional is the proto2 rule with a has_ flag, Singular the proto3 rule without.
      A oneof field names the first field of its union. */
  datatype HType = Required | Optional | Singular | Repeated | Oneof(leader: nat)

  /** pb_field_t of a static field. `initial` is the declared default, if any; the
      two offsets place it in the C structure, relative to the field before it. */
  datatype Field = Field(tag: nat, ltype: LType, htype: HType, dataOffset: nat, sizeOffset: int, dataSize: nat,
                         arraySize: nat, sub: seq<Field>, initial: Option<Value>)

  datatype Value = Number(n: int) | Blob(b: seq<byte>) | Message(slots: seq<Slot>)

  /** What the structure holds for one field. The fields of a union share the slot
      of the first: the which_ tag and the data. */
  datatype Slot =
    | Plain(v: Value)
    | Has(present: bool, v: Value)
    | Items(vs: seq<Value>)
    | Unchosen
    | Chosen(which: nat, v: Value)
    | Shared

  predicate Packable(t: LType) { t.Varint? || t.UVarint? || t.SVarint? || t.Fixed32? || t.Fixed64? }

  predicate IntSize(n: nat) { n == 1 || n == 2 || n == 4 || n == 8 }

  function Bound(dataSize: nat): nat
    requires IntSize(dataSize)
  {
    if dataSize == 1 then 0x100 else if dataSize == 2 then 0x1_0000 else if dataSize == 4 then TWO32 else TWO64
  }

  /** The numbers that the C type of the field holds. */
  predicate InRange(f: Field, n: int) {
    match f.ltype
    case Varint | SVarint => IntSize(f.dataSize) ==> 0 <= n + Bound(f.dataSize) / 2 < Bound(f.dataSize)
    case UVarint => IntSize(f.dataSize) ==> 0 <= n < Bound(f.dataSize)
    case Fixed32 => 0 <= n < TWO32
    case _ => 0 <= n < TWO64
  }

  /** The value has the C type of the field. A string is what precedes its zero. */
  predicate FitsValue(fields: seq<Field>, i: nat, v: Value)
    requires i < |fields|
    decreases fields, 0, 0
  {
    var f := fields[i];
    if Packable(f.ltype) then v.Number? && InRange(f, v.n)
    else if f.ltype.Submessage? then v.Message? && Fits(f.sub, v.slots)
    else
      && v.Blob? && |v.b| < TWO32
      && (f.ltype.String? ==> |v.b| <= f.dataSize && 0 !in v.b)
      && (f.ltype.FixedLengthBytes? ==> |v.b| == f.dataSize)
  }

  predicate FitsSlot(fields: seq<Field>, i: nat, s: Slot)
    requires i < |fields|
    decreases fields, 2, 0
  {
    match fields[i].htype
    case Required | Singular => s.Plain? && FitsValue(fields, i, s.v)
    case Optional => s.Has? && FitsValue(fields, i, s.v)
    case Repeated => s.Items? && forall k :: 0 <= k < |s.vs| ==> FitsValue(fields, i, s.vs[k])
    case Oneof(leader) =>
      if leader != i then s.Shared?
      else s.Unchosen? || (s.Chosen? && FitsChoice(fields, i, s.which, s.v, 0))
  }

  /** The union's data has the type of the member that which_ names. */
  predicate FitsChoice(fields: seq<Field>, leader: nat, which: nat, v: Value, k: nat)
    requires k <= |fields|
    decreases fields, 1, |fields| - k
  {
    k == |fields|
    || ((fields[k].htype == Oneof(leader) && fields[k].tag == which ==> FitsValue(fields, k, v))
        && FitsChoice(fields, leader, which, v, k + 1))
  }

  predicate Fits(fields: seq<Field>, slots: seq<Slot>)
    decreases fields, 3, 0
  {
    |slots| == |fields| && forall i :: 0 <= i < |fields| ==> FitsSlot(fields, i, slots[i])
  }

  /** The number of the first field with a tag. */
  function FindFrom(fields: seq<Field>, tag: nat, i: nat): (r: Option<nat>)
    requires i <= |fields|
    ensures r.Some? ==> i <= r.value < |fields| && fields[r.value].tag == tag
                        && forall k :: i <= k < r.value ==> fields[k].tag != tag
    ensures r.None? ==> forall k :: i <= k < |fields| ==> fields[k].tag != tag
    decreases |fields| - i
  {
    if i == |fields| then None else if fields[i].tag == tag then Some(i) else FindFrom(fields, tag, i + 1)
  }

  function Find(fields: seq<Field>, tag: nat): (r: Option<nat>)
    ensures r.Some? ==> r.value < |fields| && fields[r.value].tag == tag
                        && forall k :: 0 <= k < r.value ==> fields[k].tag != tag
    ensures r.None? ==> forall k :: 0 <= k < |fields| ==> fields[k].tag != tag
  {
    FindFrom(fields, tag, 0)
  }

  /** With distinct tags, a search finds the field that has the tag. */
  lemma {:induction false} FindOwn(fields: seq<Field>, i: nat, k: nat)
    requires k <= i < |fields| && forall a, b :: 0 <= a < b < |fields| ==> fields[a].tag != fields[b].tag
    ensures FindFrom(fields, fields[i].tag, k) == Some(i)
    decreases i - k
  {
    if k < i { FindOwn(fields, i, k + 1); }
  }

  /** What the generator promises of a descriptor, at every level: distinct tags
      that fit 29 bits, unions laid out after their first member, number types of
      known size, and no declared default where absence means zero. */
  predicate WellFormed(fields: seq<Field>)
    decreases fields
  {
    && (forall i, j :: 0 <= i < j < |fields| ==> fields[i].tag != fields[j].tag)
    && forall i :: 0 <= i < |fields| ==>
         var f := fields[i];
         && 0 < f.tag < 0x2000_0000
         && (f.htype.Oneof? ==> f.htype.leader <= i && fields[f.htype.leader].htype == f.htype)
         && (f.htype.Singular? ==> f.initial.None?)
         && (f.ltype.Varint? || f.ltype.UVarint? || f.ltype.SVarint? ==> IntSize(f.dataSize))
         && f.dataSize < TWO32 && f.arraySize < TWO32
         && (f.initial.Some? && !f.ltype.Submessage? ==> FitsValue(fields, i, f.initial.value))
         && (f.ltype.Submessage? ==> WellFormed(f.sub))
  }

  /** pb_field_set_to_default: a submessage recursively, else the declared default,
      else zeros. */
  function InitialValue(fields: seq<Field>, i: nat): Value
    requires i < |fields|
    decreases fields, 0, 0
  {
    var f := fields[i];
    if f.ltype.Submessage? then Message(Defaults(f.sub))
    else if f.initial.Some? then f.initial.value
    else if Packable(f.ltype) then Number(0)
    else if f.ltype.FixedLengthBytes? then Blob(seq(f.dataSize, _ => 0))
    else Blob([])
  }

  function DefaultSlot(fields: seq<Field>, i: nat): Slot
    requires i < |fields|
    decreases fields, 1, 0
  {
    match fields[i].htype
    case Required | Singular => Plain(InitialValue(fields, i))
    case Optional => Has(false, InitialValue(fields, i))
    case Repeated => Items([])
    case Oneof(leader) => if leader == i then Unchosen else Shared
  }

  function DefaultsFrom(fields: seq<Field>, i: nat): (slots: seq<Slot>)
    requires i <= |fields|
    ensures |slots| == |fields| - i
    ensures forall k :: 0 <= k < |slots| ==> slots[k] == DefaultSlot(fields, i + k)
    decreases fields, 2, |fields| - i
  {
    if i == |fields| then [] else [DefaultSlot(fields, i)] + DefaultsFrom(fields, i + 1)
  }

  /** pb_message_set_to_defaults. */
  function Defaults(fields: seq<Field>): (slots: seq<Slot>)
    ensures |slots| == |fields|
    ensures forall k :: 0 <= k < |slots| ==> slots[k] == DefaultSlot(fields, k)
    decreases fields, 3, 0
  {
    DefaultsFrom(fields, 0)
  }

  /** The state of the union a oneof field belongs to. */
  function Union(fields: seq<Field>, slots: seq<Slot>, i: nat): Slot
    requires i < |fields| == |slots| && fields[i].htype.Oneof?
  {
    if fields[i].htype.leader < |slots| then slots[fields[i].htype.leader] else Shared
  }

  /** pb_check_proto3_default_value, for a value without presence of its own. */
  predicate IsZero(fields: seq<Field>, i: nat, v: Value)
    requires i < |fields|
    decreases fields, 0, 0
  {
    var f := fields[i];
    match v
    case Number(n) => n == 0
    case Blob(b) => if f.ltype.FixedLengthBytes? then f.dataSize == 0 else b == []
    case Message(slots) => |slots| == |f.sub| && AllZero(f.sub, slots, 0)
  }

  /** pb_check_proto3_default_value, for a field of a submessage. */
  predicate IsZeroSlot(fields: seq<Field>, slots: seq<Slot>, i: nat)
    requires i < |fields| == |slots|
    decreases fields, 1, 0
  {
    match fields[i].htype
    case Required => false
    case Repeated => slots[i].Items? && slots[i].vs == []
    case Oneof(_) => !(Union(fields, slots, i).Chosen? && Union(fields, slots, i).which != 0)
    case Optional => slots[i].Has? && !slots[i].present
    case Singular => slots[i].Plain? && IsZero(fields, i, slots[i].v)
  }

  predicate AllZero(fields: seq<Field>, slots: seq<Slot>, i: nat)
    requires i <= |fields| == |slots|
    decreases fields, 2, |fields| - i
  {
    i == |fields| || (IsZeroSlot(fields, slots, i) && AllZero(fields, slots, i + 1))
  }
}
