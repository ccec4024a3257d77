/** The bytes of a message: what pb_encode writes when nothing stops it. */
module PbEncoding {
  import opened Options
  import opened Bytes
  import opened PbVarint
  import opened PbSchema

  datatype WireType = WireVarint | Wire64 | WireString | Wire32

  function WireCode(w: WireType): nat {
    match w case WireVarint => 0 case Wire64 => 1 case WireString => 2 case Wire32 => 5
  }

  /** pb_encode_tag_for_field's choice. */
  function WireOf(t: LType): WireType {
    match t
    case Varint | UVarint | SVarint => WireVarint
    case Fixed32 => Wire32
    case Fixed64 => Wire64
    case _ => WireString
  }

  function TagBytes(tag: nat, w: WireType): seq<byte> { EncodeVarint(tag * 8 + WireCode(w)) }

  /** The lowest k bytes of a number, little end first. */
  function LittleEndian(n: nat, k: nat): (s: seq<byte>)
    ensures |s| == k
  {
    if k == 0 then [] else [n % 256] + LittleEndian(n / 256, k - 1)
  }

  /** pb_encode_string. */
  function Delimited(s: seq<byte>): seq<byte> { EncodeVarint(|s|) + s }

  /** The number encoders. An unknown size is an error. */
  function EncodeNumber(f: Field, n: int): Option<seq<byte>>
    requires Packable(f.ltype) && InRange(f, n)
  {
    match f.ltype
    case Varint => if IntSize(f.dataSize) then Some(EncodeVarint(Word64(n))) else None
    case UVarint => if IntSize(f.dataSize) then Some(EncodeVarint(n)) else None
    case SVarint => if IntSize(f.dataSize) then Some(EncodeVarint(Zigzag(n))) else None
    case Fixed32 => Some(LittleEndian(n, 4))
    case _ => Some(LittleEndian(n, 8))
  }

  /** The size of a pb_bytes_array_t beside its bytes. */
  const BYTES_HEADER := 4

  /** PB_ENCODERS: one value, without its tag. */
  function EncodeValue(fields: seq<Field>, i: nat, v: Value): Option<seq<byte>>
    requires i < |fields| && FitsValue(fields, i, v)
    decreases fields, 0, 0
  {
    var f := fields[i];
    match f.ltype
    case Bytes => if |v.b| + BYTES_HEADER > f.dataSize then None else Some(Delimited(v.b))
    case String => Some(Delimited(v.b))
    case FixedLengthBytes => Some(Delimited(v.b))
    case Submessage =>
      var sub := Encode(f.sub, v.slots);
      if sub.None? then None else Some(Delimited(sub.value))
    case _ => EncodeNumber(f, v.n)
  }

  /** Tag and value. */
  function EncodeTagged(fields: seq<Field>, i: nat, v: Value): Option<seq<byte>>
    requires i < |fields| && FitsValue(fields, i, v)
    decreases fields, 1, 0
  {
    var value := EncodeValue(fields, i, v);
    if value.None? then None else Some(TagBytes(fields[i].tag, WireOf(fields[i].ltype)) + value.value)
  }

  /** Array entries from k on: each with its tag, or bare inside a packed array. */
  function EncodeItems(fields: seq<Field>, i: nat, vs: seq<Value>, k: nat, packed: bool): Option<seq<byte>>
    requires i < |fields| && k <= |vs| && forall j :: 0 <= j < |vs| ==> FitsValue(fields, i, vs[j])
    decreases fields, 2, |vs| - k
  {
    if k == |vs| then Some([])
    else
      var first := if packed then EncodeValue(fields, i, vs[k]) else EncodeTagged(fields, i, vs[k]);
      var others := EncodeItems(fields, i, vs, k + 1, packed);
      if first.None? || others.None? then None else Some(first.value + others.value)
  }

  /** encode_array. */
  function EncodeArray(fields: seq<Field>, i: nat, vs: seq<Value>): Option<seq<byte>>
    requires i < |fields| && forall j :: 0 <= j < |vs| ==> FitsValue(fields, i, vs[j])
    decreases fields, 3, 0
  {
    var f := fields[i];
    if vs == [] then Some([])
    else if |vs| > f.arraySize then None
    else if Packable(f.ltype) then
      var items := EncodeItems(fields, i, vs, 0, true);
      if items.None? then None else Some(TagBytes(f.tag, WireString) + Delimited(items.value))
    else EncodeItems(fields, i, vs, 0, false)
  }

  /** encode_basic_field. */
  function EncodeField(fields: seq<Field>, slots: seq<Slot>, i: nat): Option<seq<byte>>
    requires Fits(fields, slots) && i < |fields|
    decreases fields, 4, 0
  {
    var f, s := fields[i], slots[i];
    assert FitsSlot(fields, i, s);
    match f.htype
    case Required => EncodeTagged(fields, i, s.v)
    case Optional => if s.present then EncodeTagged(fields, i, s.v) else Some([])
    case Singular => if IsZero(fields, i, s.v) then Some([]) else EncodeTagged(fields, i, s.v)
    case Repeated => EncodeArray(fields, i, s.vs)
    case Oneof(leader) =>
      var u := Union(fields, slots, i);
      if u.Chosen? && u.which == f.tag && FitsValue(fields, i, u.v) then EncodeTagged(fields, i, u.v) else Some([])
  }

  function EncodeFrom(fields: seq<Field>, slots: seq<Slot>, i: nat): Option<seq<byte>>
    requires Fits(fields, slots) && i <= |fields|
    decreases fields, 5, |fields| - i
  {
    if i == |fields| then Some([])
    else
      var first, others := EncodeField(fields, slots, i), EncodeFrom(fields, slots, i + 1);
      if first.None? || others.None? then None else Some(first.value + others.value)
  }

  /** pb_encode. */
  function Encode(fields: seq<Field>, slots: seq<Slot>): Option<seq<byte>>
    requires Fits(fields, slots)
    decreases fields, 6, 0
  {
    EncodeFrom(fields, slots, 0)
  }

  lemma {:induction false} ChoiceFits(fields: seq<Field>, leader: nat, which: nat, v: Value, k: nat, i: nat)
    requires k <= i < |fields| && FitsChoice(fields, leader, which, v, k)
    requires fields[i].htype == Oneof(leader) && fields[i].tag == which
    ensures FitsValue(fields, i, v)
    decreases i - k
  {
    if k < i { ChoiceFits(fields, leader, which, v, k + 1, i); }
  }

  /** The member that which_ names always has data of its type. */
  lemma {:induction false} UnionFits(fields: seq<Field>, slots: seq<Slot>, i: nat)
    requires WellFormed(fields) && Fits(fields, slots) && i < |fields| && fields[i].htype.Oneof?
    requires Union(fields, slots, i).Chosen? && Union(fields, slots, i).which == fields[i].tag
    ensures FitsValue(fields, i, Union(fields, slots, i).v)
  {
    var leader := fields[i].htype.leader;
    assert FitsSlot(fields, leader, slots[leader]);
    ChoiceFits(fields, leader, fields[i].tag, slots[leader].v, 0, i);
  }
}
