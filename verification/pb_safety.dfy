/** What a decoder stores: only values of the C type of their field, and no more of
    them than the structure holds. */
module PbSafety {
  import opened Options
  import opened Bytes
  import opened PbVarint
  import opened PbSchema
  import opened PbDecoding

  /** A string with its zero, and bytes with their size, have room in the field, unless
      they are its default; the same holds inside a submessage. */
  predicate BoundedValue(fields: seq<Field>, i: nat, v: Value)
    requires i < |fields|
    decreases fields, 0, 0
  {
    var f := fields[i];
    && (f.ltype.Submessage? && v.Message? && |v.slots| == |f.sub| ==> Bounded(f.sub, v.slots))
    && (f.ltype.String? && v.Blob? ==> |v.b| + 1 <= f.dataSize || v == InitialValue(fields, i))
    && (f.ltype.Bytes? && v.Blob? ==> |v.b| + 4 <= f.dataSize || v == InitialValue(fields, i))
  }

  /** No array, at any level, is longer than its field. */
  predicate BoundedSlot(fields: seq<Field>, i: nat, s: Slot)
    requires i < |fields|
    decreases fields, 1, 0
  {
    match s
    case Items(vs) => |vs| <= fields[i].arraySize && forall k :: 0 <= k < |vs| ==> BoundedValue(fields, i, vs[k])
    case Plain(v) => BoundedValue(fields, i, v)
    case Has(_, v) => BoundedValue(fields, i, v)
    case Chosen(which, v) =>
      forall k :: 0 <= k < |fields| && fields[k].htype == fields[i].htype && fields[k].tag == which ==>
        BoundedValue(fields, k, v)
    case _ => true
  }

  predicate Bounded(fields: seq<Field>, slots: seq<Slot>)
    requires |fields| == |slots|
    decreases fields, 2, 0
  {
    forall i :: 0 <= i < |fields| ==> BoundedSlot(fields, i, slots[i])
  }

  /** A message that the structure holds. */
  predicate Holds(fields: seq<Field>, slots: seq<Slot>) { Fits(fields, slots) && Bounded(fields, slots) }

  predicate HoldsValue(fields: seq<Field>, i: nat, v: Value)
    requires i < |fields|
  {
    FitsValue(fields, i, v) && BoundedValue(fields, i, v)
  }

  lemma {:induction false} LittleEndianBound(s: seq<byte>)
    ensures |s| == 4 ==> FromLittleEndian(s) < TWO32
    ensures |s| == 8 ==> FromLittleEndian(s) < TWO64
  {
    BoundFrom(s, 4, 0x100);
    BoundFrom(s, 8, 0x100);
  }

  function Power(k: nat): nat { if k == 0 then 1 else 256 * Power(k - 1) }

  lemma {:induction false} BoundFrom(s: seq<byte>, k: nat, base: nat)
    requires base == 0x100
    ensures |s| == k ==> FromLittleEndian(s) < Power(k)
    ensures Power(4) == TWO32 && Power(8) == TWO64
  {
    assert Power(4) == TWO32;
    if |s| == k > 0 { BoundFrom(s[1..], k - 1, base); }
  }

  lemma {:induction false} NumberFits(f: Field, s: seq<byte>)
    requires Packable(f.ltype) && DecodeNumber(f, s).Some?
    ensures InRange(f, DecodeNumber(f, s).value.value)
  {
    if f.ltype.Fixed32? { LittleEndianBound(s[..4]); }
    if f.ltype.Fixed64? { LittleEndianBound(s[..8]); }
  }

  lemma {:induction false} CStringFits(b: seq<byte>)
    ensures |CString(b)| <= |b| && 0 !in CString(b)
  {
    if b != [] && b[0] != 0 { CStringFits(b[1..]); }
  }

  /** What a value is decoded into, if that matters. */
  predicate HoldsBefore(fields: seq<Field>, i: nat, before: Value)
    requires i < |fields|
  {
    var f := fields[i];
    f.ltype.Submessage? && before.Message? && |before.slots| == |f.sub| ==> Holds(f.sub, before.slots)
  }

  lemma {:induction false} SlotHoldsBefore(fields: seq<Field>, i: nat, s: Slot)
    requires i < |fields| && FitsSlot(fields, i, s) && BoundedSlot(fields, i, s) && (s.Plain? || s.Has?)
    ensures HoldsBefore(fields, i, s.v)
  {
    assert FitsValue(fields, i, s.v) && BoundedValue(fields, i, s.v);
  }

  /** A submessage is decoded into the message that is there, or into the defaults. */
  lemma {:induction false} SubmessageIs(fields: seq<Field>, i: nat, before: Value, s: seq<byte>)
    returns (start: seq<Slot>, chunk: seq<byte>)
    requires i < |fields| && fields[i].ltype.Submessage? && DecodeValue(fields, i, before, s).Some?
    ensures |chunk| < |s| && |start| == |fields[i].sub|
    ensures start == if fields[i].htype.Repeated? then Defaults(fields[i].sub) else SlotsOf(fields[i].sub, before)
    ensures DecodeLoop(fields[i].sub, start, {}, chunk).Some?
    ensures DecodeValue(fields, i, before, s).value.value
            == Message(DecodeLoop(fields[i].sub, start, {}, chunk).value.slots)
  {
    var f := fields[i];
    var size := DecodeVarint32(s).value;
    chunk := ReadBytes(size.rest, size.value).value.value;
    start := if f.htype.Repeated? then Defaults(f.sub) else SlotsOf(f.sub, before);
    assert DecodeInto(f.sub, start, chunk).Some?;
  }

  lemma {:induction false} BlobHolds(fields: seq<Field>, i: nat, before: Value, s: seq<byte>)
    requires WellFormed(fields) && i < |fields| && DecodeValue(fields, i, before, s).Some?
    requires !Packable(fields[i].ltype) && !fields[i].ltype.Submessage?
    ensures HoldsValue(fields, i, DecodeValue(fields, i, before, s).value.value)
  {
    var size := DecodeVarint32(s).value;
    if fields[i].ltype.String? { CStringFits(ReadBytes(size.rest, size.value).value.value); }
  }

  /** A value that is decoded has the type of its field, and room in it. */
  lemma {:induction false} ValueHolds(fields: seq<Field>, i: nat, before: Value, s: seq<byte>)
    requires WellFormed(fields) && i < |fields| && HoldsBefore(fields, i, before)
    requires DecodeValue(fields, i, before, s).Some?
    ensures HoldsValue(fields, i, DecodeValue(fields, i, before, s).value.value)
    decreases |s|, 0
  {
    var f := fields[i];
    if Packable(f.ltype) {
      NumberFits(f, s);
    } else if f.ltype.Submessage? {
      var start, chunk := SubmessageIs(fields, i, before, s);
      DefaultsHold(f.sub);
      LoopHolds(f.sub, start, {}, chunk);
    } else {
      BlobHolds(fields, i, before, s);
    }
  }

  lemma {:induction false} PackedHolds(fields: seq<Field>, i: nat, vs: seq<Value>, s: seq<byte>)
    requires WellFormed(fields) && i < |fields| && Packable(fields[i].ltype) && |vs| <= fields[i].arraySize
    requires forall k :: 0 <= k < |vs| ==> HoldsValue(fields, i, vs[k])
    requires DecodePacked(fields, i, vs, s).Some?
    ensures
      var r := DecodePacked(fields, i, vs, s).value;
      |r| <= fields[i].arraySize && forall k :: 0 <= k < |r| ==> HoldsValue(fields, i, r[k])
    decreases |s|
  {
    if s != [] {
      var item := DecodeValue(fields, i, Number(0), s).value;
      NumberFits(fields[i], s);
      PackedHolds(fields, i, vs + [item.value], item.rest);
    }
  }

  lemma {:induction false} ChoiceHolds(fields: seq<Field>, leader: nat, i: nat, v: Value, k: nat)
    requires WellFormed(fields) && i < |fields| && fields[i].htype == Oneof(leader) && FitsValue(fields, i, v)
    requires k <= |fields|
    ensures FitsChoice(fields, leader, fields[i].tag, v, k)
    decreases |fields| - k
  {
    if k < |fields| { ChoiceHolds(fields, leader, i, v, k + 1); }
  }

  /** Storing a slot that holds. */
  lemma {:induction false} StoreHolds(fields: seq<Field>, slots: seq<Slot>, j: nat, s: Slot)
    requires Holds(fields, slots) && j < |fields| && FitsSlot(fields, j, s) && BoundedSlot(fields, j, s)
    ensures Holds(fields, slots[j := s])
  {
    var r := slots[j := s];
    forall i | 0 <= i < |fields| ensures FitsSlot(fields, i, r[i]) && BoundedSlot(fields, i, r[i]) {
      if i != j { assert FitsSlot(fields, i, slots[i]) && BoundedSlot(fields, i, slots[i]); }
    }
  }

  lemma {:induction false} OneofHolds(fields: seq<Field>, slots: seq<Slot>, i: nat, leader: nat, v: Value)
    requires WellFormed(fields) && Holds(fields, slots) && i < |fields| && fields[i].htype == Oneof(leader)
    requires leader < |fields| && HoldsValue(fields, i, v)
    ensures Holds(fields, slots[leader := Chosen(fields[i].tag, v)])
  {
    ChoiceHolds(fields, leader, i, v, 0);
    StoreHolds(fields, slots, leader, Chosen(fields[i].tag, v));
  }

  lemma {:induction false} ArrayHolds(fields: seq<Field>, slots: seq<Slot>, i: nat, wire: nat, s: seq<byte>)
    requires WellFormed(fields) && Holds(fields, slots) && i < |fields| && fields[i].htype.Repeated?
    requires DecodeField(fields, slots, i, wire, s).Some?
    ensures Holds(fields, DecodeField(fields, slots, i, wire, s).value.value)
    decreases |s|, 1
  {
    var f := fields[i];
    assert FitsSlot(fields, i, slots[i]) && BoundedSlot(fields, i, slots[i]);
    var vs := slots[i].vs;
    if wire == 2 && Packable(f.ltype) {
      PackedHolds(fields, i, vs, ReadChunk(s).value.value);
      StoreHolds(fields, slots, i, Items(DecodePacked(fields, i, vs, ReadChunk(s).value.value).value));
    } else {
      ValueHolds(fields, i, Number(0), s);
      StoreHolds(fields, slots, i, Items(vs + [DecodeValue(fields, i, Number(0), s).value.value]));
    }
  }

  lemma {:induction false} FieldHolds(fields: seq<Field>, slots: seq<Slot>, i: nat, wire: nat, s: seq<byte>)
    requires WellFormed(fields) && Holds(fields, slots) && i < |fields| && DecodeField(fields, slots, i, wire, s).Some?
    ensures Holds(fields, DecodeField(fields, slots, i, wire, s).value.value)
    decreases |s|, 2
  {
    var f := fields[i];
    assert FitsSlot(fields, i, slots[i]) && BoundedSlot(fields, i, slots[i]);
    match f.htype
    case Required | Singular | Optional =>
      SlotHoldsBefore(fields, i, slots[i]);
      ValueHolds(fields, i, slots[i].v, s);
      var v := DecodeValue(fields, i, slots[i].v, s).value.value;
      StoreHolds(fields, slots, i, if f.htype.Optional? then Has(true, v) else Plain(v));
    case Repeated => ArrayHolds(fields, slots, i, wire, s);
    case Oneof(leader) =>
      if f.ltype.Submessage? { DefaultsHold(f.sub); }
      ValueHolds(fields, i, Message(Defaults(f.sub)), s);
      OneofHolds(fields, slots, i, leader, DecodeValue(fields, i, Message(Defaults(f.sub)), s).value.value);
  }

  lemma {:induction false} LoopHolds(fields: seq<Field>, slots: seq<Slot>, seen: set<nat>, s: seq<byte>)
    requires WellFormed(fields) && Holds(fields, slots) && DecodeLoop(fields, slots, seen, s).Some?
    ensures Holds(fields, DecodeLoop(fields, slots, seen, s).value.slots)
    decreases |s|, 3
  {
    if s != [] && DecodeVarint32(s).value.value != 0 {
      var t := DecodeVarint32(s).value;
      var tag, wire := t.value / 8, t.value % 8;
      var found := Find(fields, tag);
      if found.None? {
        LoopHolds(fields, slots, seen, Skip(t.rest, wire).value);
      } else {
        FieldHolds(fields, slots, found.value, wire, t.rest);
        var r := DecodeField(fields, slots, found.value, wire, t.rest).value;
        LoopHolds(fields, r.value, See(fields, seen, found.value), r.rest);
      }
    }
  }

  lemma {:induction false} InitialHolds(fields: seq<Field>, i: nat)
    requires WellFormed(fields) && i < |fields|
    ensures HoldsValue(fields, i, InitialValue(fields, i))
    decreases fields, 0
  {
    if fields[i].ltype.Submessage? { DefaultsHold(fields[i].sub); }
  }

  lemma {:induction false} DefaultsHold(fields: seq<Field>)
    requires WellFormed(fields)
    ensures Holds(fields, Defaults(fields))
    decreases fields, 1
  {
    forall i | 0 <= i < |fields|
      ensures FitsSlot(fields, i, Defaults(fields)[i]) && BoundedSlot(fields, i, Defaults(fields)[i])
    {
      InitialHolds(fields, i);
    }
  }

  /** Whatever the input, a message that is decoded has in every field, at every level,
      numbers in the range of the C type, strings and bytes of a length that the field
      has room for, and no more entries in an array than it has. */
  lemma {:induction false} DecodedHolds(fields: seq<Field>, s: seq<byte>)
    requires WellFormed(fields) && Decode(fields, s).Some?
    ensures Holds(fields, Decode(fields, s).value.value)
  {
    DefaultsHold(fields);
    LoopHolds(fields, Defaults(fields), {}, s);
  }

  /** The numbers of a signed type of 8, 16, 32 or 64 bits, or an unsigned one, that a
      varint may stand for differ by this much. */
  function Modulus(f: Field): nat { if f.ltype.Varint? && f.dataSize < 8 then TWO32 else TWO64 }

  lemma {:induction false} NumberStandsFor(f: Field, w: nat)
    requires (f.ltype.Varint? || f.ltype.UVarint?) && IntSize(f.dataSize) && w < TWO64
    ensures (NumberOf(f, w) - w) % Modulus(f) == 0
    ensures f.ltype.UVarint? ==> 0 <= NumberOf(f, w) < TWO64
    ensures f.ltype.Varint? ==> 0 <= NumberOf(f, w) + Modulus(f) / 2 < Modulus(f)
  {
  }

  lemma {:induction false} InRangeOfWidth(f: Field, n: int)
    requires (f.ltype.Varint? || f.ltype.UVarint?) && IntSize(f.dataSize) && InRange(f, n)
    ensures f.ltype.UVarint? ==> 0 <= n < TWO64
    ensures f.ltype.Varint? ==> 0 <= n + Modulus(f) / 2 < Modulus(f)
  {
  }

  lemma {:induction false} AMultiple(m: int, k: int)
    requires m >= 0
    ensures k == 0 || m * k >= m || m * k <= -m
  {
    if k > 0 { assert m * k >= m * 1; } else if k < 0 { assert m * k <= m * -1; }
  }

  lemma {:induction false} OneOfThem(a: int, b: int, w: int, m: nat, lo: int)
    requires m > 0 && lo <= a < lo + m && lo <= b < lo + m && (a - w) % m == 0 && (b - w) % m == 0
    ensures a == b
  {
    assert a - b == m * ((a - w) / m - (b - w) / m);
    AMultiple(m, (a - w) / m - (b - w) / m);
  }

  /** A varint stands for the numbers that differ from it by a multiple of 2^64, in a
      signed field of at most 32 bits of 2^32: the field takes the one of its range, and
      without one the decoder fails. */
  lemma {:induction false} NumberByWidth(f: Field, s: seq<byte>, n: int)
    requires (f.ltype.Varint? || f.ltype.UVarint?) && IntSize(f.dataSize) && DecodeVarint(s).Some?
    ensures
      var w := DecodeVarint(s).value;
      DecodeNumber(f, s) == Some(Read(n, w.rest))
      <==> InRange(f, n) && (n - w.value) % (if f.ltype.Varint? && f.dataSize < 8 then TWO32 else TWO64) == 0
  {
    var w := DecodeVarint(s).value;
    var x := NumberOf(f, w.value);
    NumberStandsFor(f, w.value);
    if InRange(f, n) && (n - w.value) % Modulus(f) == 0 {
      InRangeOfWidth(f, n);
      OneOfThem(n, x, w.value, Modulus(f), if f.ltype.Varint? then -(Modulus(f) / 2) else 0);
    }
  }
}
