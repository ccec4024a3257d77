/** Decoding what was encoded. */
module PbRoundTrip {
  import opened Options
  import opened Bytes
  import opened PbVarint
  import opened PbSchema
  import opened PbEncoding
  import opened PbDecoding

  /** A value as it comes back. */
  function NormValue(fields: seq<Field>, i: nat, v: Value): Value
    requires i < |fields|
    decreases fields, 0, 0
  {
    var f := fields[i];
    if f.ltype.Submessage? && v.Message? && |v.slots| == |f.sub| then Message(Norm(f.sub, v.slots)) else v
  }

  function NormItems(fields: seq<Field>, i: nat, vs: seq<Value>): (r: seq<Value>)
    requires i < |fields|
    ensures |r| == |vs|
    decreases fields, 1, |vs|
  {
    if vs == [] then [] else NormItems(fields, i, vs[..|vs| - 1]) + [NormValue(fields, i, vs[|vs| - 1])]
  }

  /** A slot as it comes back: what was absent is at its default. A field without
      presence of its own comes back as it was, sent or not. */
  function NormSlot(fields: seq<Field>, slots: seq<Slot>, i: nat): Slot
    requires i < |fields| == |slots|
    decreases fields, 2, 0
  {
    match fields[i].htype
    case Required | Singular => if slots[i].Plain? then Plain(NormValue(fields, i, slots[i].v)) else slots[i]
    case Optional =>
      if slots[i].Has? && slots[i].present then Has(true, NormValue(fields, i, slots[i].v)) else DefaultSlot(fields, i)
    case Repeated => if slots[i].Items? then Items(NormItems(fields, i, slots[i].vs)) else slots[i]
    case Oneof(leader) =>
      if leader != i then Shared
      else
        var c := Member(fields, slots[i], leader);
        if c.None? then Unchosen else Chosen(slots[i].which, NormValue(fields, c.value, slots[i].v))
  }

  /** The member of a union that its which_ tag names. */
  function Member(fields: seq<Field>, u: Slot, leader: nat): (r: Option<nat>)
    ensures r.Some? ==> r.value < |fields| && u.Chosen? && fields[r.value].tag == u.which
                        && fields[r.value].htype == Oneof(leader)
  {
    if !u.Chosen? then None
    else
      var c := Find(fields, u.which);
      if c.Some? && fields[c.value].htype == Oneof(leader) then c else None
  }

  function NormFrom(fields: seq<Field>, slots: seq<Slot>, i: nat): (r: seq<Slot>)
    requires i <= |fields| == |slots|
    ensures |r| == |fields| - i
    ensures forall k :: 0 <= k < |r| ==> r[k] == NormSlot(fields, slots, i + k)
    decreases fields, 3, |fields| - i
  {
    if i == |fields| then [] else [NormSlot(fields, slots, i)] + NormFrom(fields, slots, i + 1)
  }

  /** The message with absent fields at their defaults. */
  function Norm(fields: seq<Field>, slots: seq<Slot>): (r: seq<Slot>)
    requires |fields| == |slots|
    ensures |r| == |fields|
    ensures forall k :: 0 <= k < |r| ==> r[k] == NormSlot(fields, slots, k)
    decreases fields, 4, 0
  {
    NormFrom(fields, slots, 0)
  }

  /** A number, string or bytes value that is not sent is the default, and the default
      is not sent. */
  lemma {:induction false} ZeroIff(fields: seq<Field>, i: nat, v: Value)
    requires i < |fields| && FitsValue(fields, i, v) && !fields[i].ltype.Submessage?
    ensures IsZero(fields, i, v) <==> v == Number(0) || v == Blob([])
  {
  }

  /** A value that is not sent comes back: it is what the decoder starts from. */
  lemma {:induction false} ZeroIsDefault(fields: seq<Field>, i: nat, v: Value)
    requires WellFormed(fields) && i < |fields| && FitsValue(fields, i, v) && fields[i].initial.None?
    requires IsZero(fields, i, v)
    ensures NormValue(fields, i, v) == InitialValue(fields, i)
    decreases fields, 0, 0
  {
    var f := fields[i];
    if f.ltype.Submessage? {
      AllZeroIsDefault(f.sub, v.slots, 0);
      assert Norm(f.sub, v.slots) == Defaults(f.sub);
    } else if f.ltype.FixedLengthBytes? {
      assert v.b == seq(f.dataSize, _ => 0);
    }
  }

  lemma {:induction false} AllZeroIsDefault(fields: seq<Field>, slots: seq<Slot>, k: nat)
    requires WellFormed(fields) && Fits(fields, slots) && k <= |fields| && AllZero(fields, slots, k)
    ensures forall i :: k <= i < |fields| ==> NormSlot(fields, slots, i) == DefaultSlot(fields, i)
    decreases fields, 2, |fields| - k
  {
    if k < |fields| {
      ZeroSlotIsDefault(fields, slots, k);
      AllZeroIsDefault(fields, slots, k + 1);
    }
  }

  lemma {:induction false} ZeroSlotIsDefault(fields: seq<Field>, slots: seq<Slot>, i: nat)
    requires WellFormed(fields) && Fits(fields, slots) && i < |fields| && IsZeroSlot(fields, slots, i)
    ensures NormSlot(fields, slots, i) == DefaultSlot(fields, i)
    decreases fields, 1, 0
  {
    assert FitsSlot(fields, i, slots[i]);
    if fields[i].htype.Singular? { ZeroIsDefault(fields, i, slots[i].v); }
  }

  /** A string that is sent leaves room for the zero that the decoder puts after it;
      the encoder also sends one that fills its array. */
  predicate RoomValue(fields: seq<Field>, i: nat, v: Value)
    requires i < |fields|
    decreases fields, 0, 0
  {
    var f := fields[i];
    if f.ltype.String? then v.Blob? && |v.b| < f.dataSize
    else if f.ltype.Submessage? then v.Message? && |v.slots| == |f.sub| && Room(f.sub, v.slots)
    else true
  }

  predicate RoomSlot(fields: seq<Field>, slots: seq<Slot>, i: nat)
    requires i < |fields| == |slots|
    decreases fields, 1, 0
  {
    match fields[i].htype
    case Required => slots[i].Plain? ==> RoomValue(fields, i, slots[i].v)
    case Singular => slots[i].Plain? && !IsZero(fields, i, slots[i].v) ==> RoomValue(fields, i, slots[i].v)
    case Optional => slots[i].Has? && slots[i].present ==> RoomValue(fields, i, slots[i].v)
    case Repeated => slots[i].Items? ==> forall k :: 0 <= k < |slots[i].vs| ==> RoomValue(fields, i, slots[i].vs[k])
    case Oneof(leader) =>
      var u := Union(fields, slots, i);
      u.Chosen? && u.which == fields[i].tag ==> RoomValue(fields, i, u.v)
  }

  /** Every string that is sent, at every level, leaves room for its zero. */
  predicate Room(fields: seq<Field>, slots: seq<Slot>)
    requires |fields| == |slots|
    decreases fields, 2, 0
  {
    forall i :: 0 <= i < |fields| ==> RoomSlot(fields, slots, i)
  }

  lemma {:induction false} LittleEndianRoundTrip(n: nat, k: nat)
    requires n < Pow256(k)
    ensures FromLittleEndian(LittleEndian(n, k)) == n
    decreases k
  {
    if k > 0 {
      assert LittleEndian(n, k)[1..] == LittleEndian(n / 256, k - 1);
      LittleEndianRoundTrip(n / 256, k - 1);
    }
  }

  function Pow256(k: nat): nat { if k == 0 then 1 else 256 * Pow256(k - 1) }

  lemma {:induction false} FixedWidths()
    ensures Pow256(4) == TWO32 && Pow256(8) == TWO64
  {
    assert Pow256(4) == TWO32;
  }

  lemma {:induction false} FixedRoundTrip(n: nat, k: nat, rest: seq<byte>)
    requires n < Pow256(k)
    ensures
      var c := ReadBytes(LittleEndian(n, k) + rest, k);
      c.Some? && FromLittleEndian(c.value.value) == n && c.value.rest == rest
  {
    var s := LittleEndian(n, k) + rest;
    LittleEndianRoundTrip(n, k);
    assert s[..k] == LittleEndian(n, k) && s[k..] == rest;
  }

  lemma {:induction false} SignedRoundTrip(f: Field, n: int)
    requires f.ltype.Varint? && IntSize(f.dataSize) && InRange(f, n)
    ensures -TWO63 <= n < TWO63 && NumberOf(f, Word64(n)) == n
  {
    if f.dataSize != 8 { assert Word64(n) % TWO32 == if n < 0 then n + TWO32 else n; }
  }

  /** Every number in the range of its field comes back. */
  lemma {:induction false} NumberRoundTrip(f: Field, n: int, rest: seq<byte>)
    requires Packable(f.ltype) && InRange(f, n) && EncodeNumber(f, n).Some?
    ensures DecodeNumber(f, EncodeNumber(f, n).value + rest) == Some(Read(n, rest))
  {
    match f.ltype
    case Varint =>
      SignedRoundTrip(f, n);
      VarintRoundTrip(Word64(n), rest);
    case UVarint => VarintRoundTrip(n, rest);
    case SVarint =>
      ZigzagRoundTrip(n, 0);
      VarintRoundTrip(Zigzag(n), rest);
    case Fixed32 => FixedWidths(); FixedRoundTrip(n, 4, rest);
    case Fixed64 => FixedWidths(); FixedRoundTrip(n, 8, rest);
  }

  lemma {:induction false} NoZero(b: seq<byte>)
    requires 0 !in b
    ensures CString(b) == b
  {
    if b != [] {
      assert b[0] in b;
      NoZero(b[1..]);
    }
  }

  /** A chunk comes back, whatever follows. */
  lemma {:induction false} ChunkRoundTrip(b: seq<byte>, rest: seq<byte>)
    requires |b| < TWO32
    ensures DecodeVarint32(Delimited(b) + rest) == Some(Read(|b|, b + rest))
    ensures ReadBytes(b + rest, |b|) == Some(Read(b, rest))
    ensures ReadChunk(Delimited(b) + rest) == Some(Read(b, rest))
  {
    assert Delimited(b) + rest == EncodeVarint(|b|) + (b + rest);
    Varint32RoundTrip(|b|, b + rest);
    assert (b + rest)[..|b|] == b && (b + rest)[|b|..] == rest;
  }

  lemma {:induction false} TagDecodes(tag: nat, w: WireType, v: nat, rest: seq<byte>)
    requires tag < 0x2000_0000 && v == tag * 8 + WireCode(w)
    ensures DecodeVarint32(TagBytes(tag, w) + rest) == Some(Read(v, rest))
    ensures v / 8 == tag && v % 8 == WireCode(w)
  {
    assert TagBytes(tag, w) == EncodeVarint(v);
    Varint32RoundTrip(v, rest);
  }

  /** A field's tag is read back, with its wire type, and found. */
  lemma {:induction false} TagRoundTrip(fields: seq<Field>, i: nat, w: WireType, rest: seq<byte>)
    requires WellFormed(fields) && i < |fields|
    ensures
      var t := DecodeVarint32(TagBytes(fields[i].tag, w) + rest);
      && t.Some? && t.value.rest == rest
      && t.value.value > 0 && t.value.value / 8 == fields[i].tag && t.value.value % 8 == WireCode(w)
      && Find(fields, fields[i].tag) == Some(i)
  {
    TagDecodes(fields[i].tag, w, fields[i].tag * 8 + WireCode(w), rest);
    FindOwn(fields, i, 0);
  }

  /** What one record does to the loop. */
  lemma {:induction false} RecordOutcome(fields: seq<Field>, slots: seq<Slot>, seen: set<nat>, i: nat, w: WireType,
        s: seq<byte>)
    requires WellFormed(fields) && i < |fields| == |slots|
    ensures
      var r := DecodeField(fields, slots, i, WireCode(w), s);
      DecodeLoop(fields, slots, seen, TagBytes(fields[i].tag, w) + s)
      == if r.None? then None else DecodeLoop(fields, r.value.value, See(fields, seen, i), r.value.rest)
  {
    TagRoundTrip(fields, i, w, s);
    assert TagBytes(fields[i].tag, w) + s != [];
  }

  /** The state after decoding the first i fields of an encoded message. */
  function PartialSlot(fields: seq<Field>, slots: seq<Slot>, i: nat, j: nat): Slot
    requires j < |fields| == |slots|
  {
    match fields[j].htype
    case Oneof(leader) =>
      if leader != j then Shared
      else
        var c := Member(fields, slots[j], leader);
        if c.Some? && c.value < i then NormSlot(fields, slots, j) else Unchosen
    case _ => if j < i then NormSlot(fields, slots, j) else DefaultSlot(fields, j)
  }

  function Partial(fields: seq<Field>, slots: seq<Slot>, i: nat): (r: seq<Slot>)
    requires |fields| == |slots|
    ensures |r| == |fields| && forall j :: 0 <= j < |r| ==> r[j] == PartialSlot(fields, slots, i, j)
  {
    seq(|fields|, j requires 0 <= j < |fields| => PartialSlot(fields, slots, i, j))
  }

  lemma {:induction false} PartialStart(fields: seq<Field>, slots: seq<Slot>)
    requires |fields| == |slots|
    ensures Partial(fields, slots, 0) == Defaults(fields)
  {
  }

  lemma {:induction false} PartialEnd(fields: seq<Field>, slots: seq<Slot>)
    requires |fields| == |slots|
    ensures Partial(fields, slots, |fields|) == Norm(fields, slots)
  {
  }

  /** The fields other than i, and unions without member i chosen, do not change. */
  lemma {:induction false} PartialNext(fields: seq<Field>, slots: seq<Slot>, i: nat)
    requires WellFormed(fields) && Fits(fields, slots) && i < |fields|
    ensures !fields[i].htype.Oneof? ==>
              Partial(fields, slots, i + 1) == Partial(fields, slots, i)[i := NormSlot(fields, slots, i)]
    ensures fields[i].htype.Oneof? ==>
              var leader, u := fields[i].htype.leader, Union(fields, slots, i);
              Partial(fields, slots, i + 1)
              == if u.Chosen? && u.which == fields[i].tag
                 then Partial(fields, slots, i)[leader := Chosen(u.which, NormValue(fields, i, u.v))]
                 else Partial(fields, slots, i)
  {
    FindOwn(fields, i, 0);
  }

  /** One value with what follows it: it comes back, unless it holds a string that
      leaves no room for its zero. */
  lemma {:induction false} ValueOutcome(fields: seq<Field>, i: nat, v: Value, before: Value, rest: seq<byte>)
    requires WellFormed(fields) && i < |fields| && FitsValue(fields, i, v)
    requires EncodeValue(fields, i, v).Some? && |EncodeValue(fields, i, v).value| < TWO32
    requires fields[i].ltype.Submessage? && !fields[i].htype.Repeated? ==> before == Message(Defaults(fields[i].sub))
    ensures DecodeValue(fields, i, before, EncodeValue(fields, i, v).value + rest)
            == if RoomValue(fields, i, v) then Some(Read(NormValue(fields, i, v), rest)) else None
    decreases fields, 0, 0
  {
    var f := fields[i];
    if Packable(f.ltype) {
      NumberRoundTrip(f, v.n, rest);
    } else if f.ltype.Submessage? {
      var sub := Encode(f.sub, v.slots).value;
      ChunkRoundTrip(sub, rest);
      MessageOutcome(f.sub, v.slots);
    } else {
      ChunkRoundTrip(v.b, rest);
      if f.ltype.String? { NoZero(v.b); }
      if v.b == [] {
        assert v.b + rest == rest;
        var zeros: seq<byte> := seq(f.dataSize, _ => 0);
        assert f.ltype.FixedLengthBytes? ==> zeros == v.b;
      }
    }
  }

  /** A tagged value is read by its field. */
  lemma {:induction false} TaggedOutcome(fields: seq<Field>, slots: seq<Slot>, seen: set<nat>, i: nat, v: Value,
        rest: seq<byte>)
    requires WellFormed(fields) && i < |fields| == |slots| && FitsValue(fields, i, v)
    requires EncodeTagged(fields, i, v).Some?
    ensures
      var r := DecodeField(fields, slots, i, WireCode(WireOf(fields[i].ltype)), EncodeValue(fields, i, v).value + rest);
      DecodeLoop(fields, slots, seen, EncodeTagged(fields, i, v).value + rest)
      == if r.None? then None else DecodeLoop(fields, r.value.value, See(fields, seen, i), r.value.rest)
  {
    var value, w := EncodeValue(fields, i, v).value, WireOf(fields[i].ltype);
    RecordOutcome(fields, slots, seen, i, w, value + rest);
    assert (TagBytes(fields[i].tag, w) + value) + rest == TagBytes(fields[i].tag, w) + (value + rest);
  }

  /** Where a field of a given kind puts a value it has decoded: a plain field, an
      optional one, the next entry of an array, or the union. */
  function Store(fields: seq<Field>, slots: seq<Slot>, i: nat, v: Value): (r: seq<Slot>)
    requires i < |fields| == |slots|
    requires fields[i].htype.Oneof? ==> fields[i].htype.leader < |slots|
    ensures |r| == |slots|
  {
    match fields[i].htype
    case Required | Singular => slots[i := Plain(v)]
    case Optional => slots[i := Has(true, v)]
    case Repeated => slots[i := Items((if slots[i].Items? then slots[i].vs else []) + [v])]
    case Oneof(leader) => slots[leader := Chosen(fields[i].tag, v)]
  }

  /** What is there before a value is decoded: merged submessages start from it. */
  function Before(fields: seq<Field>, slots: seq<Slot>, i: nat): Value
    requires i < |fields| == |slots|
  {
    match fields[i].htype
    case Repeated => Number(0)
    case Oneof(_) => Message(Defaults(fields[i].sub))
    case _ => ValueOf(slots[i])
  }

  /** A field that has room for a value and is not a packed array takes it. */
  predicate Takes(fields: seq<Field>, slots: seq<Slot>, i: nat)
    requires i < |fields| == |slots|
  {
    match fields[i].htype
    case Repeated => !Packable(fields[i].ltype) && slots[i].Items? && |slots[i].vs| < fields[i].arraySize
    case Oneof(leader) => leader < |slots| && slots[leader].Unchosen?
    case _ => true
  }

  lemma {:induction false} FieldTakes(fields: seq<Field>, slots: seq<Slot>, i: nat, wire: nat, s: seq<byte>)
    requires i < |fields| == |slots| && Takes(fields, slots, i)
    ensures
      var v := DecodeValue(fields, i, Before(fields, slots, i), s);
      DecodeField(fields, slots, i, wire, s)
      == if v.None? then None else Some(Read(Store(fields, slots, i, v.value.value), v.value.rest))
  {
  }

  /** An encoded value for a field that takes it. */
  lemma {:induction false} TakenOutcome(fields: seq<Field>, slots: seq<Slot>, seen: set<nat>, i: nat, v: Value,
        rest: seq<byte>)
    requires WellFormed(fields) && i < |fields| == |slots| && FitsValue(fields, i, v) && Takes(fields, slots, i)
    requires EncodeTagged(fields, i, v).Some? && |EncodeTagged(fields, i, v).value| < TWO32
    requires fields[i].ltype.Submessage? && !fields[i].htype.Repeated? ==>
               Before(fields, slots, i) == Message(Defaults(fields[i].sub))
    ensures DecodeLoop(fields, slots, seen, EncodeTagged(fields, i, v).value + rest)
            == if !RoomValue(fields, i, v) then None
               else DecodeLoop(fields, Store(fields, slots, i, NormValue(fields, i, v)), See(fields, seen, i), rest)
    decreases fields, 1, 0
  {
    ValueOutcome(fields, i, v, Before(fields, slots, i), rest);
    FieldTakes(fields, slots, i, WireCode(WireOf(fields[i].ltype)), EncodeValue(fields, i, v).value + rest);
    TaggedOutcome(fields, slots, seen, i, v, rest);
  }

  predicate AllFit(fields: seq<Field>, i: nat, vs: seq<Value>)
    requires i < |fields|
  {
    forall j :: 0 <= j < |vs| ==> FitsValue(fields, i, vs[j])
  }

  lemma {:induction false} PlainItems(fields: seq<Field>, i: nat, vs: seq<Value>)
    requires i < |fields| && !fields[i].ltype.Submessage?
    ensures NormItems(fields, i, vs) == vs
    decreases |vs|
  {
    if vs != [] { PlainItems(fields, i, vs[..|vs| - 1]); }
  }

  /** The entries of a packed array from k on. */
  lemma {:induction false} PackedOutcome(fields: seq<Field>, i: nat, vs: seq<Value>, k: nat)
    requires WellFormed(fields) && i < |fields| && Packable(fields[i].ltype) && AllFit(fields, i, vs)
    requires k <= |vs| <= fields[i].arraySize && EncodeItems(fields, i, vs, k, true).Some?
    ensures DecodePacked(fields, i, vs[..k], EncodeItems(fields, i, vs, k, true).value) == Some(vs)
    decreases |vs| - k
  {
    if k == |vs| {
      assert vs[..k] == vs;
    } else {
      var first, others := EncodeValue(fields, i, vs[k]).value, EncodeItems(fields, i, vs, k + 1, true).value;
      NumberRoundTrip(fields[i], vs[k].n, others);
      var whole := DecodeNumber(fields[i], first + others);
      assert first + others != [];
      PackedOutcome(fields, i, vs, k + 1);
      assert vs[..k] + [vs[k]] == vs[..k + 1];
    }
  }

  predicate RoomFrom(fields: seq<Field>, i: nat, vs: seq<Value>, k: nat)
    requires i < |fields|
  {
    forall j :: k <= j < |vs| ==> RoomValue(fields, i, vs[j])
  }

  lemma {:induction false} RoomSplit(fields: seq<Field>, i: nat, vs: seq<Value>, k: nat)
    requires i < |fields| && k < |vs|
    ensures RoomFrom(fields, i, vs, k) <==> RoomValue(fields, i, vs[k]) && RoomFrom(fields, i, vs, k + 1)
  {
  }

  /** The entries of an array that is not packed, from k on. */
  lemma {:induction false} ItemsOutcome(fields: seq<Field>, slots: seq<Slot>, seen: set<nat>, i: nat, vs: seq<Value>,
        k: nat, rest: seq<byte>)
    requires WellFormed(fields) && i < |fields| == |slots| && fields[i].htype.Repeated? && !Packable(fields[i].ltype)
    requires AllFit(fields, i, vs) && k <= |vs| <= fields[i].arraySize && EncodeItems(fields, i, vs, k, false).Some?
    requires |EncodeItems(fields, i, vs, k, false).value| < TWO32
    requires slots[i] == Items(NormItems(fields, i, vs[..k]))
    ensures DecodeLoop(fields, slots, seen, EncodeItems(fields, i, vs, k, false).value + rest)
            == if RoomFrom(fields, i, vs, k)
               then DecodeLoop(fields, slots[i := Items(NormItems(fields, i, vs))], seen, rest)
               else None
    decreases fields, 2, |vs| - k
  {
    if k == |vs| {
      assert vs[..k] == vs && slots[i := slots[i]] == slots;
      assert [] + rest == rest;
    } else {
      var first, others := EncodeTagged(fields, i, vs[k]).value, EncodeItems(fields, i, vs, k + 1, false).value;
      var done := NormItems(fields, i, vs[..k]);
      TakenOutcome(fields, slots, seen, i, vs[k], others + rest);
      assert EncodeItems(fields, i, vs, k, false).value == first + others;
      assert (first + others) + rest == first + (others + rest);
      RoomSplit(fields, i, vs, k);
      if RoomValue(fields, i, vs[k]) {
        var next := slots[i := Items(done + [NormValue(fields, i, vs[k])])];
        assert vs[..k + 1][..k] == vs[..k];
        ItemsOutcome(fields, next, seen, i, vs, k + 1, rest);
        assert next[i := Items(NormItems(fields, i, vs))] == slots[i := Items(NormItems(fields, i, vs))];
      }
    }
  }

  /** A packed array as its field reads it. */
  lemma {:induction false} PackedField(fields: seq<Field>, slots: seq<Slot>, i: nat, vs: seq<Value>, s: seq<byte>,
        rest: seq<byte>)
    requires i < |fields| == |slots| && fields[i].htype.Repeated? && Packable(fields[i].ltype) && slots[i] == Items([])
    requires |s| < TWO32 && DecodePacked(fields, i, [], s) == Some(vs)
    ensures DecodeField(fields, slots, i, 2, Delimited(s) + rest) == Some(Read(slots[i := Items(vs)], rest))
  {
    ChunkRoundTrip(s, rest);
  }

  /** A packed array into an empty one. */
  lemma {:induction false} PackedArrayOutcome(fields: seq<Field>, slots: seq<Slot>, seen: set<nat>, i: nat,
        vs: seq<Value>, items: seq<byte>, rest: seq<byte>)
    requires WellFormed(fields) && i < |fields| == |slots| && fields[i].htype.Repeated? && slots[i] == Items([])
    requires Packable(fields[i].ltype) && |items| < TWO32 && DecodePacked(fields, i, [], items) == Some(vs)
    ensures DecodeLoop(fields, slots, seen, (TagBytes(fields[i].tag, WireString) + Delimited(items)) + rest)
            == DecodeLoop(fields, slots[i := Items(vs)], seen, rest)
  {
    var tag := TagBytes(fields[i].tag, WireString);
    PackedField(fields, slots, i, vs, items, rest);
    RecordOutcome(fields, slots, seen, i, WireString, Delimited(items) + rest);
    assert (tag + Delimited(items)) + rest == tag + (Delimited(items) + rest);
  }

  /** A whole array into an empty one. */
  lemma {:induction false} ArrayOutcome(fields: seq<Field>, slots: seq<Slot>, seen: set<nat>, i: nat, vs: seq<Value>,
        rest: seq<byte>)
    requires WellFormed(fields) && i < |fields| == |slots| && fields[i].htype.Repeated? && AllFit(fields, i, vs)
    requires EncodeArray(fields, i, vs).Some? && |EncodeArray(fields, i, vs).value| < TWO32
    requires slots[i] == Items([])
    ensures DecodeLoop(fields, slots, seen, EncodeArray(fields, i, vs).value + rest)
            == if RoomFrom(fields, i, vs, 0)
               then DecodeLoop(fields, slots[i := Items(NormItems(fields, i, vs))], seen, rest)
               else None
    decreases fields, 3, 0
  {
    if vs == [] {
      assert slots[i := Items([])] == slots && [] + rest == rest;
    } else if Packable(fields[i].ltype) {
      PlainItems(fields, i, vs);
      PackedOutcome(fields, i, vs, 0);
      assert vs[..0] == [];
      PackedArrayOutcome(fields, slots, seen, i, vs, EncodeItems(fields, i, vs, 0, true).value, rest);
    } else {
      ItemsOutcome(fields, slots, seen, i, vs, 0, rest);
    }
  }

  /** A submessage that was not decoded yet is merged into its defaults. */
  lemma {:induction false} StartsFromDefaults(fields: seq<Field>, slots: seq<Slot>, i: nat)
    requires i < |fields| == |slots| && slots[i] == DefaultSlot(fields, i)
    requires fields[i].ltype.Submessage? && !fields[i].htype.Repeated?
    ensures Before(fields, slots, i) == Message(Defaults(fields[i].sub))
  {
  }

  /** What encoding field i sends, read back into the state after the fields
      before it. */
  lemma {:induction false} FieldOutcome(fields: seq<Field>, slots: seq<Slot>, seen: set<nat>, i: nat, rest: seq<byte>)
    requires WellFormed(fields) && Fits(fields, slots) && i < |fields|
    requires EncodeField(fields, slots, i).Some? && |EncodeField(fields, slots, i).value| < TWO32
    ensures DecodeLoop(fields, Partial(fields, slots, i), seen, EncodeField(fields, slots, i).value + rest)
            == if RoomSlot(fields, slots, i)
               then DecodeLoop(fields, Partial(fields, slots, i + 1), See(fields, seen, i), rest) else None
    decreases fields, 4, 0
  {
    var s, state := slots[i], Partial(fields, slots, i);
    assert FitsSlot(fields, i, s);
    assert state[i] == PartialSlot(fields, slots, i, i);
    PartialNext(fields, slots, i);
    assert [] + rest == rest;
    if fields[i].ltype.Submessage? && state[i] == DefaultSlot(fields, i) && !fields[i].htype.Repeated? {
      StartsFromDefaults(fields, state, i);
    }
    match fields[i].htype
    case Required => TakenOutcome(fields, state, seen, i, s.v, rest);
    case Optional =>
      if s.present { TakenOutcome(fields, state, seen, i, s.v, rest); } else { assert state[i := state[i]] == state; }
    case Singular =>
      if !IsZero(fields, i, s.v) {
        TakenOutcome(fields, state, seen, i, s.v, rest);
      } else {
        ZeroIsDefault(fields, i, s.v);
        assert state[i := state[i]] == state;
      }
    case Repeated => ArrayOutcome(fields, state, seen, i, s.vs, rest);
    case Oneof(leader) =>
      var u := Union(fields, slots, i);
      if u.Chosen? && u.which == fields[i].tag {
        UnionFits(fields, slots, i);
        UnchosenYet(fields, slots, i);
        TakenOutcome(fields, state, seen, i, u.v, rest);
      }
  }

  /** Before member i is decoded, its union is not chosen. */
  lemma {:induction false} UnchosenYet(fields: seq<Field>, slots: seq<Slot>, i: nat)
    requires WellFormed(fields) && Fits(fields, slots) && i < |fields| && fields[i].htype.Oneof?
    requires Union(fields, slots, i).Chosen? && Union(fields, slots, i).which == fields[i].tag
    ensures Partial(fields, slots, i)[fields[i].htype.leader].Unchosen?
  {
    FindOwn(fields, i, 0);
  }

  function SeeFrom(fields: seq<Field>, seen: set<nat>, i: nat): (r: set<nat>)
    requires i <= |fields|
    ensures seen <= r && forall j :: i <= j < |fields| && Tracked(fields, j) ==> RequiredBefore(fields, j) in r
    decreases |fields| - i
  {
    if i == |fields| then seen else SeeFrom(fields, See(fields, seen, i), i + 1)
  }

  predicate RoomSlots(fields: seq<Field>, slots: seq<Slot>, i: nat)
    requires |fields| == |slots|
  {
    forall j :: i <= j < |fields| ==> RoomSlot(fields, slots, j)
  }

  lemma {:induction false} RoomSlotsSplit(fields: seq<Field>, slots: seq<Slot>, i: nat)
    requires i < |fields| == |slots|
    ensures RoomSlots(fields, slots, i) <==> RoomSlot(fields, slots, i) && RoomSlots(fields, slots, i + 1)
  {
  }

  /** The fields from i on. */
  lemma {:induction false} FieldsOutcome(fields: seq<Field>, slots: seq<Slot>, seen: set<nat>, i: nat)
    requires WellFormed(fields) && Fits(fields, slots) && i <= |fields|
    requires EncodeFrom(fields, slots, i).Some? && |EncodeFrom(fields, slots, i).value| < TWO32
    ensures DecodeLoop(fields, Partial(fields, slots, i), seen, EncodeFrom(fields, slots, i).value)
            == if RoomSlots(fields, slots, i)
               then Some(Loop(Partial(fields, slots, |fields|), SeeFrom(fields, seen, i), [], false)) else None
    decreases fields, 5, |fields| - i
  {
    if i < |fields| {
      var first, others := EncodeField(fields, slots, i).value, EncodeFrom(fields, slots, i + 1).value;
      assert EncodeFrom(fields, slots, i).value == first + others;
      RoomSlotsSplit(fields, slots, i);
      FieldOutcome(fields, slots, seen, i, others);
      if RoomSlot(fields, slots, i) { FieldsOutcome(fields, slots, See(fields, seen, i), i + 1); }
    }
  }

  /** Round trip: decoding an encoded message of less than 2^32 bytes takes all of
      it and yields the message with absent fields at their defaults, exactly if
      every string that was sent leaves room for its zero; else it fails. */
  lemma {:induction false} MessageOutcome(fields: seq<Field>, slots: seq<Slot>)
    requires WellFormed(fields) && Fits(fields, slots)
    requires Encode(fields, slots).Some? && |Encode(fields, slots).value| < TWO32
    ensures Decode(fields, Encode(fields, slots).value)
            == if Room(fields, slots) then Some(Read(Norm(fields, slots), [])) else None
    decreases fields, 6, 0
  {
    PartialStart(fields, slots);
    PartialEnd(fields, slots);
    FieldsOutcome(fields, slots, {}, 0);
  }

  /** A required string of one byte that fills its field: it is sent, and it is not
      read back. */
  lemma {:induction false} FullStringIsLost(fields: seq<Field>, slots: seq<Slot>)
    requires fields == [Field(1, String, Required, 0, 0, 1, 0, [], None)] && slots == [Plain(Blob([65]))]
    ensures WellFormed(fields) && Fits(fields, slots) && Encode(fields, slots).Some?
    ensures Decode(fields, Encode(fields, slots).value) == None
  {
    FullStringIsSent(fields, slots);
    MessageOutcome(fields, slots);
  }

  lemma {:induction false} FullStringIsSent(fields: seq<Field>, slots: seq<Slot>)
    requires fields == [Field(1, String, Required, 0, 0, 1, 0, [], None)] && slots == [Plain(Blob([65]))]
    ensures WellFormed(fields) && Fits(fields, slots) && !Room(fields, slots)
    ensures Encode(fields, slots).Some? && |Encode(fields, slots).value| < TWO32
  {
    var f, v := fields[0], slots[0].v;
    assert f.ltype.String? && f.htype.Required? && v == Blob([65]);
    assert FitsValue(fields, 0, v);
    assert FitsSlot(fields, 0, slots[0]);
    assert !RoomSlot(fields, slots, 0);
    var sent := TagBytes(f.tag, WireOf(f.ltype)) + Delimited(v.b);
    VarintRoundTrip(1, []);
    VarintRoundTrip(10, []);
    assert EncodeTagged(fields, 0, v) == Some(sent);
    assert EncodeField(fields, slots, 0) == Some(sent);
    assert EncodeFrom(fields, slots, 1) == Some([]);
  }
}
