/** A field that comes more than once: numbers and strings are replaced, submessages
    merged, arrays extended, and the last member of a union wins. */
module PbMerge {
  import opened Options
  import opened Bytes
  import opened PbVarint
  import opened PbSchema
  import opened PbEncoding
  import opened PbDecoding
  import R = PbRoundTrip
  import C = PbConcat
  import W = PbWire

  /** A submessage that can be merged: nothing in it is required, and the first part
      is decoded to its end without a terminator. */
  predicate Mergeable(sub: seq<Field>, start: seq<Slot>, a: seq<byte>) {
    && |sub| == |start| && (forall k :: 0 <= k < |sub| ==> !sub[k].htype.Required?)
    && DecodeLoop(sub, start, {}, a).Some? && !DecodeLoop(sub, start, {}, a).value.stopped
  }

  /** A submessage's bytes are decoded into what is there. */
  lemma {:induction false} SubmessageValue(fields: seq<Field>, i: nat, before: Value, a: seq<byte>, rest: seq<byte>)
    requires i < |fields| && fields[i].ltype.Submessage? && !fields[i].htype.Repeated? && |a| < TWO32
    ensures
      var m := DecodeInto(fields[i].sub, SlotsOf(fields[i].sub, before), a);
      DecodeValue(fields, i, before, EncodeVarint(|a|) + a + rest)
      == if m.None? then None else Some(Read(Message(m.value.value), rest))
  {
    R.ChunkRoundTrip(a, rest);
  }

  /** Twice is once with the two parts together. */
  lemma {:induction false} ValueTwice(fields: seq<Field>, i: nat, before: Value, a: seq<byte>, b: seq<byte>,
        rest: seq<byte>)
    requires i < |fields| && fields[i].ltype.Submessage? && !fields[i].htype.Repeated? && |a + b| < TWO32
    requires Mergeable(fields[i].sub, SlotsOf(fields[i].sub, before), a)
    ensures
      var first := DecodeValue(fields, i, before, EncodeVarint(|a|) + a + rest);
      && first.Some? && first.value.rest == rest
      && DecodeValue(fields, i, first.value.value, EncodeVarint(|b|) + b + rest)
         == DecodeValue(fields, i, before, EncodeVarint(|a + b|) + (a + b) + rest)
  {
    var sub := fields[i].sub;
    var start := SlotsOf(sub, before);
    SubmessageValue(fields, i, before, a, rest);
    SubmessageValue(fields, i, before, a + b, rest);
    C.DecodeConcat(sub, start, a, b);
    var m := DecodeInto(sub, start, a).value.value;
    SubmessageValue(fields, i, Message(m), b, rest);
    assert SlotsOf(sub, Message(m)) == m;
  }

  predicate Single(h: HType) { h.Required? || h.Optional? || h.Singular? }

  lemma {:induction false} SeeTwice(fields: seq<Field>, seen: set<nat>, i: nat)
    requires i < |fields|
    ensures See(fields, See(fields, seen, i), i) == See(fields, seen, i)
  {
  }

  /** The state of a single field. */
  function Kept(fields: seq<Field>, i: nat, v: Value): Slot
    requires i < |fields|
  {
    if fields[i].htype.Optional? then Has(true, v) else Plain(v)
  }

  /** A record of a single field, as the loop reads it. */
  lemma {:induction false} SingleRecord(fields: seq<Field>, slots: seq<Slot>, seen: set<nat>, i: nat, w: WireType,
        s: seq<byte>)
    requires WellFormed(fields) && i < |fields| == |slots| && Single(fields[i].htype)
    ensures
      var v := DecodeValue(fields, i, ValueOf(slots[i]), s);
      DecodeLoop(fields, slots, seen, TagBytes(fields[i].tag, w) + s)
      == if v.None? then None
         else DecodeLoop(fields, slots[i := Kept(fields, i, v.value.value)], See(fields, seen, i), v.value.rest)
  {
    R.RecordOutcome(fields, slots, seen, i, w, s);
  }

  lemma {:induction false} Joined(t: seq<byte>, n: seq<byte>, a: seq<byte>, rest: seq<byte>)
    ensures (t + (n + a)) + rest == t + (n + a + rest)
  {
  }

  /** Two records of a single field, one after the other. */
  lemma {:induction false} TwoRecords(fields: seq<Field>, slots: seq<Slot>, seen: set<nat>, i: nat, w: WireType,
        v: Value, s: seq<byte>)
    requires WellFormed(fields) && i < |fields| == |slots| && Single(fields[i].htype)
    ensures
      var x := DecodeValue(fields, i, v, s);
      DecodeLoop(fields, slots[i := Kept(fields, i, v)], See(fields, seen, i), TagBytes(fields[i].tag, w) + s)
      == if x.None? then None
         else DecodeLoop(fields, slots[i := Kept(fields, i, x.value.value)], See(fields, seen, i), x.value.rest)
  {
    var between := slots[i := Kept(fields, i, v)];
    SingleRecord(fields, between, See(fields, seen, i), i, w, s);
    SeeTwice(fields, seen, i);
    var x := DecodeValue(fields, i, v, s);
    if x.Some? {
      var last := Kept(fields, i, x.value.value);
      assert between[i := last] == slots[i := last];
    }
  }

  /** What the first part makes of the field does not depend on what follows. */
  lemma {:induction false} FirstPart(fields: seq<Field>, i: nat, before: Value, a: seq<byte>, b: seq<byte>,
        rest: seq<byte>, more: seq<byte>)
    returns (v: Value)
    requires i < |fields| && fields[i].ltype.Submessage? && !fields[i].htype.Repeated? && |a + b| < TWO32
    requires Mergeable(fields[i].sub, SlotsOf(fields[i].sub, before), a)
    ensures DecodeValue(fields, i, before, EncodeVarint(|a|) + a + more) == Some(Read(v, more))
    ensures DecodeValue(fields, i, v, EncodeVarint(|b|) + b + rest)
            == DecodeValue(fields, i, before, EncodeVarint(|a + b|) + (a + b) + rest)
  {
    ValueTwice(fields, i, before, a, b, rest);
    SubmessageValue(fields, i, before, a, more);
    SubmessageValue(fields, i, before, a, rest);
    v := DecodeValue(fields, i, before, EncodeVarint(|a|) + a + rest).value.value;
  }

  function SubmessageRecord(fields: seq<Field>, i: nat, a: seq<byte>): seq<byte>
    requires i < |fields|
  {
    W.Record(fields[i].tag, 2, EncodeVarint(|a|) + a)
  }

  /** The record of a submessage, as the loop reads it. */
  lemma {:induction false} SubmessageRecordIs(fields: seq<Field>, slots: seq<Slot>, seen: set<nat>, i: nat,
        a: seq<byte>, rest: seq<byte>)
    requires WellFormed(fields) && i < |fields| == |slots| && Single(fields[i].htype)
    ensures
      var v := DecodeValue(fields, i, ValueOf(slots[i]), EncodeVarint(|a|) + a + rest);
      DecodeLoop(fields, slots, seen, SubmessageRecord(fields, i, a) + rest)
      == if v.None? then None
         else DecodeLoop(fields, slots[i := Kept(fields, i, v.value.value)], See(fields, seen, i), v.value.rest)
  {
    Joined(TagBytes(fields[i].tag, WireString), EncodeVarint(|a|), a, rest);
    SingleRecord(fields, slots, seen, i, WireString, EncodeVarint(|a|) + a + rest);
  }

  /** Merging: a submessage that comes in two records is decoded as if its two parts
      came in one. */
  lemma {:induction false} SubmessageTwice(fields: seq<Field>, slots: seq<Slot>, seen: set<nat>, i: nat, a: seq<byte>,
        b: seq<byte>, rest: seq<byte>)
    requires WellFormed(fields) && i < |fields| == |slots| && Single(fields[i].htype) && fields[i].ltype.Submessage?
    requires |a + b| < TWO32 && Mergeable(fields[i].sub, SlotsOf(fields[i].sub, ValueOf(slots[i])), a)
    ensures
      DecodeLoop(fields, slots, seen, SubmessageRecord(fields, i, a) + (SubmessageRecord(fields, i, b) + rest))
      == DecodeLoop(fields, slots, seen, SubmessageRecord(fields, i, a + b) + rest)
  {
    var more := SubmessageRecord(fields, i, b) + rest;
    var v := FirstPart(fields, i, ValueOf(slots[i]), a, b, rest, more);
    SubmessageRecordIs(fields, slots, seen, i, a, more);
    Joined(TagBytes(fields[i].tag, WireString), EncodeVarint(|b|), b, rest);
    TwoRecords(fields, slots, seen, i, WireString, v, EncodeVarint(|b|) + b + rest);
    SubmessageRecordIs(fields, slots, seen, i, a + b, rest);
  }

  /** An array takes a number that comes on its own, not packed. */
  lemma {:induction false} NumberAppends(fields: seq<Field>, slots: seq<Slot>, seen: set<nat>, i: nat, v: Value,
        vs: seq<Value>, rest: seq<byte>)
    requires WellFormed(fields) && i < |fields| == |slots| && fields[i].htype.Repeated? && Packable(fields[i].ltype)
    requires FitsValue(fields, i, v) && slots[i] == Items(vs) && EncodeTagged(fields, i, v).Some?
    ensures DecodeLoop(fields, slots, seen, EncodeTagged(fields, i, v).value + rest)
            == if |vs| >= fields[i].arraySize then None
               else DecodeLoop(fields, slots[i := Items(vs + [v])], seen, rest)
  {
    R.TaggedOutcome(fields, slots, seen, i, v, rest);
    R.NumberRoundTrip(fields[i], v.n, rest);
  }

  /** Another part of a packed array goes behind what is there. */
  lemma {:induction false} PackedAppends(fields: seq<Field>, i: nat, vs: seq<Value>, more: seq<Value>, k: nat)
    requires WellFormed(fields) && i < |fields| && Packable(fields[i].ltype)
    requires forall j :: 0 <= j < |more| ==> FitsValue(fields, i, more[j])
    requires k <= |more| && EncodeItems(fields, i, more, k, true).Some?
    ensures DecodePacked(fields, i, vs + more[..k], EncodeItems(fields, i, more, k, true).value)
            == if |vs| + |more| <= fields[i].arraySize || k == |more| then Some(vs + more) else None
    decreases |more| - k
  {
    if k == |more| {
      assert more[..k] == more;
    } else {
      var first, others := EncodeValue(fields, i, more[k]).value, EncodeItems(fields, i, more, k + 1, true).value;
      R.NumberRoundTrip(fields[i], more[k].n, others);
      var whole := DecodeNumber(fields[i], first + others);
      assert first + others != [];
      if |vs| + k < fields[i].arraySize {
        PackedAppends(fields, i, vs, more, k + 1);
        assert vs + more[..k] + [more[k]] == vs + more[..k + 1];
      }
    }
  }

  lemma {:induction false} PackedFieldAppends(fields: seq<Field>, slots: seq<Slot>, i: nat, vs: seq<Value>,
        more: seq<Value>, items: seq<byte>, rest: seq<byte>)
    requires WellFormed(fields) && i < |fields| == |slots| && fields[i].htype.Repeated? && Packable(fields[i].ltype)
    requires forall j :: 0 <= j < |more| ==> FitsValue(fields, i, more[j])
    requires slots[i] == Items(vs) && more != [] && |items| < TWO32
    requires EncodeItems(fields, i, more, 0, true) == Some(items)
    ensures DecodeField(fields, slots, i, 2, EncodeVarint(|items|) + items + rest)
            == if |vs| + |more| > fields[i].arraySize then None else Some(Read(slots[i := Items(vs + more)], rest))
  {
    PackedAppends(fields, i, vs, more, 0);
    assert vs + more[..0] == vs;
    R.ChunkRoundTrip(items, rest);
  }

  /** The same of a whole record. */
  lemma {:induction false} PackedArrayAppends(fields: seq<Field>, slots: seq<Slot>, seen: set<nat>, i: nat,
        vs: seq<Value>, more: seq<Value>, items: seq<byte>, rest: seq<byte>)
    requires WellFormed(fields) && i < |fields| == |slots| && fields[i].htype.Repeated? && Packable(fields[i].ltype)
    requires forall j :: 0 <= j < |more| ==> FitsValue(fields, i, more[j])
    requires slots[i] == Items(vs) && more != [] && |items| < TWO32
    requires EncodeItems(fields, i, more, 0, true) == Some(items)
    ensures DecodeLoop(fields, slots, seen, W.Record(fields[i].tag, 2, EncodeVarint(|items|) + items) + rest)
            == if |vs| + |more| > fields[i].arraySize then None
               else DecodeLoop(fields, slots[i := Items(vs + more)], seen, rest)
  {
    PackedFieldAppends(fields, slots, i, vs, more, items, rest);
    Joined(TagBytes(fields[i].tag, WireString), EncodeVarint(|items|), items, rest);
    R.RecordOutcome(fields, slots, seen, i, WireString, EncodeVarint(|items|) + items + rest);
  }

  /** The last member of a union that comes is the one it holds, whichever it held. */
  lemma {:induction false} LastMemberWins(fields: seq<Field>, slots: seq<Slot>, seen: set<nat>, i: nat, leader: nat,
        v: Value, rest: seq<byte>)
    requires WellFormed(fields) && i < |fields| == |slots| && fields[i].htype == Oneof(leader)
    requires FitsValue(fields, i, v) && EncodeTagged(fields, i, v).Some? && |EncodeTagged(fields, i, v).value| < TWO32
    requires var u := slots[leader];
             u.Chosen? ==> exists k :: 0 <= k < |fields| && fields[k].tag == u.which
    ensures DecodeLoop(fields, slots, seen, EncodeTagged(fields, i, v).value + rest)
            == if !R.RoomValue(fields, i, v) then None
               else DecodeLoop(fields, slots[leader := Chosen(fields[i].tag, R.NormValue(fields, i, v))], seen, rest)
  {
    R.TaggedOutcome(fields, slots, seen, i, v, rest);
    R.ValueOutcome(fields, i, v, Message(Defaults(fields[i].sub)), rest);
  }

  /** A union that names no field of the message takes no member. */
  lemma {:induction false} UnknownMemberRefused(fields: seq<Field>, slots: seq<Slot>, i: nat, leader: nat, wire: nat,
        s: seq<byte>)
    requires i < |fields| == |slots| && fields[i].htype == Oneof(leader) && leader < |slots|
    requires slots[leader].Chosen? && slots[leader].which != 0
    requires forall k :: 0 <= k < |fields| ==> fields[k].tag != slots[leader].which
    ensures DecodeField(fields, slots, i, wire, s).None?
  {
    var found := Find(fields, slots[leader].which);
  }

  /** An empty string for a field of bytes of fixed length sets them to zero. */
  lemma {:induction false} EmptyFixedLength(fields: seq<Field>, i: nat, before: Value, rest: seq<byte>)
    requires i < |fields| && fields[i].ltype.FixedLengthBytes?
    ensures DecodeValue(fields, i, before, [0] + rest) == Some(Read(Blob(seq(fields[i].dataSize, _ => 0)), rest))
  {
    assert ([0] + rest)[1..] == rest;
  }
}
