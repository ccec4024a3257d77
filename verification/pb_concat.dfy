/** Decoding a concatenation: each reader takes the same bytes whatever follows, so
    inputs can be decoded one after the other, and unknown fields can be put
    between them. */
module PbConcat {
  import opened Options
  import opened Bytes
  import opened PbVarint
  import opened PbSchema
  import opened PbDecoding

  /** The result of a reader when more input follows. */
  function Before<T>(r: Read<T>, more: seq<byte>): Read<T> { Read(r.value, r.rest + more) }

  lemma {:induction false} MoreFrom(s: seq<byte>, more: seq<byte>, k: nat, sofar: nat)
    requires DecodeFrom(s, k, sofar).Some?
    ensures DecodeFrom(s + more, k, sofar) == Some(Before(DecodeFrom(s, k, sofar).value, more))
    decreases |s|
  {
    assert (s + more)[1..] == s[1..] + more;
    if s[0] >= 128 { MoreFrom(s[1..], more, k + 1, sofar + Shl(s[0] % 128, 7 * k)); }
  }

  lemma {:induction false} More32(s: seq<byte>, more: seq<byte>, bitpos: nat, sofar: nat)
    requires sofar < TWO32 && bitpos < 256 && DecodeMore32(s, bitpos, sofar).Some?
    ensures DecodeMore32(s + more, bitpos, sofar) == Some(Before(DecodeMore32(s, bitpos, sofar).value, more))
    decreases |s|
  {
    assert (s + more)[1..] == s[1..] + more;
    var now := if bitpos >= 32 then sofar else Or(sofar, Shl(s[0] % 128, bitpos)) % TWO32;
    if s[0] >= 128 { More32(s[1..], more, (bitpos + 7) % 256, now); }
  }

  lemma {:induction false} MoreVarint32(s: seq<byte>, more: seq<byte>)
    requires DecodeVarint32(s).Some?
    ensures DecodeVarint32(s + more) == Some(Before(DecodeVarint32(s).value, more))
  {
    assert (s + more)[1..] == s[1..] + more;
    if s[0] >= 128 { More32(s[1..], more, 7, s[0] % 128); }
  }

  lemma {:induction false} MoreBytes(s: seq<byte>, more: seq<byte>, n: nat)
    requires ReadBytes(s, n).Some?
    ensures ReadBytes(s + more, n) == Some(Before(ReadBytes(s, n).value, more))
  {
    assert (s + more)[..n] == s[..n] && (s + more)[n..] == s[n..] + more;
  }

  lemma {:induction false} MoreChunk(s: seq<byte>, more: seq<byte>)
    requires ReadChunk(s).Some?
    ensures ReadChunk(s + more) == Some(Before(ReadChunk(s).value, more))
  {
    MoreVarint32(s, more);
    var size := DecodeVarint32(s).value;
    MoreBytes(size.rest, more, size.value);
  }

  lemma {:induction false} MoreSkipVarint(s: seq<byte>, more: seq<byte>)
    requires SkipVarint(s).Some?
    ensures SkipVarint(s + more) == Some(SkipVarint(s).value + more)
    decreases |s|
  {
    assert (s + more)[1..] == s[1..] + more;
    if s[0] >= 128 { MoreSkipVarint(s[1..], more); }
  }

  lemma {:induction false} MoreSkip(s: seq<byte>, more: seq<byte>, wire: nat)
    requires Skip(s, wire).Some?
    ensures Skip(s + more, wire) == Some(Skip(s, wire).value + more)
  {
    if wire == 0 { MoreSkipVarint(s, more); }
    else if wire == 1 { assert (s + more)[8..] == s[8..] + more; }
    else if wire == 2 { MoreChunk(s, more); }
    else { assert (s + more)[4..] == s[4..] + more; }
  }

  lemma {:induction false} MoreNumber(f: Field, s: seq<byte>, more: seq<byte>)
    requires Packable(f.ltype) && DecodeNumber(f, s).Some?
    ensures DecodeNumber(f, s + more) == Some(Before(DecodeNumber(f, s).value, more))
  {
    if f.ltype.Fixed32? || f.ltype.Fixed64? {
      MoreBytes(s, more, if f.ltype.Fixed32? then 4 else 8);
    } else {
      MoreFrom(s, more, 0, 0);
    }
  }

  lemma {:induction false} MoreValue(fields: seq<Field>, i: nat, before: Value, s: seq<byte>, more: seq<byte>)
    requires i < |fields| && DecodeValue(fields, i, before, s).Some?
    ensures DecodeValue(fields, i, before, s + more) == Some(Before(DecodeValue(fields, i, before, s).value, more))
  {
    var f := fields[i];
    if Packable(f.ltype) {
      MoreNumber(f, s, more);
    } else {
      MoreVarint32(s, more);
      var size := DecodeVarint32(s).value;
      if !(f.ltype.FixedLengthBytes? && size.value == 0) { MoreBytes(size.rest, more, size.value); }
    }
  }

  lemma {:induction false} MoreField(fields: seq<Field>, slots: seq<Slot>, i: nat, wire: nat, s: seq<byte>,
        more: seq<byte>)
    requires i < |fields| == |slots| && DecodeField(fields, slots, i, wire, s).Some?
    ensures DecodeField(fields, slots, i, wire, s + more)
            == Some(Before(DecodeField(fields, slots, i, wire, s).value, more))
  {
    var f := fields[i];
    match f.htype
    case Required | Singular | Optional => MoreValue(fields, i, ValueOf(slots[i]), s, more);
    case Repeated =>
      if wire == 2 && Packable(f.ltype) { MoreChunk(s, more); } else { MoreValue(fields, i, Number(0), s, more); }
    case Oneof(_) => MoreValue(fields, i, Message(Defaults(f.sub)), s, more);
  }

  /** Concatenation: if the first input decodes to its end without a terminator, the
      second continues from what the first left. */
  lemma {:induction false} LoopConcat(fields: seq<Field>, slots: seq<Slot>, seen: set<nat>, a: seq<byte>, b: seq<byte>)
    requires |fields| == |slots|
    requires DecodeLoop(fields, slots, seen, a).Some? && !DecodeLoop(fields, slots, seen, a).value.stopped
    ensures
      var l := DecodeLoop(fields, slots, seen, a).value;
      DecodeLoop(fields, slots, seen, a + b) == DecodeLoop(fields, l.slots, l.seen, b)
    decreases |a|
  {
    if a == [] {
      assert a + b == b;
    } else {
      MoreVarint32(a, b);
      var t := DecodeVarint32(a).value;
      var tag, wire := t.value / 8, t.value % 8;
      var found := Find(fields, tag);
      if found.None? {
        MoreSkip(t.rest, b, wire);
        LoopConcat(fields, slots, seen, Skip(t.rest, wire).value, b);
      } else {
        MoreField(fields, slots, found.value, wire, t.rest, b);
        var r := DecodeField(fields, slots, found.value, wire, t.rest).value;
        LoopConcat(fields, r.value, See(fields, seen, found.value), r.rest, b);
      }
    }
  }

  /** One whole record with a tag the message does not have. */
  predicate UnknownRecord(fields: seq<Field>, u: seq<byte>) {
    var t := DecodeVarint32(u);
    && t.Some? && t.value.value > 0
    && Find(fields, t.value.value / 8).None? && (fields == [] ==> t.value.value / 8 != 0)
    && Skip(t.value.rest, t.value.value % 8) == Some([])
  }

  lemma {:induction false} UnknownSkipped(fields: seq<Field>, slots: seq<Slot>, seen: set<nat>, u: seq<byte>)
    requires |fields| == |slots| && UnknownRecord(fields, u)
    ensures DecodeLoop(fields, slots, seen, u) == Some(Loop(slots, seen, [], false))
  {
    assert DecodeLoop(fields, slots, seen, []) == Some(Loop(slots, seen, [], false));
  }

  /** Unknown fields: a whole record with an unknown tag, put at any boundary between
      fields, changes nothing of what is decoded. */
  lemma {:induction false} UnknownFieldIgnored(fields: seq<Field>, slots: seq<Slot>, a: seq<byte>, u: seq<byte>,
        b: seq<byte>)
    requires |fields| == |slots| && UnknownRecord(fields, u)
    requires DecodeLoop(fields, slots, {}, a).Some? && !DecodeLoop(fields, slots, {}, a).value.stopped
    ensures DecodeInto(fields, slots, a + u + b) == DecodeInto(fields, slots, a + b)
  {
    var l := DecodeLoop(fields, slots, {}, a).value;
    UnknownSkipped(fields, l.slots, l.seen, u);
    LoopConcat(fields, slots, {}, a, u);
    LoopConcat(fields, slots, {}, a + u, b);
    LoopConcat(fields, slots, {}, a, b);
  }

  lemma {:induction false} NothingSeen(fields: seq<Field>, slots: seq<Slot>, s: seq<byte>)
    requires |fields| == |slots| && forall i :: 0 <= i < |fields| ==> !fields[i].htype.Required?
    requires DecodeLoop(fields, slots, {}, s).Some?
    ensures DecodeLoop(fields, slots, {}, s).value.seen == {}
    decreases |s|
  {
    if s != [] && DecodeVarint32(s).value.value != 0 {
      var t := DecodeVarint32(s).value;
      var tag, wire := t.value / 8, t.value % 8;
      var found := Find(fields, tag);
      if found.None? {
        NothingSeen(fields, slots, Skip(t.rest, wire).value);
      } else {
        var r := DecodeField(fields, slots, found.value, wire, t.rest).value;
        NothingSeen(fields, r.value, r.rest);
      }
    }
  }

  /** Merging: without required fields and terminators, decoding a concatenation is
      decoding the first input and then the second into the same message. */
  lemma {:induction false} DecodeConcat(fields: seq<Field>, slots: seq<Slot>, a: seq<byte>, b: seq<byte>)
    requires |fields| == |slots| && forall i :: 0 <= i < |fields| ==> !fields[i].htype.Required?
    requires DecodeLoop(fields, slots, {}, a).Some? && !DecodeLoop(fields, slots, {}, a).value.stopped
    ensures
      var m := DecodeInto(fields, slots, a);
      m.Some? && DecodeInto(fields, slots, a + b) == DecodeInto(fields, m.value.value, b)
  {
    LoopConcat(fields, slots, {}, a, b);
    NothingSeen(fields, slots, a);
  }
}
