/** The wire format of the Protocol Buffers encoding, written out: what a record may
    look like, that the encoder writes such records, and that a decoder that does not
    know their tag passes over them. */
module PbWire {
  import opened Options
  import opened Bytes
  import opened PbVarint
  import opened PbSchema
  import opened PbEncoding
  import opened PbDecoding
  import opened PbConcat
  import opened PbRoundTrip

  /** A varint of any length: all bytes but the last have the high bit. */
  predicate IsVarint(s: seq<byte>) {
    s != [] && s[|s| - 1] < 128 && forall i :: 0 <= i < |s| - 1 ==> s[i] >= 128
  }

  /** What follows a tag: a varint, eight bytes, a length and so many bytes, or four
      bytes. */
  predicate Payload(wire: nat, s: seq<byte>) {
    match wire
    case 0 => IsVarint(s)
    case 1 => |s| == 8
    case 2 => exists n :: 0 <= n < TWO32 && n <= |s| && s == EncodeVarint(n) + s[|s| - n..]
    case 5 => |s| == 4
    case _ => false
  }

  /** A whole record: the tag with the wire type in its low three bits, and a payload. */
  function Record(tag: nat, wire: nat, payload: seq<byte>): seq<byte> { EncodeVarint(8 * tag + wire) + payload }

  lemma {:induction false} SkipsVarint(s: seq<byte>, rest: seq<byte>)
    requires IsVarint(s)
    ensures SkipVarint(s + rest) == Some(rest)
    decreases |s|
  {
    assert (s + rest)[1..] == s[1..] + rest;
    if |s| > 1 { SkipsVarint(s[1..], rest); } else { assert s[1..] + rest == rest; }
  }

  lemma {:induction false} SkipsDelimited(s: seq<byte>, n: nat, rest: seq<byte>)
    requires n < TWO32 && n <= |s| && s == EncodeVarint(n) + s[|s| - n..]
    ensures Skip(s + rest, 2) == Some(rest)
  {
    var body := s[|s| - n..];
    Varint32RoundTrip(n, body + rest);
    assert s + rest == EncodeVarint(n) + (body + rest);
    assert (body + rest)[n..] == rest;
  }

  /** pb_skip_field takes exactly the payload. */
  lemma {:induction false} SkipsPayload(wire: nat, s: seq<byte>, rest: seq<byte>)
    requires Payload(wire, s)
    ensures Skip(s + rest, wire) == Some(rest)
  {
    if wire == 0 {
      SkipsVarint(s, rest);
    } else if wire == 2 {
      var n :| 0 <= n < TWO32 && n <= |s| && s == EncodeVarint(n) + s[|s| - n..];
      SkipsDelimited(s, n, rest);
    } else {
      assert (s + rest)[|s|..] == rest;
    }
  }

  lemma {:induction false} RecordUnknown(fields: seq<Field>, tag: nat, wire: nat, payload: seq<byte>)
    requires 0 < tag < 0x2000_0000 && (forall i :: 0 <= i < |fields| ==> fields[i].tag != tag)
    requires Payload(wire, payload)
    ensures UnknownRecord(fields, Record(tag, wire, payload))
  {
    Varint32RoundTrip(8 * tag + wire, payload);
    assert (8 * tag + wire) / 8 == tag && (8 * tag + wire) % 8 == wire;
    SkipsPayload(wire, payload, []);
    assert payload + [] == payload;
  }

  /** Forward compatibility: a record with a tag that the message does not have, of any
      of the four kinds, put at any boundary between fields, changes nothing of what is
      decoded. */
  lemma {:induction false} UnknownRecordIgnored(fields: seq<Field>, slots: seq<Slot>, a: seq<byte>, tag: nat,
        wire: nat, payload: seq<byte>, b: seq<byte>)
    requires |fields| == |slots| && 0 < tag < 0x2000_0000 && Payload(wire, payload)
    requires forall i :: 0 <= i < |fields| ==> fields[i].tag != tag
    requires DecodeLoop(fields, slots, {}, a).Some? && !DecodeLoop(fields, slots, {}, a).value.stopped
    ensures DecodeInto(fields, slots, a + Record(tag, wire, payload) + b) == DecodeInto(fields, slots, a + b)
  {
    RecordUnknown(fields, tag, wire, payload);
    UnknownFieldIgnored(fields, slots, a, Record(tag, wire, payload), b);
  }

  /** A zero byte ends a message, and what follows it is left. */
  lemma {:induction false} TerminatorStops(fields: seq<Field>, slots: seq<Slot>, seen: set<nat>, rest: seq<byte>)
    requires |fields| == |slots|
    ensures DecodeLoop(fields, slots, seen, [0] + rest) == Some(Loop(slots, seen, rest, true))
  {
    assert ([0] + rest)[1..] == rest;
  }

  /** A message type without fields takes a record of tag zero for its own, and refuses
      it. */
  lemma {:induction false} TagZeroRefused(s: seq<byte>)
    requires DecodeVarint32(s).Some? && 0 < DecodeVarint32(s).value.value < 8
    ensures Decode([], s).None?
  {
    assert DecodeLoop([], [], {}, s) == DecodeRecord([], [], {}, s);
  }

  /** Canonical varints are varints. */
  lemma {:induction false} CanonicalVarint(n: nat)
    ensures IsVarint(EncodeVarint(n))
  {
    if n >= 128 {
      CanonicalVarint(n / 128);
      var s, t := EncodeVarint(n), EncodeVarint(n / 128);
      assert s == [n % 128 + 128] + t;
      assert s[|s| - 1] == t[|t| - 1];
    }
  }

  /** The number in four bytes, and in eight, lowest first. */
  function Number32(s: seq<byte>): nat
    requires |s| == 4
  {
    s[0] as nat + 0x100 * s[1] as nat + 0x1_0000 * s[2] as nat + 0x100_0000 * s[3] as nat
  }

  function Number64(s: seq<byte>): nat
    requires |s| == 8
  {
    Number32(s[..4]) + TWO32 * Number32(s[4..])
  }

  lemma {:induction false} FourBytes(s: seq<byte>)
    requires |s| == 4
    ensures FromLittleEndian(s) == Number32(s)
  {
    assert s[1..][0] == s[1] && s[1..][1..] == s[2..] && s[2..][0] == s[2] && s[2..][1..] == s[3..];
    assert FromLittleEndian(s[3..]) == s[3];
    assert FromLittleEndian(s[2..]) == s[2] + 256 * FromLittleEndian(s[3..]);
    assert FromLittleEndian(s[1..]) == s[1] + 256 * FromLittleEndian(s[2..]);
  }

  lemma {:induction false} FourMore(s: seq<byte>, t: seq<byte>)
    requires |s| == 4
    ensures FromLittleEndian(s + t) == Number32(s) + TWO32 * FromLittleEndian(t)
  {
    var u := s + t;
    assert u[1..][0] == s[1] && u[1..][1..] == u[2..] && u[2..][0] == s[2] && u[2..][1..] == u[3..];
    assert u[3..][0] == s[3] && u[3..][1..] == t;
    assert FromLittleEndian(u[3..]) == s[3] + 256 * FromLittleEndian(t);
    assert FromLittleEndian(u[2..]) == s[2] + 256 * FromLittleEndian(u[3..]);
    assert FromLittleEndian(u[1..]) == s[1] + 256 * FromLittleEndian(u[2..]);
  }

  lemma {:induction false} EightBytes(s: seq<byte>)
    requires |s| == 8
    ensures FromLittleEndian(s) == Number64(s)
  {
    FourMore(s[..4], s[4..]);
    FourBytes(s[4..]);
    assert s == s[..4] + s[4..];
  }

  /** A number as the format sends it: signed numbers as 64-bit words, zigzag numbers
      with the sign in the lowest bit, fixed ones little end first. */
  predicate SentAs(f: Field, n: int, s: seq<byte>) {
    match f.ltype
    case Varint => -TWO63 <= n < TWO63 && s == EncodeVarint(if n < 0 then n + TWO64 else n)
    case UVarint => n >= 0 && s == EncodeVarint(n)
    case SVarint => s == EncodeVarint(if n < 0 then -2 * n - 1 else 2 * n)
    case Fixed32 => |s| == 4 && Number32(s) == n
    case _ => |s| == 8 && Number64(s) == n
  }

  lemma {:induction false} NumberSent(f: Field, n: int)
    requires Packable(f.ltype) && InRange(f, n) && EncodeNumber(f, n).Some?
    ensures SentAs(f, n, EncodeNumber(f, n).value)
  {
    match f.ltype
    case SVarint => ZigzagRoundTrip(n, 0);
    case Fixed32 =>
      FixedWidths();
      LittleEndianRoundTrip(n, 4);
      FourBytes(LittleEndian(n, 4));
    case Fixed64 =>
      FixedWidths();
      LittleEndianRoundTrip(n, 8);
      EightBytes(LittleEndian(n, 8));
    case _ =>
  }

  /** The wire type of a field. */
  function Wire(t: LType): nat {
    match t
    case Varint | UVarint | SVarint => 0
    case Fixed64 => 1
    case Fixed32 => 5
    case Bytes | String | Submessage | FixedLengthBytes => 2
  }

  lemma {:induction false} DelimitedPayload(b: seq<byte>)
    requires |b| < TWO32
    ensures Payload(2, Delimited(b))
  {
    var s := Delimited(b);
    assert s[|s| - |b|..] == b;
  }

  /** A field as it is sent: its tag and wire type, and then its number, or the length
      and the bytes of its string, or of its message. */
  lemma {:induction false} FieldSent(fields: seq<Field>, i: nat, v: Value)
    requires i < |fields| && FitsValue(fields, i, v) && EncodeTagged(fields, i, v).Some?
    requires |EncodeTagged(fields, i, v).value| < TWO32
    ensures
      var f, s := fields[i], EncodeValue(fields, i, v).value;
      && EncodeTagged(fields, i, v).value == Record(f.tag, Wire(f.ltype), s) && Payload(Wire(f.ltype), s)
      && (v.Number? ==> SentAs(f, v.n, s))
      && (v.Blob? ==> s == EncodeVarint(|v.b|) + v.b)
      && (f.ltype.Submessage? ==> Encode(f.sub, v.slots).Some?
                                  && s == EncodeVarint(|Encode(f.sub, v.slots).value|) + Encode(f.sub, v.slots).value)
  {
    var f, s := fields[i], EncodeValue(fields, i, v).value;
    if Packable(f.ltype) {
      NumberSent(f, v.n);
      match f.ltype
      case Varint => CanonicalVarint(Word64(v.n));
      case UVarint => CanonicalVarint(v.n);
      case SVarint => CanonicalVarint(Zigzag(v.n));
      case _ =>
    } else if f.ltype.Submessage? {
      DelimitedPayload(Encode(f.sub, v.slots).value);
    } else {
      DelimitedPayload(v.b);
    }
  }

  /** A reader without its tag passes over any field that is sent. */
  lemma {:induction false} SentFieldIgnored(fields: seq<Field>, i: nat, v: Value, other: seq<Field>, slots: seq<Slot>,
        a: seq<byte>, b: seq<byte>)
    requires i < |fields| && 0 < fields[i].tag < 0x2000_0000 && FitsValue(fields, i, v)
    requires EncodeTagged(fields, i, v).Some? && |EncodeTagged(fields, i, v).value| < TWO32
    requires |other| == |slots| && forall k :: 0 <= k < |other| ==> other[k].tag != fields[i].tag
    requires DecodeLoop(other, slots, {}, a).Some? && !DecodeLoop(other, slots, {}, a).value.stopped
    ensures DecodeInto(other, slots, a + EncodeTagged(fields, i, v).value + b) == DecodeInto(other, slots, a + b)
  {
    FieldSent(fields, i, v);
    UnknownRecordIgnored(other, slots, a, fields[i].tag, Wire(fields[i].ltype), EncodeValue(fields, i, v).value, b);
  }

  /** The numbers that a field of each type and size holds. */
  lemma {:induction false} Ranges(f: Field, n: int)
    ensures f.ltype.UVarint? && f.dataSize == 1 ==> (InRange(f, n) <==> 0 <= n < 256)
    ensures f.ltype.UVarint? && f.dataSize == 2 ==> (InRange(f, n) <==> 0 <= n < 65536)
    ensures f.ltype.UVarint? && f.dataSize == 4 ==> (InRange(f, n) <==> 0 <= n < TWO32)
    ensures f.ltype.UVarint? && f.dataSize == 8 ==> (InRange(f, n) <==> 0 <= n < TWO64)
    ensures (f.ltype.Varint? || f.ltype.SVarint?) && f.dataSize == 1 ==> (InRange(f, n) <==> -128 <= n < 128)
    ensures (f.ltype.Varint? || f.ltype.SVarint?) && f.dataSize == 2 ==> (InRange(f, n) <==> -32768 <= n < 32768)
    ensures (f.ltype.Varint? || f.ltype.SVarint?) && f.dataSize == 4 ==>
              (InRange(f, n) <==> -0x8000_0000 <= n < 0x8000_0000)
    ensures (f.ltype.Varint? || f.ltype.SVarint?) && f.dataSize == 8 ==> (InRange(f, n) <==> -TWO63 <= n < TWO63)
    ensures f.ltype.Fixed32? ==> (InRange(f, n) <==> 0 <= n < TWO32)
    ensures f.ltype.Fixed64? ==> (InRange(f, n) <==> 0 <= n < TWO64)
  {
  }
}
