/** What pb_decode makes of an input: the fields it sets, the fields it skips, and
    where it stops. */
module PbDecoding {
  import opened Options
  import opened Bytes
  import opened PbVarint
  import opened PbSchema

  /** pb_read. */
  function ReadBytes(s: seq<byte>, n: nat): Option<Read<seq<byte>>> {
    if |s| < n then None else Some(Read(s[..n], s[n..]))
  }

  /** pb_skip_varint: a varint of any length. */
  function SkipVarint(s: seq<byte>): (r: Option<seq<byte>>)
    ensures r.Some? ==> |r.value| < |s|
  {
    if s == [] then None else if s[0] >= 128 then SkipVarint(s[1..]) else Some(s[1..])
  }

  /** A length-delimited chunk, as pb_make_string_substream and pb_skip_string take it. */
  function ReadChunk(s: seq<byte>): (r: Option<Read<seq<byte>>>)
    ensures r.Some? ==> |r.value.value| + |r.value.rest| < |s|
  {
    var size := DecodeVarint32(s);
    if size.None? then None else ReadBytes(size.value.rest, size.value.value)
  }

  /** pb_skip_field. */
  function Skip(s: seq<byte>, wire: nat): (r: Option<seq<byte>>)
    ensures r.Some? ==> |r.value| < |s|
  {
    if wire == 0 then SkipVarint(s)
    else if wire == 1 then (if |s| < 8 then None else Some(s[8..]))
    else if wire == 2 then (var c := ReadChunk(s); if c.None? then None else Some(c.value.rest))
    else if wire == 5 then (if |s| < 4 then None else Some(s[4..]))
    else None
  }

  function FromLittleEndian(s: seq<byte>): (n: nat) {
    if s == [] then 0 else s[0] + 256 * FromLittleEndian(s[1..])
  }

  /** The low 32 bits of a word as a signed number. */
  function Signed32(w: nat): int { if w % TWO32 < TWO32 / 2 then w % TWO32 else w % TWO32 - TWO32 }

  /** What the varint decoders of signed and unsigned fields and of zigzag make of
      a word. Fields of at most 32 bits take its low half as a signed number. */
  function NumberOf(f: Field, w: nat): int
    requires w < TWO64
  {
    match f.ltype
    case Varint => if f.dataSize == 8 then Signed64(w) else Signed32(w)
    case SVarint => Unzigzag(w)
    case _ => w
  }

  /** The number decoders: sizes other than 1, 2, 4 and 8 and values that do not fit
      the field are errors. */
  function DecodeNumber(f: Field, s: seq<byte>): (r: Option<Read<int>>)
    requires Packable(f.ltype)
    ensures r.Some? ==> |r.value.rest| < |s|
  {
    if f.ltype.Fixed32? || f.ltype.Fixed64? then
      var c := ReadBytes(s, if f.ltype.Fixed32? then 4 else 8);
      if c.None? then None else Some(Read(FromLittleEndian(c.value.value), c.value.rest))
    else
      var w := DecodeVarint(s);
      if w.None? || !IntSize(f.dataSize) then None
      else
        var n := NumberOf(f, w.value.value);
        if InRange(f, n) then Some(Read(n, w.value.rest)) else None
  }

  /** What precedes the first zero. */
  function CString(b: seq<byte>): seq<byte> {
    if b == [] || b[0] == 0 then [] else [b[0]] + CString(b[1..])
  }

  /** The slots of a submessage value; one of any other shape does not occur. */
  function SlotsOf(sub: seq<Field>, v: Value): (slots: seq<Slot>)
    ensures |slots| == |sub|
  {
    if v.Message? && |v.slots| == |sub| then v.slots else Defaults(sub)
  }

  /** PB_DECODERS: one value. A submessage is merged into what is there, except in
      an array, where it starts from the defaults. */
  function DecodeValue(fields: seq<Field>, i: nat, before: Value, s: seq<byte>): (r: Option<Read<Value>>)
    requires i < |fields|
    ensures r.Some? ==> |r.value.rest| < |s|
    decreases |s|, 0
  {
    var f := fields[i];
    if Packable(f.ltype) then
      var n := DecodeNumber(f, s);
      if n.None? then None else Some(Read(Number(n.value.value), n.value.rest))
    else
      var size := DecodeVarint32(s);
      if size.None? then None
      else if f.ltype.FixedLengthBytes? && size.value.value == 0 then
        Some(Read(Blob(seq(f.dataSize, _ => 0)), size.value.rest))
      else if f.ltype.FixedLengthBytes? && size.value.value != f.dataSize then None
      else if f.ltype.Bytes? && size.value.value + 4 > f.dataSize then None
      else if f.ltype.String? && size.value.value + 1 > f.dataSize then None
      else
        var c := ReadBytes(size.value.rest, size.value.value);
        if c.None? then None
        else if !f.ltype.Submessage? then
          Some(Read(Blob(if f.ltype.String? then CString(c.value.value) else c.value.value), c.value.rest))
        else
          var m := if f.htype.Repeated? then Decode(f.sub, c.value.value)
                   else DecodeInto(f.sub, SlotsOf(f.sub, before), c.value.value);
          if m.None? then None else Some(Read(Message(m.value.value), c.value.rest))
  }

  /** The entries of a packed array, while there is input and room. */
  function DecodePacked(fields: seq<Field>, i: nat, vs: seq<Value>, s: seq<byte>): Option<seq<Value>>
    requires i < |fields|
    decreases |s|, 1
  {
    if s == [] then Some(vs)
    else if |vs| >= fields[i].arraySize then None
    else
      var item := DecodeValue(fields, i, Number(0), s);
      if item.None? then None else DecodePacked(fields, i, vs + [item.value.value], item.value.rest)
  }

  /** decode_static_field, with pb_release_union_field before it: a union that
      claims to hold a tag the message does not have is an error. */
  function DecodeField(fields: seq<Field>, slots: seq<Slot>, i: nat, wire: nat, s: seq<byte>)
    : (r: Option<Read<seq<Slot>>>)
    requires i < |fields| == |slots|
    ensures r.Some? ==> |r.value.rest| < |s| && |r.value.value| == |slots|
    decreases |s|, 2
  {
    var f := fields[i];
    match f.htype
    case Required | Singular =>
      var v := DecodeValue(fields, i, ValueOf(slots[i]), s);
      if v.None? then None else Some(Read(slots[i := Plain(v.value.value)], v.value.rest))
    case Optional =>
      var v := DecodeValue(fields, i, ValueOf(slots[i]), s);
      if v.None? then None else Some(Read(slots[i := Has(true, v.value.value)], v.value.rest))
    case Repeated =>
      var vs := if slots[i].Items? then slots[i].vs else [];
      if wire == 2 && Packable(f.ltype) then
        var c := ReadChunk(s);
        if c.None? then None
        else
          var items := DecodePacked(fields, i, vs, c.value.value);
          if items.None? then None else Some(Read(slots[i := Items(items.value)], c.value.rest))
      else if |vs| >= f.arraySize then None
      else
        var v := DecodeValue(fields, i, Number(0), s);
        if v.None? then None else Some(Read(slots[i := Items(vs + [v.value.value])], v.value.rest))
    case Oneof(leader) =>
      if leader >= |slots| then None
      else
        var u := slots[leader];
        if u.Chosen? && u.which != 0 && u.which != f.tag && Find(fields, u.which).None? then None
        else
          var v := DecodeValue(fields, i, Message(Defaults(f.sub)), s);
          if v.None? then None else Some(Read(slots[leader := Chosen(f.tag, v.value.value)], v.value.rest))
  }

  function ValueOf(s: Slot): Value { if s.Plain? || s.Has? then s.v else Number(0) }

  /** The loop of pb_decode_noinit so far: the slots, the required fields seen (by
      their number among the required ones), the
      input that is left, and whether a zero tag ended it. */
  datatype Loop = Loop(slots: seq<Slot>, seen: set<nat>, rest: seq<byte>, stopped: bool)

  /** How many required fields precede field i. */
  function RequiredBefore(fields: seq<Field>, i: nat): nat
    requires i <= |fields|
  {
    if i == 0 then 0 else RequiredBefore(fields, i - 1) + (if fields[i - 1].htype.Required? then 1 else 0)
  }

  const MAX_REQUIRED := 64

  /** A required field that is tracked: only the first 64 are. */
  predicate Tracked(fields: seq<Field>, i: nat)
    requires i < |fields|
  {
    fields[i].htype.Required? && RequiredBefore(fields, i) < MAX_REQUIRED
  }

  function See(fields: seq<Field>, seen: set<nat>, i: nat): set<nat>
    requires i < |fields|
  {
    if Tracked(fields, i) then seen + {RequiredBefore(fields, i)} else seen
  }

  function DecodeLoop(fields: seq<Field>, slots: seq<Slot>, seen: set<nat>, s: seq<byte>): (r: Option<Loop>)
    requires |fields| == |slots|
    ensures r.Some? ==> |r.value.rest| <= |s| && |r.value.slots| == |slots| && (!r.value.stopped ==> r.value.rest == [])
    decreases |s|, 4
  {
    if s == [] then Some(Loop(slots, seen, [], false)) else DecodeRecord(fields, slots, seen, s)
  }

  /** The same, from the tag of the next field on. */
  function DecodeRecord(fields: seq<Field>, slots: seq<Slot>, seen: set<nat>, s: seq<byte>): (r: Option<Loop>)
    requires |fields| == |slots| && s != []
    ensures r.Some? ==> |r.value.rest| <= |s| && |r.value.slots| == |slots| && (!r.value.stopped ==> r.value.rest == [])
    decreases |s|, 3
  {
    var t := DecodeVarint32(s);
    if t.None? then None
    else if t.value.value == 0 then Some(Loop(slots, seen, t.value.rest, true))
    else
      var tag, wire := t.value.value / 8, t.value.value % 8;
      var found := Find(fields, tag);
      // In an empty message the terminator matches tag zero, and fails to decode.
      if fields == [] && tag == 0 then None
      else if found.None? then
        var rest := Skip(t.value.rest, wire);
        if rest.None? then None else DecodeLoop(fields, slots, seen, rest.value)
      else
        var r := DecodeField(fields, slots, found.value, wire, t.value.rest);
        if r.None? then None
        else DecodeLoop(fields, r.value.value, See(fields, seen, found.value), r.value.rest)
  }

  predicate AllSeen(fields: seq<Field>, seen: set<nat>) {
    forall i :: 0 <= i < |fields| && Tracked(fields, i) ==> RequiredBefore(fields, i) in seen
  }

  /** pb_decode_noinit. */
  function DecodeInto(fields: seq<Field>, slots: seq<Slot>, s: seq<byte>): (r: Option<Read<seq<Slot>>>)
    requires |fields| == |slots|
    ensures r.Some? ==> |r.value.rest| <= |s| && |r.value.value| == |slots|
    decreases |s|, 5
  {
    var l := DecodeLoop(fields, slots, {}, s);
    if l.None? || !AllSeen(fields, l.value.seen) then None else Some(Read(l.value.slots, l.value.rest))
  }

  /** pb_decode. */
  function Decode(fields: seq<Field>, s: seq<byte>): (r: Option<Read<seq<Slot>>>)
    ensures r.Some? ==> |r.value.rest| <= |s| && |r.value.value| == |fields|
    decreases |s|, 6
  {
    DecodeInto(fields, Defaults(fields), s)
  }
}
