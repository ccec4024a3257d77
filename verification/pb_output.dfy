/** Output streams of pb_encode.c: into a buffer, or only counting. */
module PbOutput {
  import opened Options
  import opened Bytes
  import opened PbVarint
  import opened PbSchema
  import opened PbEncoding
  import opened PbIterator

  /** A stream as a value: whether it only counts, the room it was given, what it
      took, and the buffer up to the place it writes next. */
  datatype Output = Output(sizing: bool, maxSize: nat, written: nat, bytes: seq<byte>)

  predicate Accepts(o: Output, n: nat) { o.sizing || o.written + n <= o.maxSize }

  /** A call to write the bytes e, or to fail if there are none: it succeeds exactly
      if they exist and there is room, and then exactly they have been added. */
  predicate Put(before: Output, e: Option<seq<byte>>, ok: bool, after: Output) {
    && after.sizing == before.sizing && after.maxSize == before.maxSize
    && (ok <==> e.Some? && Accepts(before, |e.value|))
    && (ok ==> after.written == before.written + |e.value|
               && after.bytes == if before.sizing then before.bytes else before.bytes + e.value)
  }

  /** Two writes in a row. */
  function Both(first: Option<seq<byte>>, second: Option<seq<byte>>): Option<seq<byte>> {
    if first.None? || second.None? then None else Some(first.value + second.value)
  }

  lemma {:induction false} PutBoth(o: Output, first: Option<seq<byte>>, m: Output, second: Option<seq<byte>>, ok: bool,
        after: Output)
    requires Put(o, first, true, m) && Put(m, second, ok, after)
    ensures Put(o, Both(first, second), ok, after)
  {
    if ok && !o.sizing {
      assert (o.bytes + first.value) + second.value == o.bytes + (first.value + second.value);
    }
  }

  lemma {:induction false} PutFails(o: Output, first: Option<seq<byte>>, m: Output, second: Option<seq<byte>>)
    requires Put(o, first, false, m)
    ensures Put(o, Both(first, second), false, m)
  {
  }

  /** A size that size_t holds. */
  predicate Small(e: Option<seq<byte>>) { e.Some? ==> |e.value| < TWO64 }

  predicate SizedValue(fields: seq<Field>, i: nat, v: Value)
    requires i < |fields| && FitsValue(fields, i, v)
    decreases fields, 0
  {
    fields[i].ltype.Submessage? ==> Sized(fields[i].sub, v.slots) && Small(Encode(fields[i].sub, v.slots))
  }

  predicate SizedItems(fields: seq<Field>, i: nat, vs: seq<Value>)
    requires i < |fields| && forall k :: 0 <= k < |vs| ==> FitsValue(fields, i, vs[k])
    decreases fields, 1
  {
    && (forall k :: 0 <= k < |vs| ==> SizedValue(fields, i, vs[k]))
    && (Packable(fields[i].ltype) ==> Small(EncodeItems(fields, i, vs, 0, true)))
  }

  predicate SizedSlot(fields: seq<Field>, slots: seq<Slot>, i: nat)
    requires Fits(fields, slots) && i < |fields|
    decreases fields, 2
  {
    assert FitsSlot(fields, i, slots[i]);
    match fields[i].htype
    case Required | Singular | Optional => SizedValue(fields, i, slots[i].v)
    case Repeated => SizedItems(fields, i, slots[i].vs)
    case Oneof(_) =>
      var u := Union(fields, slots, i);
      u.Chosen? && u.which == fields[i].tag && FitsValue(fields, i, u.v) ==> SizedValue(fields, i, u.v)
  }

  /** Every part of the message that is counted has a size that size_t holds. */
  predicate Sized(fields: seq<Field>, slots: seq<Slot>)
    requires Fits(fields, slots)
    decreases fields, 3
  {
    forall i :: 0 <= i < |fields| ==> SizedSlot(fields, slots, i)
  }

  lemma {:induction false} BothUnits(e: Option<seq<byte>>)
    ensures Both(Some([]), e) == e && Both(e, Some([])) == e
  {
    if e.Some? { assert [] + e.value == e.value && e.value + [] == e.value; }
  }

  lemma {:induction false} BothAssociates(done: seq<byte>, first: Option<seq<byte>>, others: Option<seq<byte>>)
    ensures Both(Both(Some(done), first), others) == Both(Some(done), Both(first, others))
  {
    if first.Some? && others.Some? {
      assert (done + first.value) + others.value == done + (first.value + others.value);
    }
  }

  lemma {:induction false} EncodeNext(fields: seq<Field>, slots: seq<Slot>, k: nat, field: Option<seq<byte>>,
        others: Option<seq<byte>>)
    requires Fits(fields, slots) && k < |fields|
    requires field == EncodeField(fields, slots, k) && others == EncodeFrom(fields, slots, k + 1)
    ensures EncodeFrom(fields, slots, k) == Both(field, others)
  {
  }

  /** One more write of a list of writes. */
  lemma {:induction false} PutNext(o: Output, done: seq<byte>, m: Output, e: Option<seq<byte>>,
        others: Option<seq<byte>>, ok: bool, after: Output)
    requires Put(o, Some(done), true, m) && Put(m, e, ok, after)
    ensures if ok then e.Some? && Put(o, Some(done + e.value), true, after)
                       && Both(Some(done), Both(e, others)) == Both(Some(done + e.value), others)
            else Put(o, Both(Some(done), Both(e, others)), false, after)
  {
    PutBoth(o, Some(done), m, e, ok, after);
    BothAssociates(done, e, others);
    if !ok { PutFails(o, Both(Some(done), e), after, others); }
  }

  /** The bytes of pb_encode_varint's buffer before the last is unmarked. */
  function MarkedDigits(v: nat): (s: seq<byte>)
    ensures v > 0 ==> |s| > 0 && s[|s| - 1] >= 128
  {
    if v == 0 then [] else [v % 128 + 128] + MarkedDigits(v / 128)
  }

  lemma {:induction false} UnmarkedDigits(v: nat)
    requires v > 0
    ensures Unmark(MarkedDigits(v)) == EncodeVarint(v)
    decreases v
  {
    if v >= 128 {
      UnmarkedDigits(v / 128);
      UnmarkRest(v % 128 + 128, MarkedDigits(v / 128));
    } else {
      assert MarkedDigits(v / 128) == [];
    }
  }

  lemma {:induction false} NextMark(digits: seq<byte>, i: nat, value: nat)
    requires i <= |digits| && value > 0 && digits[i..] == MarkedDigits(value)
    ensures i < |digits| && digits[i] == value % 128 + 128 && digits[i + 1..] == MarkedDigits(value / 128)
  {
    assert digits[i..][0] == value % 128 + 128;
    assert digits[i + 1..] == digits[i..][1..];
  }

  /** The loop of pb_encode_varint: a marked byte for every seven bits, and the last
      one unmarked; ten bytes are enough. */
  method VarintBytes(v: nat) returns (s: seq<byte>)
    requires 0 < v < TWO64
    ensures s == EncodeVarint(v)
  {
    var buffer := new byte[10];
    var value, i := v, 0;
    ghost var digits := MarkedDigits(v);
    UnmarkedDigits(v);
    VarintRoundTrip(v, []);
    while value != 0
      invariant i <= |digits| <= 10 && (value == 0 ==> i == |digits|)
      invariant digits[i..] == MarkedDigits(value)
      invariant forall k :: 0 <= k < i ==> buffer[k] == digits[k]
      decreases value
    {
      NextMark(digits, i, value);
      buffer[i] := value % 128 + 128;
      value := value / 128;
      i := i + 1;
    }
    buffer[i - 1] := buffer[i - 1] - 128;
    s := buffer[..i];
    assert s == Unmark(digits);
  }

  lemma {:induction false} NextCompensated(digits: seq<byte>, i: nat, value: nat, compensation: nat, bits: nat)
    requires i <= |digits| && 0 < value < TWO32 && compensation <= 32
    requires digits[i..] == NegativeBytes(value, compensation)
    requires bits == (if compensation > 7 then 7 else compensation)
    ensures i < |digits| && digits[i] == value % 128 + 128 && Compensated(value, bits) < TWO32
    ensures digits[i + 1..] == NegativeBytes(Compensated(value, bits), compensation - bits)
  {
    OnesBound(bits);
    assert digits[i..][0] == value % 128 + 128;
    assert digits[i + 1..] == digits[i..][1..];
  }

  lemma {:induction false} NegativeDigits(negative: nat)
    requires TWO32 / 2 <= negative < TWO32
    ensures Unmark(NegativeBytes(negative, 32)) == EncodeVarint(Word64(negative - TWO32))
    ensures |NegativeBytes(negative, 32)| <= 10
  {
    NegativeIsSignExtended(negative - TWO32);
    VarintRoundTrip(Word64(negative - TWO32), []);
  }

  /** The loop of pb_encode_negative_varint, which puts the missing upper 32 ones in
      where it has just shifted zeros in. */
  method FillNegative(buffer: array<byte>, negative: nat, missing: nat) returns (i: nat)
    requires buffer.Length == 10 && 0 < negative < TWO32 && missing <= 32 && |NegativeBytes(negative, missing)| <= 10
    modifies buffer
    ensures 0 < i == |NegativeBytes(negative, missing)| && buffer[..i] == NegativeBytes(negative, missing)
  {
    var value: nat, compensation: nat := negative, missing;
    i := 0;
    ghost var digits := NegativeBytes(negative, missing);
    while value != 0
      invariant i <= |digits| && (value == 0 ==> i == |digits| > 0) && value < TWO32 && compensation <= missing
      invariant digits[i..] == NegativeBytes(value, compensation)
      invariant forall k :: 0 <= k < i ==> buffer[k] == digits[k]
      decreases compensation, value
    {
      var bits := if compensation > 7 then 7 else compensation;
      NextCompensated(digits, i, value, compensation, bits);
      buffer[i] := value % 128 + 128;
      value := Compensated(value, bits);
      compensation := compensation - bits;
      i := i + 1;
    }
  }

  method NegativeVarintBytes(negative: nat) returns (s: seq<byte>)
    requires TWO32 / 2 <= negative < TWO32
    ensures s == EncodeVarint(Word64(negative - TWO32))
  {
    var buffer := new byte[10];
    NegativeDigits(negative);
    var i := FillNegative(buffer, negative, 32);
    ghost var digits := buffer[..i];
    buffer[i - 1] := buffer[i - 1] - 128;
    s := buffer[..i];
    assert s == Unmark(digits);
  }

  /** A length and the bytes it counts. */
  function Lengthened(e: Option<seq<byte>>): Option<seq<byte>> { if e.None? then None else Some(Delimited(e.value)) }

  /** pb_encode_delimited. */
  function EncodeDelimited(fields: seq<Field>, slots: seq<Slot>): Option<seq<byte>>
    requires Fits(fields, slots)
  {
    Lengthened(Encode(fields, slots))
  }

  function PackedArray(fields: seq<Field>, i: nat, vs: seq<Value>): Option<seq<byte>>
    requires i < |fields| && forall j :: 0 <= j < |vs| ==> FitsValue(fields, i, vs[j])
  {
    Both(Some(TagBytes(fields[i].tag, WireString)), Lengthened(EncodeItems(fields, i, vs, 0, true)))
  }

  /** Fixed-width entries always encode, to their width each. */
  lemma {:induction false} FixedItems(fields: seq<Field>, i: nat, vs: seq<Value>, k: nat, width: nat)
    requires i < |fields| && k <= |vs| && forall j :: 0 <= j < |vs| ==> FitsValue(fields, i, vs[j])
    requires (fields[i].ltype.Fixed32? && width == 4) || (fields[i].ltype.Fixed64? && width == 8)
    ensures EncodeItems(fields, i, vs, k, true).Some?
    ensures |EncodeItems(fields, i, vs, k, true).value| == width * (|vs| - k)
    decreases |vs| - k
  {
    if k < |vs| { FixedItems(fields, i, vs, k + 1, width); }
  }

  lemma {:induction false} FourBytes(n: nat)
    requires n < TWO32
    ensures LittleEndian(n, 4) == [n % 256, n / 256 % 256, n / 256 / 256 % 256, n / 256 / 256 / 256 % 256]
  {
    assert LittleEndian(n / 256 / 256 / 256, 1) == [n / 256 / 256 / 256 % 256];
    assert LittleEndian(n / 256 / 256, 2) == [n / 256 / 256 % 256] + LittleEndian(n / 256 / 256 / 256, 1);
  }

  lemma {:induction false} LowByte(n: nat, low: nat, m: nat)
    requires n == low + 256 * m
    ensures n % 256 == low % 256
  {
  }

  lemma {:induction false} EightBytes(n: nat, low: nat, high: nat)
    requires n < TWO64 && low == n % TWO32 && high == n / TWO32
    ensures LittleEndian(n, 8)
            == [low % 256, low / 256 % 256, low / 256 / 256 % 256, low / 256 / 256 / 256 % 256,
                high % 256, high / 256 % 256, high / 256 / 256 % 256, high / 256 / 256 / 256 % 256]
  {
    FourBytes(high);
    var n1, n2, n3 := n / 256, n / 256 / 256, n / 256 / 256 / 256;
    assert n1 == low / 256 + 0x100_0000 * high;
    assert n2 == low / 256 / 256 + 0x1_0000 * high;
    assert n3 == low / 256 / 256 / 256 + 256 * high;
    LowByte(n, low, 0x100_0000 * high);
    LowByte(n1, low / 256, 0x1_0000 * high);
    LowByte(n2, low / 256 / 256, 256 * high);
    LowByte(n3, low / 256 / 256 / 256, high);
    assert LittleEndian(n3, 5) == [n3 % 256] + LittleEndian(high, 4);
    assert LittleEndian(n2, 6) == [n2 % 256] + LittleEndian(n3, 5);
    assert LittleEndian(n1, 7) == [n1 % 256] + LittleEndian(n2, 6);
  }

  /** pb_ostream_t. */
  class OStream {
    const sizing: bool
    const dest: array<byte>
    const maxSize: nat
    var at: nat
    var written: nat

    ghost predicate Valid()
      reads this
    {
      sizing || (written <= maxSize && at + (maxSize - written) <= dest.Length)
    }

    ghost function Out(): Output
      requires Valid()
      reads this, dest
    {
      Output(sizing, maxSize, written, if sizing then [] else dest[..at])
    }

    /** pb_ostream_from_buffer, and the substream of pb_encode_submessage: the buffer
        from a place on. */
    constructor (dest: array<byte>, at: nat, size: nat)
      requires at + size <= dest.Length
      ensures Valid() && this.dest == dest && Out() == Output(false, size, 0, dest[..at]) && this.at == at
    {
      sizing := false;
      this.dest := dest;
      this.at := at;
      maxSize := size;
      written := 0;
    }

    /** PB_OSTREAM_SIZING. */
    constructor Sizing()
      ensures Valid() && fresh(dest) && Out() == Output(true, 0, 0, [])
    {
      sizing := true;
      dest := new byte[0];
      at := 0;
      maxSize := 0;
      written := 0;
    }

    /** pb_write, with buf_write's copying loop. */
    method Write(s: seq<byte>) returns (ok: bool)
      requires Valid()
      modifies this, dest
      ensures Valid() && Put(old(Out()), Some(s), ok, Out())
      ensures sizing ==> dest[..] == old(dest[..])
    {
      if !sizing {
        if written + |s| > maxSize { return false; }
        var start := at;
        at := at + |s|;
        var i := 0;
        while i < |s|
          invariant i <= |s| && at == start + |s| && written == old(written)
          invariant dest[..start + i] == old(dest[..at]) + s[..i]
        {
          dest[start + i] := s[i];
          i := i + 1;
        }
        assert s[..|s|] == s;
      }
      written := written + |s|;
      return true;
    }

    /** pb_write without a buffer, when only the size is wanted. */
    method Count(ghost s: seq<byte>, size: nat) returns (ok: bool)
      requires Valid() && sizing && size == |s|
      modifies this
      ensures Valid() && Put(old(Out()), Some(s), ok, Out())
    {
      written := written + size;
      return true;
    }

    /** pb_encode_varint. */
    method PutVarint(v: nat) returns (ok: bool)
      requires Valid() && v < TWO64
      modifies this, dest
      ensures Valid() && Put(old(Out()), Some(EncodeVarint(v)), ok, Out())
    {
      if v <= 0x7f {
        ok := Write([v]);
        return;
      }
      var s := VarintBytes(v);
      ok := Write(s);
    }

    /** pb_encode_tag. */
    method PutTag(tag: nat, w: WireType) returns (ok: bool)
      requires Valid() && tag < TWO32
      modifies this, dest
      ensures Valid() && Put(old(Out()), Some(TagBytes(tag, w)), ok, Out())
    {
      ok := PutVarint(tag * 8 + WireCode(w));
    }

    /** pb_encode_string. */
    method PutString(s: seq<byte>) returns (ok: bool)
      requires Valid() && |s| < TWO64
      modifies this, dest
      ensures Valid() && Put(old(Out()), Some(Delimited(s)), ok, Out())
    {
      ghost var before := Out();
      ok := PutVarint(|s|);
      if !ok {
        PutFails(before, Some(EncodeVarint(|s|)), Out(), Some(s));
        return;
      }
      ghost var between := Out();
      ok := Write(s);
      PutBoth(before, Some(EncodeVarint(|s|)), between, Some(s), ok, Out());
    }

    /** The encoders of numbers. */
    method PutNumber(f: Field, n: int) returns (ok: bool)
      requires Valid() && Packable(f.ltype) && InRange(f, n)
      modifies this, dest
      ensures Valid() && Put(old(Out()), EncodeNumber(f, n), ok, Out())
    {
      match f.ltype
      case Varint =>
        if !IntSize(f.dataSize) { return false; }
        ok := PutVarint(Word64(n));
      case UVarint =>
        if !IntSize(f.dataSize) { return false; }
        ok := PutVarint(n);
      case SVarint =>
        if !IntSize(f.dataSize) { return false; }
        ok := PutVarint(Zigzag(n));
      case Fixed32 =>
        FourBytes(n);
        ok := Write([n % 256, n / 256 % 256, n / 256 / 256 % 256, n / 256 / 256 / 256 % 256]);
      case Fixed64 =>
        var low, high := n % TWO32, n / TWO32;
        EightBytes(n, low, high);
        ok := Write([low % 256, low / 256 % 256, low / 256 / 256 % 256, low / 256 / 256 / 256 % 256,
                     high % 256, high / 256 % 256, high / 256 / 256 % 256, high / 256 / 256 / 256 % 256]);
    }

    /** PB_ENCODERS. */
    method PutValue(fields: seq<Field>, i: nat, v: Value) returns (ok: bool)
      requires Valid() && i < |fields| && WellFormed(fields) && FitsValue(fields, i, v) && SizedValue(fields, i, v)
      modifies this, dest
      ensures Valid() && Put(old(Out()), EncodeValue(fields, i, v), ok, Out())
      decreases fields, 0, 0
    {
      var f := fields[i];
      match f.ltype
      case Bytes =>
        if |v.b| + BYTES_HEADER > f.dataSize { return false; }
        ok := PutString(v.b);
      case String | FixedLengthBytes => ok := PutString(v.b);
      case Submessage => ok := PutSubmessage(f.sub, v.slots);
      case _ => ok := PutNumber(f, v.n);
    }

    /** pb_encode_tag_for_field and the encoder. */
    method PutTagged(fields: seq<Field>, i: nat, v: Value) returns (ok: bool)
      requires Valid() && i < |fields| && WellFormed(fields) && FitsValue(fields, i, v) && SizedValue(fields, i, v)
      modifies this, dest
      ensures Valid() && Put(old(Out()), EncodeTagged(fields, i, v), ok, Out())
      decreases fields, 1, 0
    {
      var f := fields[i];
      ghost var before, tag, value := Out(), Some(TagBytes(f.tag, WireOf(f.ltype))), EncodeValue(fields, i, v);
      ok := PutTag(f.tag, WireOf(f.ltype));
      if !ok {
        PutFails(before, tag, Out(), value);
        return;
      }
      ghost var between := Out();
      ok := PutValue(fields, i, v);
      PutBoth(before, tag, between, value, ok, Out());
    }

    /** The loops of encode_array. */
    method PutItems(fields: seq<Field>, i: nat, vs: seq<Value>, packed: bool) returns (ok: bool)
      requires Valid() && i < |fields| && WellFormed(fields)
      requires forall k :: 0 <= k < |vs| ==> FitsValue(fields, i, vs[k])
      requires SizedItems(fields, i, vs)
      modifies this, dest
      ensures Valid() && Put(old(Out()), EncodeItems(fields, i, vs, 0, packed), ok, Out())
      decreases fields, 2, 0
    {
      ghost var before, done := Out(), [];
      BothUnits(EncodeItems(fields, i, vs, 0, packed));
      var k := 0;
      while k < |vs|
        invariant k <= |vs| && Valid() && Put(before, Some(done), true, Out())
        invariant EncodeItems(fields, i, vs, 0, packed) == Both(Some(done), EncodeItems(fields, i, vs, k, packed))
      {
        ghost var between, others := Out(), EncodeItems(fields, i, vs, k + 1, packed);
        ghost var item := if packed then EncodeValue(fields, i, vs[k]) else EncodeTagged(fields, i, vs[k]);
        if packed { ok := PutValue(fields, i, vs[k]); } else { ok := PutTagged(fields, i, vs[k]); }
        PutBoth(before, Some(done), between, item, ok, Out());
        if !ok {
          PutFails(before, Both(Some(done), item), Out(), others);
          BothAssociates(done, item, others);
          return;
        }
        BothAssociates(done, item, others);
        done := done + item.value;
        k := k + 1;
      }
      BothUnits(Some(done));
      return true;
    }

    method PutSubmessage(fields: seq<Field>, slots: seq<Slot>) returns (ok: bool)
      requires Valid() && WellFormed(fields) && Fits(fields, slots) && Sized(fields, slots)
      requires Small(Encode(fields, slots))
      modifies this, dest
      ensures Valid() && Put(old(Out()), EncodeDelimited(fields, slots), ok, Out())
      decreases fields, 7, 0
    {
      ghost var before, e := Out(), Encode(fields, slots);
      var sizes := new OStream.Sizing();
      var sized := sizes.PutMessage(fields, slots);
      if !sized { return false; }
      var size := sizes.written;
      ok := PutVarint(size);
      if !ok {
        PutFails(before, Some(EncodeVarint(size)), Out(), e);
        return;
      }
      ghost var between := Out();
      if sizing {
        ok := Count(e.value, size);
        PutBoth(before, Some(EncodeVarint(size)), between, e, ok, Out());
        return;
      }
      if written + size > maxSize {
        PutBoth(before, Some(EncodeVarint(size)), between, e, false, Out());
        return false;
      }
      var inner := new OStream(dest, at, size);
      var status := inner.PutMessage(fields, slots);
      // The second pass writes what the first counted: the size cannot have changed.
      assert status && inner.written == size;
      written := written + inner.written;
      at := inner.at;
      ok := status && inner.written == size;
      PutBoth(before, Some(EncodeVarint(size)), between, e, ok, Out());
    }

    /** pb_encode. */
    method PutMessage(fields: seq<Field>, slots: seq<Slot>) returns (ok: bool)
      requires Valid() && WellFormed(fields) && Fits(fields, slots) && Sized(fields, slots)
      modifies this, dest
      ensures Valid() && Put(old(Out()), Encode(fields, slots), ok, Out())
      decreases fields, 6, 0
    {
      ghost var before, done, whole := Out(), [], Encode(fields, slots);
      BothUnits(whole);
      var iter := new FieldIter(fields);
      var more := iter.Begin();
      while more
        invariant iter.Valid() && iter.fields == fields && Valid()
        invariant Put(before, Some(done), true, Out())
        invariant var k := if more then iter.pos else |fields|;
                  k <= |fields| && whole == Both(Some(done), EncodeFrom(fields, slots, k))
        decreases more, |fields| - iter.pos
      {
        ghost var k := iter.pos;
        ghost var between, others := Out(), EncodeFrom(fields, slots, k + 1);
        ghost var field := EncodeField(fields, slots, k);
        EncodeNext(fields, slots, k, field, others);
        ok := PutField(fields, slots, iter.pos);
        PutNext(before, done, between, field, others, ok, Out());
        if !ok { return; }
        done := done + field.value;
        more := iter.Next();
      }
      BothUnits(Some(done));
      return true;
    }

    /** encode_array. */
    method PutArray(fields: seq<Field>, i: nat, vs: seq<Value>) returns (ok: bool)
      requires Valid() && i < |fields| && WellFormed(fields)
      requires forall k :: 0 <= k < |vs| ==> FitsValue(fields, i, vs[k])
      requires SizedItems(fields, i, vs)
      modifies this, dest
      ensures Valid() && Put(old(Out()), EncodeArray(fields, i, vs), ok, Out())
      decreases fields, 3, 0
    {
      var f := fields[i];
      if |vs| == 0 { return true; }
      if |vs| > f.arraySize { return false; }
      if Packable(f.ltype) {
        ok := PutPacked(fields, i, vs);
      } else {
        ok := PutItems(fields, i, vs, false);
      }
    }

    /** The packed branch of encode_array: the size of the array, counted first, and
        its entries. */
    method PutPacked(fields: seq<Field>, i: nat, vs: seq<Value>) returns (ok: bool)
      requires Valid() && i < |fields| && WellFormed(fields) && Packable(fields[i].ltype)
      requires forall k :: 0 <= k < |vs| ==> FitsValue(fields, i, vs[k])
      requires SizedItems(fields, i, vs)
      modifies this, dest
      ensures Valid() && Put(old(Out()), PackedArray(fields, i, vs), ok, Out())
      decreases fields, 2, 1, 1
    {
      var f := fields[i];
      ghost var before, tag, items := Out(), Some(TagBytes(f.tag, WireString)), EncodeItems(fields, i, vs, 0, true);
      ok := PutTag(f.tag, WireString);
      if !ok {
        PutFails(before, tag, Out(), Lengthened(items));
        return;
      }
      ghost var between := Out();
      var size: nat;
      ok, size := PackedSize(fields, i, vs);
      if !ok { return false; }
      ok := PutCounted(fields, i, vs, size);
      PutBoth(before, tag, between, Lengthened(items), ok, Out());
    }

    /** The size of the entries: known for fixed sizes, else counted. */
    static method PackedSize(fields: seq<Field>, i: nat, vs: seq<Value>) returns (ok: bool, size: nat)
      requires i < |fields| && WellFormed(fields) && Packable(fields[i].ltype)
      requires forall k :: 0 <= k < |vs| ==> FitsValue(fields, i, vs[k])
      requires SizedItems(fields, i, vs)
      ensures var items := EncodeItems(fields, i, vs, 0, true); ok == items.Some? && (ok ==> size == |items.value|)
      decreases fields, 2, 1, 0
    {
      if fields[i].ltype.Fixed32? {
        FixedItems(fields, i, vs, 0, 4);
        return true, 4 * |vs|;
      } else if fields[i].ltype.Fixed64? {
        FixedItems(fields, i, vs, 0, 8);
        return true, 8 * |vs|;
      }
      var sizes := new OStream.Sizing();
      ok := sizes.PutItems(fields, i, vs, true);
      size := sizes.written;
    }

    /** The size and the entries. */
    method PutCounted(fields: seq<Field>, i: nat, vs: seq<Value>, size: nat) returns (ok: bool)
      requires Valid() && i < |fields| && WellFormed(fields) && Packable(fields[i].ltype)
      requires forall k :: 0 <= k < |vs| ==> FitsValue(fields, i, vs[k])
      requires SizedItems(fields, i, vs)
      requires var items := EncodeItems(fields, i, vs, 0, true); items.Some? && size == |items.value|
      modifies this, dest
      ensures Valid() && Put(old(Out()), Lengthened(EncodeItems(fields, i, vs, 0, true)), ok, Out())
      decreases fields, 2, 1, 0
    {
      ghost var between, items := Out(), EncodeItems(fields, i, vs, 0, true);
      ok := PutVarint(size);
      if !ok {
        PutFails(between, Some(EncodeVarint(size)), Out(), items);
        return;
      }
      ghost var sent := Out();
      if sizing { ok := Count(items.value, size); } else { ok := PutItems(fields, i, vs, true); }
      PutBoth(between, Some(EncodeVarint(size)), sent, items, ok, Out());
    }

    /** encode_basic_field. */
    method PutField(fields: seq<Field>, slots: seq<Slot>, i: nat) returns (ok: bool)
      requires Valid() && WellFormed(fields) && Fits(fields, slots) && i < |fields| && SizedSlot(fields, slots, i)
      modifies this, dest
      ensures Valid() && Put(old(Out()), EncodeField(fields, slots, i), ok, Out())
      decreases fields, 4, 0
    {
      var f, s := fields[i], slots[i];
      assert FitsSlot(fields, i, s);
      match f.htype
      case Required => ok := PutTagged(fields, i, s.v);
      case Optional => if s.present { ok := PutTagged(fields, i, s.v); } else { ok := true; }
      case Singular => if IsZero(fields, i, s.v) { ok := true; } else { ok := PutTagged(fields, i, s.v); }
      case Repeated => ok := PutArray(fields, i, s.vs);
      case Oneof(leader) =>
        var u := Union(fields, slots, i);
        if u.Chosen? && u.which == f.tag {
          UnionFits(fields, slots, i);
          ok := PutTagged(fields, i, u.v);
        } else {
          ok := true;
        }
    }
  }

  /** pb_get_encoded_size. */
  method EncodedSize(fields: seq<Field>, slots: seq<Slot>) returns (size: Option<nat>)
    requires WellFormed(fields) && Fits(fields, slots) && Sized(fields, slots)
    ensures size == match Encode(fields, slots) case None => None case Some(e) => Some(|e|)
  {
    var sizes := new OStream.Sizing();
    var ok := sizes.PutMessage(fields, slots);
    size := if ok then Some(sizes.written) else None;
  }
}
