/** Input streams of pb_decode.c over a buffer, and the decoders. */
module PbInput {
  import opened Options
  import opened Bytes
  import opened PbVarint
  import opened PbSchema
  import opened PbDecoding
  import opened PbIterator
  import opened PbRequired

  /** A call that succeeds exactly if the input has a value, and yields it and the
      input after it. */
  predicate Got<T(==)>(r: Option<Read<T>>, ok: bool, v: T, rest: seq<byte>) {
    (ok <==> r.Some?) && (ok ==> r == Some(Read(v, rest)))
  }

  lemma {:induction false} FirstOf(source: seq<byte>, at: nat, left: nat)
    requires at + left <= |source| && left > 0
    ensures source[at..at + left][0] == source[at]
    ensures source[at..at + left][1..] == source[at + 1..at + left]
  {
  }

  lemma {:induction false} PartsOf(source: seq<byte>, at: nat, left: nat, n: nat)
    requires at + left <= |source| && n <= left
    ensures source[at..at + left][..n] == source[at..at + n]
    ensures source[at..at + left][n..] == source[at + n..at + left]
  {
  }

  /** The high bits of a byte's digit beyond 64 are lost, as the shift loses them. */
  lemma {:induction false} OrDigit64(sofar: nat, d: nat, k: nat)
    requires k < 10 && sofar < Shl(1, 7 * k)
    ensures Or(sofar % TWO64, Shl(d, 7 * k)) % TWO64 == (sofar + Shl(d, 7 * k)) % TWO64
  {
    SixtyThreeBits(k);
    OrDisjoint(sofar, d, 7 * k);
    assert sofar % TWO64 == sofar;
  }

  lemma {:induction false} SixtyThreeBits(k: nat)
    requires k < 10
    ensures Shl(1, 7 * k) <= TWO63
  {
    SmallShifts(1);
    ShlSeven(1, 35);
    ShlSeven(1, 42);
    ShlSeven(1, 49);
    ShlSeven(1, 56);
  }

  /** A number cast to a signed type of a size. */
  function Cast(n: int, size: nat): int
    requires IntSize(size)
  {
    (n + Bound(size) / 2) % Bound(size) - Bound(size) / 2
  }

  /** The word as the type of the field's decoder, before it is cast to the field. */
  function Widened(f: Field, w: nat): int
    requires w < TWO64
  {
    match f.ltype
    case Varint => if f.dataSize == 8 then Cast(w, 8) else Cast(w, 4)
    case SVarint => Unzigzag(w)
    case _ => w
  }

  /** The cast to the size of the field. */
  function Clamped(f: Field, n: int): int
    requires IntSize(f.dataSize)
  {
    if f.ltype.UVarint? then n % Bound(f.dataSize) else Cast(n, f.dataSize)
  }

  lemma {:induction false} ModKeeps(x: int, b: nat)
    requires b > 0
    ensures x % b == x <==> 0 <= x < b
  {
  }

  lemma {:induction false} CastKeeps(n: int, size: nat)
    requires IntSize(size)
    ensures Cast(n, size) == n <==> 0 <= n + Bound(size) / 2 < Bound(size)
    ensures n >= 0 ==> (n % Bound(size) == n <==> n < Bound(size))
  {
    var b := Bound(size);
    ModKeeps(n + b / 2, b);
    ModKeeps(n, b);
  }

  lemma {:induction false} CastSigned(w: nat)
    requires w < TWO64
    ensures Cast(w, 8) == Signed64(w) && Cast(w, 4) == Signed32(w)
  {
    assert Bound(8) == TWO64 && Bound(4) == TWO32;
  }

  /** A cast that changes the number is one that does not fit the field. */
  lemma {:induction false} ClampedFits(f: Field, w: nat)
    requires w < TWO64 && IntSize(f.dataSize) && (f.ltype.Varint? || f.ltype.UVarint? || f.ltype.SVarint?)
    ensures Widened(f, w) == NumberOf(f, w)
    ensures Clamped(f, Widened(f, w)) == Widened(f, w) <==> InRange(f, Widened(f, w))
  {
    CastSigned(w);
    CastKeeps(Widened(f, w), f.dataSize);
  }

  /** Four bytes shifted to their places and joined. */
  function Joined(b0: nat, b1: nat, b2: nat, b3: nat): nat { b0 + 0x100 * b1 + 0x1_0000 * b2 + 0x100_0000 * b3 }

  lemma {:induction false} FourBytesOf(s: seq<byte>)
    requires |s| >= 4
    ensures FromLittleEndian(s[..4]) == Joined(s[0], s[1], s[2], s[3])
  {
    assert s[..4][1..] == s[1..4] && s[1..4][1..] == s[2..4] && s[2..4][1..] == s[3..4];
    assert FromLittleEndian(s[..4]) == s[0] + 256 * FromLittleEndian(s[1..4]);
    assert FromLittleEndian(s[1..4]) == s[1] + 256 * FromLittleEndian(s[2..4]);
    assert FromLittleEndian(s[2..4]) == s[2] + 256 * FromLittleEndian(s[3..4]);
    assert s[3..4] == [s[3]] && s[3..4][1..] == [] && FromLittleEndian([]) == 0;
    assert FromLittleEndian(s[3..4]) == s[3] + 256 * FromLittleEndian(s[3..4][1..]);
  }

  lemma {:induction false} EightBytesOf(s: seq<byte>)
    requires |s| == 8
    ensures FromLittleEndian(s) == Joined(s[0], s[1], s[2], s[3]) + TWO32 * Joined(s[4], s[5], s[6], s[7])
  {
    FourBytesOf(s[4..]);
    assert s[4..][..4] == s[4..];
    assert s[1..][1..] == s[2..] && s[2..][1..] == s[3..] && s[3..][1..] == s[4..];
    assert FromLittleEndian(s) == s[0] + 256 * FromLittleEndian(s[1..]);
    assert FromLittleEndian(s[1..]) == s[1] + 256 * FromLittleEndian(s[2..]);
    assert FromLittleEndian(s[2..]) == s[2] + 256 * FromLittleEndian(s[3..]);
    assert FromLittleEndian(s[3..]) == s[3] + 256 * FromLittleEndian(s[4..]);
  }

  /** pb_istream_t over a buffer that is only read. */
  lemma {:induction false} PackedStep(fields: seq<Field>, i: nat, vs: seq<Value>, s: seq<byte>,
        whole: Option<seq<Value>>)
    requires i < |fields| && s != [] && |vs| < fields[i].arraySize && whole == DecodePacked(fields, i, vs, s)
    ensures var item := DecodeValue(fields, i, Number(0), s);
            whole == if item.None? then None else DecodePacked(fields, i, vs + [item.value.value], item.value.rest)
  {
  }

  lemma {:induction false} PackedEnd(fields: seq<Field>, i: nat, vs: seq<Value>, s: seq<byte>,
        whole: Option<seq<Value>>)
    requires i < |fields| && whole == DecodePacked(fields, i, vs, s)
    ensures s == [] ==> whole == Some(vs)
    ensures s != [] && |vs| >= fields[i].arraySize ==> whole == None
  {
  }

  /** One record, and what the loop does with it. */
  lemma {:induction false} LoopStep(fields: seq<Field>, slots: seq<Slot>, seen: set<nat>, s: seq<byte>,
        t: Option<Read<nat>>, whole: Option<Loop>)
    requires |fields| == |slots| && s != [] && t == DecodeVarint32(s) && whole == DecodeLoop(fields, slots, seen, s)
    ensures t.None? ==> whole.None?
    ensures t.Some? && t.value.value == 0 ==> whole == Some(Loop(slots, seen, t.value.rest, true))
    ensures t.Some? && t.value.value != 0 ==>
              var tag, wire := t.value.value / 8, t.value.value % 8;
              var found := Find(fields, tag);
              whole == if fields == [] && tag == 0 then None
                       else if found.None? then
                         var rest := Skip(t.value.rest, wire);
                         if rest.None? then None else DecodeLoop(fields, slots, seen, rest.value)
                       else
                         var r := DecodeField(fields, slots, found.value, wire, t.value.rest);
                         if r.None? then None
                         else DecodeLoop(fields, r.value.value, See(fields, seen, found.value), r.value.rest)
  {
    assert whole == DecodeRecord(fields, slots, seen, s);
  }

  lemma {:induction false} IntoAfterLoop(fields: seq<Field>, slots: seq<Slot>, s: seq<byte>, whole: Option<Loop>)
    requires |fields| == |slots| && whole == DecodeLoop(fields, slots, {}, s)
    ensures DecodeInto(fields, slots, s)
            == if whole.None? || !AllSeen(fields, whole.value.seen) then None
               else Some(Read(whole.value.slots, whole.value.rest))
  {
  }

  class IStream {
    const source: seq<byte>
    var at: nat
    var left: nat

    ghost predicate Valid()
      reads this
    {
      at + left <= |source|
    }

    ghost function Input(): seq<byte>
      requires Valid()
      reads this
    {
      source[at..at + left]
    }

    /** pb_istream_from_buffer, and the start of a substream. */
    constructor (source: seq<byte>, at: nat, left: nat)
      requires at + left <= |source|
      ensures Valid() && this.source == source && this.at == at && this.left == left
    {
      this.source := source;
      this.at := at;
      this.left := left;
    }

    /** pb_readbyte. */
    method ReadByte() returns (ok: bool, b: byte)
      requires Valid()
      modifies this
      ensures Valid() && at + left == old(at + left) && (ok ==> left < old(left))
      ensures ok <==> old(Input()) != []
      ensures if ok then b == old(Input())[0] && Input() == old(Input())[1..] else Input() == []
    {
      if left == 0 { return false, 0; }
      FirstOf(source, at, left);
      b := source[at];
      at := at + 1;
      left := left - 1;
      ok := true;
    }

    /** pb_read; the bytes are a slice of the buffer instead of a copy. */
    method Read(n: nat) returns (ok: bool, s: seq<byte>)
      requires Valid()
      modifies this
      ensures Valid() && at + left == old(at + left) && (ok ==> left + n == old(left))
      ensures Got(ReadBytes(old(Input()), n), ok, s, Input())
    {
      if left < n { return false, []; }
      PartsOf(source, at, left, n);
      s := source[at..at + n];
      at := at + n;
      left := left - n;
      ok := true;
    }

    /** pb_decode_varint32_eof. */
    method ReadVarint32() returns (ok: bool, v: nat, eof: bool)
      requires Valid()
      modifies this
      ensures Valid() && at + left == old(at + left) && (ok ==> left < old(left))
      ensures Got(DecodeVarint32(old(Input())), ok, v, Input())
      ensures eof <==> old(Input()) == []
      ensures ok ==> v < TWO32
    {
      ghost var all := Input();
      eof, v := false, 0;
      var some, b := ReadByte();
      if !some {
        eof := left == 0;
        return false, 0, eof;
      }
      ok := true;
      if b < 128 { return true, b, false; }
      var bitpos: nat, result: nat := 7, b % 128;
      while b >= 128
        invariant Valid() && at + left == old(at + left) && left < old(left) && result < TWO32 && bitpos < 256
        invariant b >= 128 ==> DecodeVarint32(all) == DecodeMore32(Input(), bitpos, result)
        invariant b < 128 ==>
                    DecodeVarint32(all)
                    == if bitpos == 35 && b >= 16 then None else Some(PbVarint.Read(result, Input()))
        decreases left, b >= 128
      {
        some, b := ReadByte();
        if !some { return false, 0, false; }
        if bitpos >= 32 {
          var signExtension := if bitpos < 63 then 0xff else 0x01;
          if b % 128 != 0 && (result / 0x8000_0000 == 0 || b != signExtension) { return false, 0, false; }
        } else {
          result := Or(result, Shl(b % 128, bitpos)) % TWO32;
        }
        bitpos := (bitpos + 7) % 256;
      }
      if bitpos == 35 && b / 16 != 0 { return false, 0, false; }
      v := result;
    }

    /** pb_decode_varint. */
    method ReadVarint() returns (ok: bool, v: nat)
      requires Valid()
      modifies this
      ensures Valid() && at + left == old(at + left) && (ok ==> left < old(left))
      ensures Got(DecodeVarint(old(Input())), ok, v, Input())
      ensures ok ==> v < TWO64
    {
      ghost var all := Input();
      var bitpos: nat, result: nat := 0, 0;
      ghost var k: nat, sofar: nat := 0, 0;
      var more := true;
      while more
        invariant Valid() && at + left == old(at + left) && (k > 0 ==> left < old(left))
        invariant bitpos == 7 * k && k <= 10 && result == sofar % TWO64 && (more ==> sofar < Shl(1, bitpos))
        invariant more ==> DecodeVarint(all) == DecodeFrom(Input(), k, sofar)
        invariant !more ==> k > 0 && DecodeVarint(all) == Some(PbVarint.Read(result, Input()))
        decreases left, more
      {
        if bitpos >= 64 { return false, 0; }
        var some, b := ReadByte();
        if !some { return false, 0; }
        NextDigit(sofar, b % 128, bitpos);
        OrDigit64(sofar, b % 128, k);
        result := Or(result, Shl(b % 128, bitpos)) % TWO64;
        sofar := sofar + Shl(b % 128, bitpos);
        bitpos := bitpos + 7;
        k := k + 1;
        more := b >= 128;
      }
      return true, result;
    }

    /** pb_skip_varint. */
    method PassVarint() returns (ok: bool)
      requires Valid()
      modifies this
      ensures Valid() && at + left == old(at + left) && (ok ==> left < old(left))
      ensures var r := SkipVarint(old(Input())); (ok <==> r.Some?) && (ok ==> r == Some(Input()))
    {
      ghost var all := Input();
      var b: byte := 0x80;
      while b >= 128
        invariant Valid() && at + left == old(at + left) && left <= old(left) && (b < 128 ==> left < old(left))
        invariant SkipVarint(all) == if b >= 128 then SkipVarint(Input()) else Some(Input())
        decreases left, b >= 128
      {
        ok, b := ReadByte();
        if !ok { return; }
      }
      return true;
    }

    /** pb_skip_field, pb_skip_string. */
    method PassField(wire: nat) returns (ok: bool)
      requires Valid()
      modifies this
      ensures Valid() && at + left == old(at + left) && (ok ==> left < old(left))
      ensures var r := Skip(old(Input()), wire); (ok <==> r.Some?) && (ok ==> r == Some(Input()))
    {
      var s: seq<byte>;
      if wire == 0 {
        ok := PassVarint();
      } else if wire == 1 {
        ok, s := Read(8);
      } else if wire == 2 {
        var length, eof;
        ok, length, eof := ReadVarint32();
        if ok { ok, s := Read(length); }
      } else if wire == 5 {
        ok, s := Read(4);
      } else {
        ok := false;
      }
    }

    /** pb_make_string_substream. Until the substream is closed this stream's own place
        is before the chunk. */
    method MakeSubstream() returns (ok: bool, inner: IStream)
      requires Valid()
      modifies this
      ensures Valid() && at + left <= old(at + left) && fresh(inner) && inner.Valid() && inner.source == source
      ensures ok <==> ReadChunk(old(Input())).Some?
      ensures ok ==> inner.at + inner.left + left == old(at + left) && inner.left + left < old(left)
      ensures ok ==> source[inner.at + inner.left..old(at + left)] == ReadChunk(old(Input())).value.rest
      ensures ok ==> inner.Input() == ReadChunk(old(Input())).value.value
    {
      var size, eof;
      ok, size, eof := ReadVarint32();
      inner := new IStream(source, at, left);
      if !ok { return; }
      if inner.left < size { return false, inner; }
      PartsOf(source, at, left, size);
      inner.left := size;
      left := left - size;
    }

    /** pb_close_string_substream: what the substream left is skipped. */
    method CloseSubstream(inner: IStream) returns (ok: bool)
      requires Valid() && inner != this && inner.Valid() && inner.source == source
      requires inner.at + inner.left + left <= |source|
      modifies this, inner
      ensures ok && Valid() && left == old(left) && at == old(inner.at + inner.left)
    {
      if inner.left != 0 {
        var some, _ := inner.Read(inner.left);
        if !some { return false; }
      }
      at := inner.at;
      return true;
    }

    /** The decoders of numbers. */
    method ReadNumber(f: Field) returns (ok: bool, n: int)
      requires Valid() && Packable(f.ltype)
      modifies this
      ensures Valid() && at + left == old(at + left) && (ok ==> left < old(left))
      ensures Got(DecodeNumber(f, old(Input())), ok, n, Input())
    {
      if f.ltype.Fixed32? {
        var s;
        ok, s := Read(4);
        if !ok { return false, 0; }
        FourBytesOf(s);
        assert s[..4] == s;
        n := Joined(s[0], s[1], s[2], s[3]);
      } else if f.ltype.Fixed64? {
        var s;
        ok, s := Read(8);
        if !ok { return false, 0; }
        EightBytesOf(s);
        n := Joined(s[0], s[1], s[2], s[3]) + TWO32 * Joined(s[4], s[5], s[6], s[7]);
      } else {
        var w;
        ok, w := ReadVarint();
        if !ok || !IntSize(f.dataSize) { return false, 0; }
        n := Widened(f, w);
        ClampedFits(f, w);
        if Clamped(f, n) != n { return false, 0; }
      }
    }

    /** PB_DECODERS. The value in the destination is passed in and the new one
        returned. */
    method ReadValue(fields: seq<Field>, i: nat, before: Value) returns (ok: bool, v: Value)
      requires Valid() && i < |fields| && WellFormed(fields)
      modifies this
      ensures Valid() && at + left <= old(at + left) && (ok ==> at + left == old(at + left) && left < old(left))
      ensures Got(DecodeValue(fields, i, before, old(Input())), ok, v, Input())
      decreases left, 0
    {
      var f := fields[i];
      v := before;
      if Packable(f.ltype) {
        var n;
        ok, n := ReadNumber(f);
        v := Number(n);
      } else if f.ltype.Submessage? {
        ok, v := ReadSubmessage(fields, i, before);
      } else {
        var size, eof, s;
        ok, size, eof := ReadVarint32();
        if !ok { return; }
        if f.ltype.FixedLengthBytes? {
          if size == 0 { return true, Blob(seq(f.dataSize, _ => 0)); }
          if size != f.dataSize { return false, v; }
        } else if f.ltype.Bytes? {
          if size + 4 > f.dataSize { return false, v; }
        } else {
          if size + 1 > f.dataSize { return false, v; }
        }
        ok, s := Read(size);
        v := Blob(if f.ltype.String? then CString(s) else s);
      }
    }

    /** pb_dec_submessage. */
    method ReadSubmessage(fields: seq<Field>, i: nat, before: Value) returns (ok: bool, v: Value)
      requires Valid() && i < |fields| && WellFormed(fields) && fields[i].ltype.Submessage?
      modifies this
      ensures Valid() && at + left <= old(at + left) && (ok ==> at + left == old(at + left) && left < old(left))
      ensures Got(DecodeValue(fields, i, before, old(Input())), ok, v, Input())
      decreases left, 0, 0
    {
      var f := fields[i];
      v := before;
      ghost var end := at + left;
      var some, inner := MakeSubstream();
      if !some { return false, v; }
      var slots;
      if f.htype.Repeated? {
        ok, slots := inner.ReadMessage(f.sub);
      } else {
        ok, slots := inner.ReadInto(f.sub, SlotsOf(f.sub, before));
      }
      v := Message(slots);
      var closed := CloseSubstream(inner);
      ok := ok && closed;
    }

    /** pb_decode_noinit. */
    method ReadInto(fields: seq<Field>, slots: seq<Slot>) returns (ok: bool, r: seq<Slot>)
      requires Valid() && WellFormed(fields) && |fields| == |slots|
      modifies this
      ensures Valid() && at + left <= old(at + left) && (ok ==> at + left == old(at + left))
      ensures Got(DecodeInto(fields, slots, old(Input())), ok, r, Input())
      decreases left, 4
    {
      var iter := new FieldIter(fields);
      var words := NothingSeen(TrackedCount(fields));
      ghost var whole := DecodeLoop(fields, slots, {}, Input());
      IntoAfterLoop(fields, slots, Input(), whole);
      ok, r := ReadRecords(fields, slots, iter, words, whole);
      if ok { ok := iter.CheckRequired(words, whole.value.seen); }
    }

    /** The loop of pb_decode_noinit. `whole` is what it is to read. */
    method ReadRecords(fields: seq<Field>, slots: seq<Slot>, iter: FieldIter, words: array<nat>,
          ghost whole: Option<Loop>)
      returns (ok: bool, r: seq<Slot>)
      requires Valid() && WellFormed(fields) && |fields| == |slots|
      requires iter.Valid() && iter.fields == fields && Holds(words, {}, TrackedCount(fields))
      requires whole == DecodeLoop(fields, slots, {}, Input())
      modifies this, iter, words
      ensures Valid() && at + left <= old(at + left) && (ok ==> at + left == old(at + left)) && iter.Valid()
      ensures ok <==> whole.Some?
      ensures ok ==> whole == Some(Loop(r, whole.value.seen, Input(), whole.value.stopped))
                     && Holds(words, whole.value.seen, TrackedCount(fields))
      decreases left, 3, 2
    {
      ghost var seen: set<nat> := {};
      r := slots;
      while left != 0
        invariant Valid() && at + left == old(at + left) && |r| == |fields|
        invariant iter.Valid() && Holds(words, seen, TrackedCount(fields))
        invariant whole == DecodeLoop(fields, r, seen, Input())
        decreases left
      {
        var more;
        ok, more, r, seen := ReadRecord(fields, r, iter, words, seen, whole);
        if !ok || !more { return; }
      }
      return true, r;
    }

    /** One turn of the loop: a tag and its field. */
    method ReadRecord(fields: seq<Field>, slots: seq<Slot>, iter: FieldIter, words: array<nat>, ghost seen: set<nat>,
          ghost whole: Option<Loop>)
      returns (ok: bool, more: bool, r: seq<Slot>, ghost seen': set<nat>)
      requires Valid() && left != 0 && WellFormed(fields) && |fields| == |slots|
      requires iter.Valid() && iter.fields == fields && Holds(words, seen, TrackedCount(fields))
      requires whole == DecodeLoop(fields, slots, seen, Input())
      modifies this, iter, words
      ensures Valid() && at + left <= old(at + left) && iter.Valid()
      ensures ok ==> at + left == old(at + left) && left < old(left) && |r| == |fields|
                     && Holds(words, seen', TrackedCount(fields))
      ensures if !ok then whole.None?
              else whole == if more then DecodeLoop(fields, r, seen', Input())
                            else Some(Loop(r, seen', Input(), true))
      decreases left, 3, 1
    {
      more, r, seen' := false, slots, seen;
      LoopStep(fields, slots, seen, Input(), DecodeVarint32(Input()), whole);
      var some, temp, eof := ReadVarint32();
      if !some { return false, more, r, seen'; }
      // A zero ends the message.
      if temp == 0 { return true, more, r, seen'; }
      var tag, wire := temp / 8, temp % 8;
      var found := iter.Find(tag);
      more := true;
      if !found {
        ok := PassField(wire);
      } else if fields == [] {
        // The terminator of an empty message: a number of no size.
        var number;
        ok, number := ReadNumber(At(fields, iter.pos));
        ok := false;
      } else {
        FindOwn(fields, iter.pos, 0);
        iter.MarkSeen(words, seen);
        seen' := See(fields, seen, iter.pos);
        ok, r := ReadField(fields, slots, iter.pos, wire);
      }
    }

    /** decode_static_field, with pb_release_union_field before it. */
    method ReadField(fields: seq<Field>, slots: seq<Slot>, i: nat, wire: nat) returns (ok: bool, r: seq<Slot>)
      requires Valid() && WellFormed(fields) && i < |fields| == |slots|
      modifies this
      ensures Valid() && at + left <= old(at + left) && (ok ==> at + left == old(at + left) && left < old(left))
      ensures Got(DecodeField(fields, slots, i, wire, old(Input())), ok, r, Input())
      decreases left, 3
    {
      var f := fields[i];
      var v: Value;
      r := slots;
      match f.htype
      case Required | Singular =>
        ok, v := ReadValue(fields, i, ValueOf(slots[i]));
        r := slots[i := Plain(v)];
      case Optional =>
        ok, v := ReadValue(fields, i, ValueOf(slots[i]));
        r := slots[i := Has(true, v)];
      case Repeated =>
        var vs := if slots[i].Items? then slots[i].vs else [];
        if wire == 2 && Packable(f.ltype) {
          ok, vs := ReadPacked(fields, i, vs);
          r := slots[i := Items(vs)];
        } else {
          if |vs| >= f.arraySize { return false, r; }
          ok, v := ReadValue(fields, i, Number(0));
          r := slots[i := Items(vs + [v])];
        }
      case Oneof(leader) =>
        var u := slots[leader];
        if u.Chosen? && u.which != 0 && u.which != f.tag {
          var before := new FieldIter(fields);
          var found := before.Find(u.which);
          if !found { return false, r; }
        }
        ok, v := ReadValue(fields, i, Message(Defaults(f.sub)));
        r := slots[leader := Chosen(f.tag, v)];
    }

    /** The packed branch of decode_static_field. */
    method ReadPacked(fields: seq<Field>, i: nat, before: seq<Value>) returns (ok: bool, vs: seq<Value>)
      requires Valid() && WellFormed(fields) && i < |fields| && Packable(fields[i].ltype)
      modifies this
      ensures Valid() && at + left <= old(at + left) && (ok ==> at + left == old(at + left) && left < old(left))
      ensures
        var c := ReadChunk(old(Input()));
        var items := if c.None? then None else DecodePacked(fields, i, before, c.value.value);
        (ok <==> items.Some?) && (ok ==> vs == items.value && Input() == c.value.rest)
      decreases left, 2
    {
      vs := before;
      ghost var end := at + left;
      var some, inner := MakeSubstream();
      if !some { return false, vs; }
      ghost var whole := DecodePacked(fields, i, before, inner.Input());
      var status, v := true, Number(0);
      while status && inner.left > 0 && |vs| < fields[i].arraySize
        invariant inner.Valid() && inner.at + inner.left + left <= end
        invariant status ==> inner.at + inner.left + left == end
        invariant whole == if status then DecodePacked(fields, i, vs, inner.Input()) else None
        modifies inner
        decreases status, inner.left
      {
        PackedStep(fields, i, vs, inner.Input(), whole);
        status, v := inner.ReadValue(fields, i, Number(0));
        if status { vs := vs + [v]; }
      }
      if status { PackedEnd(fields, i, vs, inner.Input(), whole); }
      if inner.left != 0 { return false, vs; }
      var closed := CloseSubstream(inner);
      ok := closed && status;
    }

    /** pb_decode. */
    method ReadMessage(fields: seq<Field>) returns (ok: bool, r: seq<Slot>)
      requires Valid() && WellFormed(fields)
      modifies this
      ensures Valid() && at + left <= old(at + left) && (ok ==> at + left == old(at + left))
      ensures Got(Decode(fields, old(Input())), ok, r, Input())
      decreases left, 5
    {
      ok, r := ReadInto(fields, Defaults(fields));
    }
  }
}
