/** The anti-replay window of section 4.1.2.6 of RFC 6347: a 64-bit map below the
    highest number seen. A number is the 16-bit epoch followed by the 48-bit
    sequence, as on the wire. */
module DtlsReplay {
  import opened Bytes

  /** 1 << i, and m << d, as single shifts. */
  function Unit(i: nat): bv64 { if i == 0 then 1 else Unit(i - 1) << 1 }
  function ShiftLeft(m: bv64, d: nat): bv64 { if d == 0 then m else ShiftLeft(m, d - 1) << 1 }

  /** The mask test of bit i. */
  predicate Test(m: bv64, i: nat) { m & Unit(i) != 0 }

  /** Bit i of a map. */
  predicate Bit(m: bv64, i: nat) { if i == 0 then m & 1 == 1 else Bit(m >> 1, i - 1) }

  lemma {:induction false} LastUnit()
    ensures Unit(63) == 0x8000_0000_0000_0000
  {
    assert Unit(8) == 0x100;
    assert Unit(16) == 0x1_0000;
    assert Unit(24) == 0x100_0000;
    assert Unit(32) == 0x1_0000_0000;
    assert Unit(40) == 0x100_0000_0000;
    assert Unit(48) == 0x1_0000_0000_0000;
    assert Unit(56) == 0x100_0000_0000_0000;
  }

  lemma {:induction false} ZeroStays(i: nat, k: nat)
    requires Unit(i) == 0 && i <= k
    ensures Unit(k) == 0
    decreases k - i
  {
    if i < k { ZeroStays(i + 1, k); }
  }

  lemma {:induction false} SingleUp(u: bv64)
    requires u & (u - 1) == 0
    ensures (u << 1) & ((u << 1) - 1) == 0
  {
  }

  lemma {:induction false} Single(i: nat)
    requires i < 64
    ensures Unit(i) != 0 && Unit(i) & (Unit(i) - 1) == 0
  {
    LastUnit();
    if Unit(i) == 0 { ZeroStays(i, 63); }
    if i > 0 {
      Single(i - 1);
      SingleUp(Unit(i - 1));
    }
  }

  lemma {:induction false} AndUp(m: bv64, u: bv64)
    requires u & (u - 1) == 0 && u << 1 != 0
    ensures m & (u << 1) != 0 <==> (m >> 1) & u != 0
  {
  }

  lemma {:induction false} TestDown(m: bv64, i: nat)
    requires 0 < i < 64
    ensures m & Unit(i) != 0 <==> (m >> 1) & Unit(i - 1) != 0
  {
    Single(i);
    Single(i - 1);
    AndUp(m, Unit(i - 1));
  }

  lemma {:induction false} TestLowest(m: bv64)
    ensures m & Unit(0) != 0 <==> m & 1 == 1
  {
  }

  lemma {:induction false} BitOfTest(m: bv64, i: nat)
    requires i < 64
    ensures m & Unit(i) != 0 <==> Bit(m, i)
    decreases i
  {
    if i == 0 {
      TestLowest(m);
    } else {
      TestDown(m, i);
      BitOfTest(m >> 1, i - 1);
    }
  }

  lemma {:induction false} ApartUp(u: bv64, v: bv64)
    requires u & v == 0
    ensures (u << 1) & (v << 1) == 0
  {
  }

  lemma {:induction false} LowestApart(v: bv64)
    ensures 1 & (v << 1) == 0 && (v << 1) & 1 == 0
  {
  }

  lemma {:induction false} UnitsApart(i: nat, j: nat)
    requires i != j
    ensures Unit(i) & Unit(j) == 0
  {
    if i == 0 {
      LowestApart(Unit(j - 1));
    } else if j == 0 {
      LowestApart(Unit(i - 1));
    } else {
      UnitsApart(i - 1, j - 1);
      ApartUp(Unit(i - 1), Unit(j - 1));
    }
  }

  lemma {:induction false} OrAnd(m: bv64, u: bv64, v: bv64)
    ensures (m | u) & v == (m & v) | (u & v)
  {
  }

  lemma {:induction false} OrZero(x: bv64)
    ensures x | 0 == x
  {
  }

  lemma {:induction false} OtherMark(m: bv64, at: nat, i: nat)
    requires at != i
    ensures (m | Unit(at)) & Unit(i) == m & Unit(i)
  {
    UnitsApart(at, i);
    OrAnd(m, Unit(at), Unit(i));
    OrZero(m & Unit(i));
  }

  lemma {:induction false} OrSame(m: bv64, u: bv64)
    requires u != 0
    ensures (m | u) & u != 0
  {
  }

  lemma {:induction false} BitOfOwnMark(m: bv64, at: nat)
    requires at < 64
    ensures Bit(m | Unit(at), at)
  {
    Single(at);
    OrSame(m, Unit(at));
    BitOfTest(m | Unit(at), at);
  }

  lemma {:induction false} SameTest(x: bv64, m: bv64, i: nat)
    requires i < 64 && x & Unit(i) == m & Unit(i)
    ensures Bit(x, i) <==> Bit(m, i)
  {
    BitOfTest(x, i);
    BitOfTest(m, i);
  }

  lemma {:induction false} SameBit(x: bv64, m: bv64, i: nat)
    requires i < 64
    ensures x & Unit(i) == m & Unit(i) ==> (Bit(x, i) <==> Bit(m, i))
  {
    if x & Unit(i) == m & Unit(i) { SameTest(x, m, i); }
  }

  lemma {:induction false} BitOfOtherMark(m: bv64, at: nat, i: nat)
    requires at < 64 && i < 64 && i != at
    ensures Bit(m | Unit(at), i) <==> Bit(m, i)
  {
    OtherMark(m, at, i);
    SameBit(m | Unit(at), m, i);
  }

  lemma {:induction false} ShiftOnceTest(m: bv64, u: bv64)
    requires u & (u - 1) == 0 && u << 1 != 0
    ensures (m << 1) & (u << 1) != 0 <==> m & u != 0
  {
  }

  lemma {:induction false} ShiftDown(m: bv64, i: nat)
    requires 0 < i < 64
    ensures (m << 1) & Unit(i) != 0 <==> m & Unit(i - 1) != 0
  {
    Single(i);
    Single(i - 1);
    ShiftOnceTest(m, Unit(i - 1));
  }

  lemma {:induction false} ShiftLowest(m: bv64)
    ensures (m << 1) & 1 == 0
  {
  }

  lemma {:induction false} BitOfOneShift(m: bv64, i: nat)
    requires i < 64
    ensures Bit(m << 1, i) <==> i > 0 && Bit(m, i - 1)
  {
    if i == 0 {
      ShiftLowest(m);
    } else {
      BitOfTest(m << 1, i);
      BitOfTest(m, i - 1);
      ShiftDown(m, i);
    }
  }

  lemma {:induction false} BitOfShift(m: bv64, d: nat, i: nat)
    requires i < 64
    ensures Bit(ShiftLeft(m, d), i) <==> d <= i && Bit(m, i - d)
    decreases d
  {
    if d > 0 {
      BitOfOneShift(ShiftLeft(m, d - 1), i);
      if i > 0 { BitOfShift(m, d - 1, i - 1); }
    }
  }

  /** Marking a bit sets it and no other. */
  lemma {:induction false} BitOfMark(m: bv64, at: nat, i: nat)
    requires at < 64 && i < 64
    ensures Bit(m | Unit(at), i) <==> i == at || Bit(m, i)
  {
    if i == at { BitOfOwnMark(m, at); } else { BitOfOtherMark(m, at, i); }
  }

  lemma {:induction false} NoBits(i: nat)
    ensures !Bit(0, i)
    decreases i
  {
    if i > 0 {
      assert 0 as bv64 >> 1 == 0;
      NoBits(i - 1);
    }
  }

  /** The map as its bits, lowest first. */
  type Word = w: seq<bool> | |w| == 64 witness seq(64, _ => false)

  function WordOf(m: bv64): Word { seq(64, i requires 0 <= i < 64 => Bit(m, i)) }

  function MovedUp(w: Word, d: nat): Word {
    seq(64, i requires 0 <= i < 64 => i >= d && w[i - d])
  }

  const NOTHING: Word := seq(64, _ => false)

  lemma {:induction false} TestIsBit(m: bv64, i: nat)
    requires i < 64
    ensures Test(m, i) == Bit(m, i)
  {
    BitOfTest(m, i);
  }

  lemma {:induction false} WordOfTest(m: bv64, i: nat)
    requires i < 64
    ensures Test(m, i) == WordOf(m)[i]
  {
    TestIsBit(m, i);
  }

  lemma {:induction false} WordOfMark(m: bv64, at: nat)
    requires at < 64
    ensures WordOf(m | Unit(at)) == WordOf(m)[at := true]
  {
    var w, v := WordOf(m | Unit(at)), WordOf(m)[at := true];
    forall i | 0 <= i < 64 ensures w[i] == v[i] { BitOfMark(m, at, i); }
  }

  lemma {:induction false} WordOfShift(m: bv64, d: nat)
    ensures WordOf(ShiftLeft(m, d)) == MovedUp(WordOf(m), d)
  {
    forall i | 0 <= i < 64 ensures WordOf(ShiftLeft(m, d))[i] == MovedUp(WordOf(m), d)[i] { BitOfShift(m, d, i); }
  }

  lemma {:induction false} WordOfZero()
    ensures WordOf(0) == NOTHING
  {
    var w := WordOf(0);
    forall i | 0 <= i < 64 ensures w[i] == NOTHING[i] { NoBits(i); }
  }

  /** DTLS1_BITMAP: bit i of the map stands for max - i. */
  datatype Bitmap = Bitmap(bits: bv64, max: nat)

  const EMPTY := Bitmap(0, 0)

  const WINDOW_SIZE := 64

  /** dtls1_bitmap_should_discard. */
  predicate ShouldDiscard(b: Bitmap, n: nat) {
    n <= b.max && (b.max - n >= WINDOW_SIZE || Test(b.bits, b.max - n))
  }

  /** dtls1_bitmap_record. */
  function Record(b: Bitmap, n: nat): Bitmap {
    var s := if n <= b.max then b
             else if n - b.max >= WINDOW_SIZE then Bitmap(0, n)
             else Bitmap(ShiftLeft(b.bits, n - b.max), n);
    if s.max - n < WINDOW_SIZE then s.(bits := s.bits | Unit(s.max - n)) else s
  }

  /** The same on bits. */
  datatype Window = Window(mask: Word, max: nat)

  function View(b: Bitmap): Window { Window(WordOf(b.bits), b.max) }

  predicate Discards(w: Window, n: nat) { n <= w.max && (w.max - n >= WINDOW_SIZE || w.mask[w.max - n]) }

  function Recorded(w: Window, n: nat): Window {
    if n > w.max then Window(MovedUp(w.mask, n - w.max)[0 := true], n)
    else if w.max - n < WINDOW_SIZE then w.(mask := w.mask[w.max - n := true])
    else w
  }

  lemma {:induction false} DiscardRefines(b: Bitmap, n: nat)
    ensures ShouldDiscard(b, n) == Discards(View(b), n)
  {
    if n <= b.max && b.max - n < WINDOW_SIZE { WordOfTest(b.bits, b.max - n); }
  }

  lemma {:induction false} MovedAndMarked(m: bv64, d: nat)
    ensures WordOf(ShiftLeft(m, d) | Unit(0)) == MovedUp(WordOf(m), d)[0 := true]
  {
    WordOfMark(ShiftLeft(m, d), 0);
    WordOfShift(m, d);
  }

  lemma {:induction false} ClearedAndMarked(w: Word, d: nat)
    requires d >= WINDOW_SIZE
    ensures WordOf(0 | Unit(0)) == MovedUp(w, d)[0 := true]
  {
    WordOfMark(0, 0);
    WordOfZero();
  }

  lemma {:induction false} AheadRefines(b: Bitmap, n: nat)
    requires n > b.max
    ensures Record(b, n).max == n && WordOf(Record(b, n).bits) == MovedUp(WordOf(b.bits), n - b.max)[0 := true]
  {
    var d := n - b.max;
    if d >= WINDOW_SIZE { ClearedAndMarked(WordOf(b.bits), d); } else { MovedAndMarked(b.bits, d); }
  }

  lemma {:induction false} RecordRefines(b: Bitmap, n: nat)
    ensures View(Record(b, n)) == Recorded(View(b), n)
  {
    if n > b.max {
      AheadRefines(b, n);
    } else if b.max - n < WINDOW_SIZE {
      WordOfMark(b.bits, b.max - n);
    }
  }

  /** The window describes a set of accepted numbers: max is the highest of them
      (zero if there is none), and bit i is set exactly when max - i is one. */
  ghost predicate Describes(w: Window, accepted: set<nat>) {
    && (forall n <- accepted :: n <= w.max)
    && (if accepted == {} then w.max == 0 else w.max in accepted)
    && (forall i :: 0 <= i < WINDOW_SIZE ==> (w.mask[i] <==> w.max - i in accepted))
  }

  lemma {:induction false} EmptyDescribes()
    ensures Describes(View(EMPTY), {})
  {
    WordOfZero();
  }

  /** 64 or more below an accepted number. */
  ghost predicate Stale(accepted: set<nat>, n: nat) { exists m <- accepted :: n + 64 <= m }

  lemma {:induction false} DiscardsExactly(w: Window, accepted: set<nat>, n: nat)
    requires Describes(w, accepted)
    ensures Discards(w, n) <==> n in accepted || Stale(accepted, n)
  {
    if n + WINDOW_SIZE <= w.max { assert w.max in accepted; }
    if n <= w.max && w.max - n < WINDOW_SIZE {
      assert w.mask[w.max - n] <==> w.max - (w.max - n) in accepted;
    }
  }

  /** A number is discarded exactly when it was accepted before or is stale. */
  lemma {:induction false} DiscardExact(b: Bitmap, accepted: set<nat>, n: nat)
    requires Describes(View(b), accepted)
    ensures ShouldDiscard(b, n) <==> n in accepted || Stale(accepted, n)
  {
    DiscardRefines(b, n);
    DiscardsExactly(View(b), accepted, n);
  }

  lemma {:induction false} RecordedDescribes(w: Window, accepted: set<nat>, n: nat)
    requires Describes(w, accepted) && !Discards(w, n)
    ensures Describes(Recorded(w, n), accepted + {n})
  {
    var r := Recorded(w, n);
    forall i | 0 <= i < WINDOW_SIZE ensures r.mask[i] <==> r.max - i in accepted + {n} {
      if n > w.max && i >= n - w.max {
        assert w.max - (i - (n - w.max)) == r.max - i;
      }
    }
  }

  /** Recording a number adds exactly it to the described set. */
  lemma {:induction false} RecordDescribes(b: Bitmap, accepted: set<nat>, n: nat)
    requires Describes(View(b), accepted) && !ShouldDiscard(b, n)
    ensures Describes(View(Record(b, n)), accepted + {n})
  {
    DiscardRefines(b, n);
    RecordRefines(b, n);
    RecordedDescribes(View(b), accepted, n);
  }

  /** to_u64_be of the eight sequence bytes. */
  function BigEndian(bytes: seq<byte>): nat {
    if bytes == [] then 0 else BigEndian(bytes[..|bytes| - 1]) * 256 + bytes[|bytes| - 1]
  }

  method ToU64Be(bytes: seq<byte>) returns (n: nat)
    requires |bytes| == 8
    ensures n == BigEndian(bytes)
  {
    n := 0;
    for i := 0 to 8
      invariant n == BigEndian(bytes[..i])
    {
      assert bytes[..i + 1][..i] == bytes[..i];
      n := n * 256 + bytes[i];
    }
    assert bytes[..8] == bytes;
  }

  const EPOCH_UNIT := 0x1_0000_0000_0000

  lemma {:induction false} BigEndianSplit(bytes: seq<byte>)
    requires |bytes| == 8
    ensures BigEndian(bytes) / EPOCH_UNIT == bytes[0] as nat * 256 + bytes[1] as nat
  {
    BigEndianBound(bytes[2..]);
    BigEndianAppend(bytes[..2], bytes[2..]);
    assert bytes == bytes[..2] + bytes[2..];
    assert bytes[..2][..1] == [bytes[0]];
    assert BigEndian([bytes[0]]) == BigEndian([]) * 256 + bytes[0];
    assert BigEndian(bytes[..2]) == BigEndian([bytes[0]]) * 256 + bytes[1];
    assert Power256(6) == EPOCH_UNIT;
  }

  function Power256(k: nat): nat { if k == 0 then 1 else 256 * Power256(k - 1) }

  lemma {:induction false} BigEndianBound(bytes: seq<byte>)
    ensures BigEndian(bytes) < Power256(|bytes|)
  {
    if bytes != [] { BigEndianBound(bytes[..|bytes| - 1]); }
  }

  lemma {:induction false} Regroup(x: nat, p: nat, y: nat)
    ensures (x * p + y) * 256 == x * (256 * p) + y * 256
  {
  }

  lemma {:induction false} BigEndianAppend(a: seq<byte>, b: seq<byte>)
    ensures BigEndian(a + b) == BigEndian(a) * Power256(|b|) + BigEndian(b)
  {
    if b == [] {
      assert a + b == a;
    } else {
      var c := b[..|b| - 1];
      BigEndianAppend(a, c);
      assert (a + b)[..|a + b| - 1] == a + c;
      Regroup(BigEndian(a), Power256(|c|), BigEndian(c));
    }
  }

  datatype OpenResult = Accepted | Discarded | Overflow

  const MAX_PLAINTEXT := 16384

  /** An accepted record: the keys it came under, counted from the first, and its
      number. */
  datatype Entry = Entry(keys: nat, number: nat)

  /** The numbers accepted under some keys. */
  ghost function Under(log: seq<Entry>, keys: nat): set<nat> { set e <- log | e.keys == keys :: e.number }

  ghost predicate NoRepeats(log: seq<Entry>) { forall i, j :: 0 <= i < j < |log| ==> log[i] != log[j] }

  ghost predicate UpTo(log: seq<Entry>, keys: nat) { forall i :: 0 <= i < |log| ==> log[i].keys <= keys }

  lemma {:induction false} LogGrows(log: seq<Entry>, keys: nat, n: nat)
    requires NoRepeats(log) && UpTo(log, keys) && n !in Under(log, keys)
    ensures NoRepeats(log + [Entry(keys, n)]) && UpTo(log + [Entry(keys, n)], keys)
    ensures Under(log + [Entry(keys, n)], keys) == Under(log, keys) + {n}
  {
    var more := log + [Entry(keys, n)];
    assert more[|log|] == Entry(keys, n);
    forall k | k in Under(log, keys) ensures k in Under(more, keys) { assert Entry(keys, k) in more; }
  }

  /** The receiving half of the record layer: the read epoch and its window. The
      log lists every record ever accepted; under no keys does it repeat a number. */
  class RecordReader {
    var epoch: nat
    var bitmap: Bitmap
    ghost var keys: nat
    ghost var log: seq<Entry>

    ghost predicate Valid()
      reads this
    {
      && epoch == keys % 0x1_0000
      && Describes(View(bitmap), Under(log, keys))
      && UpTo(log, keys) && NoRepeats(log)
    }

    constructor ()
      ensures Valid() && log == [] && keys == 0
    {
      epoch, bitmap, log, keys := 0, EMPTY, [], 0;
      EmptyDescribes();
    }

    /** The epoch and replay checks of dtls_open_record, then the AEAD and the
        length check, then the window update. */
    method Open(sequence: seq<byte>, authentic: bool, plaintextLen: nat) returns (r: OpenResult)
      requires Valid() && |sequence| == 8
      modifies this
      ensures Valid() && epoch == old(epoch) && keys == old(keys)
      ensures
        var n := BigEndian(sequence);
        var accepted := Under(old(log), keys);
        var novel := n / EPOCH_UNIT == epoch && n !in accepted && !Stale(accepted, n);
        && log == (if r.Accepted? then old(log) + [Entry(keys, n)] else old(log))
        && r == (if !novel || !authentic then Discarded
                 else if plaintextLen > MAX_PLAINTEXT then Overflow else Accepted)
    {
      var n := ToU64Be(sequence);
      var sequenceEpoch := sequence[0] as nat * 256 + sequence[1] as nat;
      BigEndianSplit(sequence);
      DiscardExact(bitmap, Under(log, keys), n);
      if sequenceEpoch != epoch || ShouldDiscard(bitmap, n) { return Discarded; }
      if !authentic { return Discarded; }
      if plaintextLen > MAX_PLAINTEXT { return Overflow; }
      LogGrows(log, keys, n);
      RecordDescribes(bitmap, Under(log, keys), n);
      bitmap := Record(bitmap, n);
      log := log + [Entry(keys, n)];
      return Accepted;
    }

    /** dtls1_set_read_state: new keys start with an empty window. The epoch has 16
        bits and may come round to one it had before. */
    method NextEpoch()
      requires Valid()
      modifies this
      ensures Valid() && epoch == (old(epoch) + 1) % 0x1_0000 && keys == old(keys) + 1 && log == old(log)
    {
      epoch := (epoch + 1) % 0x1_0000;
      keys := keys + 1;
      bitmap := EMPTY;
      EmptyDescribes();
      assert Under(log, keys) == {};
    }
  }
}
