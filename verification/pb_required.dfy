/** The required fields that pb_decode_noinit has seen, as bits of 32-bit words. */
module PbRequired {
  import opened Options
  import opened Bytes
  import opened PbVarint
  import opened PbSchema
  import opened PbDecoding

  /** n bits: one for each number from base on, lowest first, set if the number has
      been seen. */
  function Mask(seen: set<nat>, base: nat, n: nat): (m: nat)
    ensures m < Shl(1, n)
    decreases n, seen, 1
  {
    if n == 0 then 0 else MaskFrom(seen, base, n)
  }

  /** The same, for at least one bit. */
  function MaskFrom(seen: set<nat>, base: nat, n: nat): (m: nat)
    requires n > 0
    ensures m < Shl(1, n)
    decreases n, seen, 0
  {
    (if base in seen then 1 else 0) + 2 * Mask(seen, base + 1, n - 1)
  }

  /** Numbers outside the range have no bit. */
  lemma {:induction false} OtherBits(seen: set<nat>, x: nat, base: nat, n: nat)
    requires x < base || base + n <= x
    ensures Mask(seen + {x}, base, n) == Mask(seen, base, n)
    decreases n
  {
    if n > 0 { OtherBits(seen, x, base + 1, n - 1); }
  }

  lemma {:induction false} OrZero(a: nat)
    ensures Or(a, 0) == a && Or(0, a) == a
  {
  }

  lemma {:induction false} OrEven(a: nat, x: nat)
    ensures Or(a, 2 * x) == a % 2 + 2 * Or(a / 2, x)
  {
    OrZero(a / 2);
    if a > 0 && x > 0 { assert 2 * x / 2 == x && 2 * x % 2 == 0; }
  }

  lemma {:induction false} OrLowest(seen: set<nat>, base: nat, n: nat)
    requires 0 < n
    ensures Or(Mask(seen, base, n), Shl(1, 0)) == Mask(seen + {base + 0}, base, n)
  {
    var m, above := Mask(seen, base, n), Mask(seen, base + 1, n - 1);
    OtherBits(seen, base, base + 1, n - 1);
    OrZero(above);
    assert m == MaskFrom(seen, base, n) && m / 2 == above;
  }

  /** Setting a bit adds its number to the set. */
  lemma {:induction false} OrBit(seen: set<nat>, base: nat, n: nat, k: nat)
    requires k < n
    ensures Or(Mask(seen, base, n), Shl(1, k)) == Mask(seen + {base + k}, base, n)
    decreases n
  {
    if k == 0 {
      OrLowest(seen, base, n);
    } else {
      var m, above := Mask(seen, base, n), Mask(seen, base + 1, n - 1);
      OrEven(m, Shl(1, k - 1));
      assert m == MaskFrom(seen, base, n) && m / 2 == above;
      OrBit(seen, base + 1, n - 1, k - 1);
      assert base + 1 + (k - 1) == base + k;
    }
  }

  lemma {:induction false} FullMask(seen: set<nat>, base: nat, n: nat)
    ensures Mask(seen, base, n) == Shl(1, n) - 1 <==> forall j :: base <= j < base + n ==> j in seen
    decreases n
  {
    if n > 0 { FullMask(seen, base + 1, n - 1); }
  }

  lemma {:induction false} EmptyMask(base: nat, n: nat)
    ensures Mask({}, base, n) == 0
    decreases n
  {
    if n > 0 { EmptyMask(base + 1, n - 1); }
  }

  lemma {:induction false} ShortMask(seen: set<nat>, base: nat, k: nat, n: nat)
    requires k <= n && forall j :: base + k <= j < base + n ==> j !in seen
    ensures Mask(seen, base, n) == Mask(seen, base, k)
    decreases n
  {
    if k > 0 { ShortMask(seen, base + 1, k - 1, n - 1); }
    else if n > 0 { ShortMask(seen, base + 1, 0, n - 1); }
  }

  /** a >> n. */
  function Shr(a: nat, n: nat): nat { if n == 0 then a else Shr(a / 2, n - 1) }

  lemma {:induction false} ShiftedOnes(a: nat, b: nat)
    ensures Shr(Shl(1, a + b) - 1, b) == Shl(1, a) - 1
    decreases b
  {
    if b > 0 {
      assert (Shl(1, a + b) - 1) / 2 == Shl(1, a + (b - 1)) - 1;
      ShiftedOnes(a, b - 1);
    }
  }

  const ALL_BITS := TWO32 - 1

  lemma {:induction false} AllBits(n: nat)
    requires n <= 32
    ensures Shl(1, 32) - 1 == ALL_BITS && Shr(ALL_BITS, 32 - n) == Shl(1, n) - 1
  {
    SmallShifts(1);
    assert Shl(1, 29) == 2 * Shl(1, 28) && Shl(1, 30) == 2 * Shl(1, 29) && Shl(1, 31) == 2 * Shl(1, 30);
    assert n + (32 - n) == 32;
    ShiftedOnes(n, 32 - n);
  }

  lemma {:induction false} RequiredGrows(fields: seq<Field>, i: nat, j: nat)
    requires i < j <= |fields| && fields[i].htype.Required?
    ensures RequiredBefore(fields, i) < RequiredBefore(fields, j)
    decreases j
  {
    if i + 1 < j { RequiredGrows(fields, i, j - 1); }
  }

  /** Every number below the count belongs to a required field. */
  lemma {:induction false} Numbered(fields: seq<Field>, number: nat, n: nat) returns (i: nat)
    requires n <= |fields| && number < RequiredBefore(fields, n)
    ensures i < n && fields[i].htype.Required? && RequiredBefore(fields, i) == number
    decreases n
  {
    if RequiredBefore(fields, n - 1) == number { i := n - 1; } else { i := Numbered(fields, number, n - 1); }
  }

  /** How many required fields are tracked. */
  function TrackedCount(fields: seq<Field>): nat {
    var n := RequiredBefore(fields, |fields|);
    if n > MAX_REQUIRED then MAX_REQUIRED else n
  }

  /** All tracked fields have been seen exactly if all their numbers have. */
  lemma {:induction false} SeenByNumber(fields: seq<Field>, seen: set<nat>)
    ensures AllSeen(fields, seen) <==> forall j :: 0 <= j < TrackedCount(fields) ==> j in seen
  {
    if AllSeen(fields, seen) {
      forall j | 0 <= j < TrackedCount(fields) ensures j in seen {
        var i := Numbered(fields, j, |fields|);
        assert Tracked(fields, i);
      }
    }
    if forall j :: 0 <= j < TrackedCount(fields) ==> j in seen {
      forall i | 0 <= i < |fields| && Tracked(fields, i) ensures RequiredBefore(fields, i) in seen {
        RequiredGrows(fields, i, |fields|);
      }
    }
  }

  /** The words hold the bits of a set of numbers below a bound. */
  ghost predicate Holds(words: array<nat>, seen: set<nat>, count: nat)
    reads words
  {
    && words.Length == 2 && words[0] == Mask(seen, 0, 32) && words[1] == Mask(seen, 32, 32)
    && forall j :: j in seen ==> j < count
  }

  method NothingSeen(ghost count: nat) returns (words: array<nat>)
    ensures fresh(words) && Holds(words, {}, count)
  {
    words := new nat[2][0, 0];
    EmptyMask(0, 32);
    EmptyMask(32, 32);
  }

  /** The check at the end of pb_decode_noinit: whole words, then the remaining bits. */
  method CheckSeen(words: array<nat>, count: nat, ghost seen: set<nat>) returns (ok: bool)
    requires Holds(words, seen, count) && count <= MAX_REQUIRED
    ensures ok <==> forall j :: 0 <= j < count ==> j in seen
  {
    var i := 0;
    AllBits(32);
    FullMask(seen, 0, 32);
    FullMask(seen, 32, 32);
    while i < count / 32
      invariant i <= count / 32
      invariant forall j :: 0 <= j < 32 * i ==> j in seen
    {
      if words[i] != ALL_BITS { return false; }
      i := i + 1;
    }
    var others := count % 32;
    if others != 0 {
      AllBits(others);
      ShortMask(seen, 32 * i, others, 32);
      FullMask(seen, 32 * i, others);
      if words[i] != Shr(ALL_BITS, 32 - others) { return false; }
    }
    return true;
  }

  /** The fields that a run of the decoding loop decodes. */
  function FieldsRead(fields: seq<Field>, slots: seq<Slot>, s: seq<byte>): set<nat>
    requires |fields| == |slots|
    decreases |s|
  {
    var t := DecodeVarint32(s);
    if s == [] || t.None? || t.value.value == 0 then {}
    else
      var found := Find(fields, t.value.value / 8);
      if found.None? then
        var rest := Skip(t.value.rest, t.value.value % 8);
        if rest.None? then {} else FieldsRead(fields, slots, rest.value)
      else
        var r := DecodeField(fields, slots, found.value, t.value.value % 8, t.value.rest);
        if r.None? then {} else {found.value} + FieldsRead(fields, r.value.value, r.value.rest)
  }

  lemma {:induction false} SameNumber(fields: seq<Field>, i: nat, j: nat)
    requires i < |fields| && j < |fields| && fields[i].htype.Required? && fields[j].htype.Required?
    requires RequiredBefore(fields, i) == RequiredBefore(fields, j)
    ensures i == j
  {
    if i < j { RequiredGrows(fields, i, j); } else if j < i { RequiredGrows(fields, j, i); }
  }

  lemma {:induction false} SeeOne(fields: seq<Field>, seen: set<nat>, found: nat, i: nat)
    requires found < |fields| && i < |fields| && Tracked(fields, i)
    ensures RequiredBefore(fields, i) in See(fields, seen, found) <==> RequiredBefore(fields, i) in seen || i == found
  {
    if Tracked(fields, found) && RequiredBefore(fields, found) == RequiredBefore(fields, i) {
      SameNumber(fields, found, i);
    }
  }

  lemma {:induction false} SeenIfRead(fields: seq<Field>, slots: seq<Slot>, seen: set<nat>, s: seq<byte>, i: nat)
    requires |fields| == |slots| && i < |fields| && Tracked(fields, i) && DecodeLoop(fields, slots, seen, s).Some?
    ensures RequiredBefore(fields, i) in DecodeLoop(fields, slots, seen, s).value.seen
            <==> RequiredBefore(fields, i) in seen || i in FieldsRead(fields, slots, s)
    decreases |s|
  {
    if s != [] {
      var t := DecodeVarint32(s).value;
      if t.value != 0 {
        var found := Find(fields, t.value / 8);
        if found.None? {
          SeenIfRead(fields, slots, seen, Skip(t.rest, t.value % 8).value, i);
        } else {
          var r := DecodeField(fields, slots, found.value, t.value % 8, t.rest).value;
          SeeOne(fields, seen, found.value, i);
          SeenIfRead(fields, r.value, See(fields, seen, found.value), r.rest, i);
        }
      }
    }
  }

  /** Decoding succeeds exactly if nothing in the input is in error and each of the
      first 64 required fields is in it. */
  lemma {:induction false} RequiredFields(fields: seq<Field>, slots: seq<Slot>, s: seq<byte>)
    requires |fields| == |slots|
    ensures DecodeInto(fields, slots, s).Some?
            <==> DecodeLoop(fields, slots, {}, s).Some?
                 && forall i :: 0 <= i < |fields| && Tracked(fields, i) ==> i in FieldsRead(fields, slots, s)
  {
    if DecodeLoop(fields, slots, {}, s).Some? {
      forall i | 0 <= i < |fields| && Tracked(fields, i)
        ensures RequiredBefore(fields, i) in DecodeLoop(fields, slots, {}, s).value.seen
                <==> i in FieldsRead(fields, slots, s)
      {
        SeenIfRead(fields, slots, {}, s, i);
      }
    }
  }

  /** With at most 64 required fields, a message that is decoded has every one of them. */
  lemma {:induction false} AllRequiredRead(fields: seq<Field>, slots: seq<Slot>, s: seq<byte>, i: nat)
    requires |fields| == |slots| && RequiredBefore(fields, |fields|) <= 64 && i < |fields| && fields[i].htype.Required?
    requires DecodeInto(fields, slots, s).Some?
    ensures i in FieldsRead(fields, slots, s)
  {
    RequiredGrows(fields, i, |fields|);
    RequiredFields(fields, slots, s);
    assert Tracked(fields, i);
  }
}
