/** Base-128 varints of the Protocol Buffers wire format: the encoders, the 64-bit
    and the 32-bit decoder, zigzag, and the encoder for negative numbers without
    64-bit integers. */
module PbVarint {
  import opened Options
  import opened Bytes

  /** A decoded value and the input after it. */
  datatype Read<T> = Read(value: T, rest: seq<byte>)

  const TWO32 := 0x1_0000_0000
  const TWO63 := 0x8000_0000_0000_0000
  const TWO64 := 0x1_0000_0000_0000_0000

  /** d << n, without a width. */
  function Shl(d: nat, n: nat): (r: nat)
    ensures r >= d && (d == 0 ==> r == 0)
  {
    if n == 0 then d else 2 * Shl(d, n - 1)
  }

  /** Bitwise or. */
  function Or(a: nat, b: nat): nat
    decreases a + b
  {
    if a == 0 then b else if b == 0 then a
    else (if a % 2 == 1 || b % 2 == 1 then 1 else 0) + 2 * Or(a / 2, b / 2)
  }

  lemma {:induction false} ShlSum(a: nat, b: nat, n: nat)
    ensures Shl(a + b, n) == Shl(a, n) + Shl(b, n)
  {
    if n > 0 { ShlSum(a, b, n - 1); }
  }

  lemma {:induction false} Shl128(d: nat, n: nat)
    ensures Shl(128 * d, n) == 128 * Shl(d, n)
  {
    if n > 0 { Shl128(d, n - 1); }
  }

  lemma {:induction false} ShlLess(a: nat, b: nat, n: nat)
    requires a < b
    ensures Shl(a, n) < Shl(b, n)
  {
    if n > 0 { ShlLess(a, b, n - 1); }
  }

  lemma {:induction false} ShlSeven(d: nat, n: nat)
    ensures Shl(d, n + 7) == 128 * Shl(d, n)
  {
    assert Shl(d, n + 1) == 2 * Shl(d, n) && Shl(d, n + 2) == 2 * Shl(d, n + 1) && Shl(d, n + 3) == 2 * Shl(d, n + 2);
    assert Shl(d, n + 4) == 2 * Shl(d, n + 3) && Shl(d, n + 5) == 2 * Shl(d, n + 4);
    assert Shl(d, n + 6) == 2 * Shl(d, n + 5);
  }

  lemma {:induction false} SmallShifts(d: nat)
    ensures Shl(d, 7) == 0x80 * d && Shl(d, 14) == 0x4000 * d && Shl(d, 21) == 0x20_0000 * d
    ensures Shl(d, 28) == 0x1000_0000 * d && Shl(d, 35) == 0x8_0000_0000 * d
  {
    ShlSeven(d, 0);
    ShlSeven(d, 7);
    ShlSeven(d, 14);
    ShlSeven(d, 21);
    ShlSeven(d, 28);
  }

  /** A number at a weight is its lowest digit there and the others seven bits up. */
  lemma {:induction false} Digits(w: nat, n: nat)
    ensures Shl(w, n) == Shl(w % 128, n) + Shl(w / 128, n + 7)
  {
    ShlSum(w % 128, 128 * (w / 128), n);
    Shl128(w / 128, n);
    ShlSeven(w / 128, n);
  }

  /** Bits that do not meet are added. */
  lemma {:induction false} OrDisjoint(a: nat, b: nat, n: nat)
    requires a < Shl(1, n)
    ensures Or(a, Shl(b, n)) == a + Shl(b, n)
    decreases n
  {
    if n > 0 && a > 0 && b > 0 { OrDisjoint(a / 2, b, n - 1); }
  }

  /** Adding a digit keeps a number below the next weight. */
  lemma {:induction false} NextDigit(sofar: nat, d: nat, n: nat)
    requires sofar < Shl(1, n) && d < 128
    ensures sofar + Shl(d, n) < Shl(1, n + 7)
  {
    ShlSeven(1, n);
    Shl128(1, n);
    ShlSum(d, 1, n);
    if d < 127 { ShlLess(d + 1, 128, n); }
  }

  /** pb_encode_varint. */
  function EncodeVarint(v: nat): (s: seq<byte>)
    ensures |s| > 0
  {
    if v < 128 then [v] else [v % 128 + 128] + EncodeVarint(v / 128)
  }

  /** The first byte of a varint and the others. */
  lemma {:induction false} FirstByte(w: nat, rest: seq<byte>)
    ensures
      var s := EncodeVarint(w) + rest;
      if w < 128 then s[0] == w && s[1..] == rest
      else s[0] == w % 128 + 128 && s[1..] == EncodeVarint(w / 128) + rest
  {
    var s := EncodeVarint(w) + rest;
    if w < 128 { assert s[1..] == rest; } else { assert s[1..] == EncodeVarint(w / 128) + rest; }
  }

  /** pb_decode_varint from bit 7 * k on: at most ten bytes, and what exceeds 64 bits
      is lost. */
  function DecodeFrom(s: seq<byte>, k: nat, sofar: nat): (r: Option<Read<nat>>)
    ensures r.Some? ==> r.value.value < TWO64 && |r.value.rest| < |s|
    decreases |s|
  {
    if k >= 10 || s == [] then None
    else
      var now := sofar + Shl(s[0] % 128, 7 * k);
      if s[0] >= 128 then DecodeFrom(s[1..], k + 1, now) else Some(Read(now % TWO64, s[1..]))
  }

  function DecodeVarint(s: seq<byte>): (r: Option<Read<nat>>)
    ensures r.Some? ==> r.value.value < TWO64 && |r.value.rest| < |s|
  {
    DecodeFrom(s, 0, 0)
  }

  lemma {:induction false} VarintLength(v: nat, n: nat)
    requires n > 0 && v < Shl(1, 7 * n)
    ensures |EncodeVarint(v)| <= n
    decreases n
  {
    if v >= 128 {
      SmallShifts(1);
      ShlSeven(1, 7 * (n - 1));
      VarintLength(v / 128, n - 1);
    }
  }

  lemma {:induction false} DecodesFirst(v: nat, rest: seq<byte>, k: nat, sofar: nat)
    requires k < 10 && v >= 128
    ensures DecodeFrom(EncodeVarint(v) + rest, k, sofar)
            == DecodeFrom(EncodeVarint(v / 128) + rest, k + 1, sofar + Shl(v % 128, 7 * k))
  {
    FirstByte(v, rest);
  }

  lemma {:induction false} DecodesFrom(v: nat, rest: seq<byte>, k: nat, sofar: nat)
    requires k + |EncodeVarint(v)| <= 10
    ensures DecodeFrom(EncodeVarint(v) + rest, k, sofar) == Some(Read((sofar + Shl(v, 7 * k)) % TWO64, rest))
    decreases v
  {
    if v < 128 {
      FirstByte(v, rest);
    } else {
      DecodesFirst(v, rest, k, sofar);
      Digits(v, 7 * k);
      DecodesFrom(v / 128, rest, k + 1, sofar + Shl(v % 128, 7 * k));
    }
  }

  lemma {:induction false} SeventyBits()
    ensures Shl(1, 70) == 64 * TWO64
  {
    SmallShifts(1);
    ShlSeven(1, 35);
    ShlSeven(1, 42);
    ShlSeven(1, 49);
    ShlSeven(1, 56);
    ShlSeven(1, 63);
  }

  /** Every 64-bit value takes at most ten bytes and is read back, whatever follows. */
  lemma {:induction false} VarintRoundTrip(v: nat, rest: seq<byte>)
    requires v < TWO64
    ensures |EncodeVarint(v)| <= 10
    ensures DecodeVarint(EncodeVarint(v) + rest) == Some(Read(v, rest))
  {
    SeventyBits();
    VarintLength(v, 10);
    DecodesFrom(v, rest, 0, 0);
  }

  /** A varint that goes on past its first byte, in pb_decode_varint32_eof: the bit
      position is an 8-bit counter, bits from 32 on must be zero or repeat the
      sign, and a byte at position 28 that is not the last loses three bits. */
  function DecodeMore32(s: seq<byte>, bitpos: nat, sofar: nat): (r: Option<Read<nat>>)
    requires sofar < TWO32 && bitpos < 256
    ensures r.Some? ==> r.value.value < TWO32 && |r.value.rest| < |s|
    decreases |s|
  {
    if s == [] then None
    else
      var b, low := s[0], s[0] % 128;
      if bitpos >= 32 && low != 0 && (sofar < TWO32 / 2 || b != (if bitpos < 63 then 0xff else 0x01)) then None
      else
        var now := if bitpos >= 32 then sofar else Or(sofar, Shl(low, bitpos)) % TWO32;
        var next := (bitpos + 7) % 256;
        if b >= 128 then DecodeMore32(s[1..], next, now)
        else if next == 35 && low >= 16 then None
        else Some(Read(now, s[1..]))
  }

  /** pb_decode_varint32. */
  function DecodeVarint32(s: seq<byte>): (r: Option<Read<nat>>)
    ensures r.Some? ==> r.value.value < TWO32 && |r.value.rest| < |s|
  {
    if s == [] then None
    else if s[0] < 128 then Some(Read(s[0], s[1..]))
    else DecodeMore32(s[1..], 7, s[0] % 128)
  }

  /** One byte of the 32-bit decoder below bit 32. */
  lemma {:induction false} ByteLow(s: seq<byte>, n: nat, sofar: nat, d: nat, now: nat)
    requires n < 32 && sofar < Shl(1, n) && sofar < TWO32 && s != []
    requires d == s[0] % 128 && now == (sofar + Shl(d, n)) % TWO32
    ensures DecodeMore32(s, n, sofar)
            == if s[0] >= 128 then DecodeMore32(s[1..], n + 7, now)
               else if n == 28 && d >= 16 then None
               else Some(Read(now, s[1..]))
  {
    OrDisjoint(sofar, d, n);
    assert now == Or(sofar, Shl(d, n)) % TWO32;
    assert (n + 7) % 256 == n + 7;
  }

  lemma {:induction false} NoWrap(a: nat)
    requires a < TWO32
    ensures a % TWO32 == a
  {
  }

  /** The 32-bit decoder accepts every canonical 32-bit value. */
  lemma {:induction false} Varint32RoundTrip(v: nat, rest: seq<byte>)
    requires v < TWO32
    ensures DecodeVarint32(EncodeVarint(v) + rest) == Some(Read(v, rest))
  {
    Varint32Exact(v, rest);
    NoWrap(v);
  }

  /** A signed number as a 64-bit word, and back. */
  function Word64(i: int): (w: nat)
    requires -TWO63 <= i < TWO63
    ensures w < TWO64
  {
    if i < 0 then i + TWO64 else i
  }

  function Signed64(w: nat): (i: int)
    requires w < TWO64
    ensures -TWO63 <= i < TWO63 && Word64(i) == w
  {
    if w < TWO63 then w else w - TWO64
  }

  /** The digits of a negative number from bit 35 on are all ones. */
  lemma {:induction false} SignDigits(v: nat, w: nat, w2: nat, w3: nat, w4: nat, w5: nat)
    requires TWO64 - TWO32 / 2 <= v < TWO64
    requires w == v / 128 && w2 == w / 128 && w3 == w2 / 128 && w4 == w3 / 128 && w5 == w4 / 128
    ensures w5 == 0x1fff_ffff
  {
    assert 0x1ff_ffff_ff00_0000 <= w < 0x200_0000_0000_0000;
    assert 0x3_ffff_fffe_0000 <= w2 < 0x4_0000_0000_0000;
    assert 0x7ff_ffff_fc00 <= w3 < 0x800_0000_0000;
    assert 0xf_ffff_fff8 <= w4 < 0x10_0000_0000;
  }

  lemma {:induction false} OnesDigit(j: nat)
    requires j < 4
    ensures Digit(0x1fff_ffff, j) == 127
  {
    assert Digit(0x1fff_ffff, 1) == Digit(0x3f_ffff, 0);
    assert Digit(0x1fff_ffff, 2) == Digit(0x3f_ffff, 1) == Digit(0x7fff, 0);
    assert Digit(0x1fff_ffff, 3) == Digit(0x3f_ffff, 2) == Digit(0x7fff, 1) == Digit(0xff, 0);
  }

  /** The 32-bit decoder accepts every negative 32-bit number in the sign-extended
      ten-byte form and yields its low 32 bits. */
  lemma {:induction false} Negative32RoundTrip(i: int, rest: seq<byte>)
    requires -TWO32 / 2 <= i < 0
    ensures DecodeVarint32(EncodeVarint(Word64(i)) + rest) == Some(Read(i + TWO32, rest))
  {
    var v := Word64(i);
    var w := v / 128;
    var w2 := w / 128;
    var w3 := w2 / 128;
    var w4 := w3 / 128;
    var w5 := w4 / 128;
    SignDigits(v, w, w2, w3, w4, w5);
    forall j | 5 <= j < 9 ensures Digit(v, j) == 127 {
      assert Digit(v, j) == Digit(w, j - 1) == Digit(w2, j - 2) == Digit(w3, j - 3) == Digit(w4, j - 4)
             == Digit(w5, j - 5);
      OnesDigit(j - 5);
    }
    WholeMultiple(i + TWO32, TWO32 - 1);
    NoWrap(i + TWO32);
    Varint32Exact(v, rest);
  }

  lemma {:induction false} WholeMultiple(a: nat, m: nat)
    ensures (a + TWO32 * m) % TWO32 == a % TWO32
  {
  }

  /** From bit 32 on a shifted digit is a multiple of 2^32. */
  lemma {:induction false} HighDigit(d: nat, n: nat) returns (m: nat)
    requires n >= 32
    ensures Shl(d, n) == TWO32 * m
  {
    if n == 32 {
      SmallShifts(d);
      assert Shl(d, 29) == 2 * Shl(d, 28) && Shl(d, 30) == 2 * Shl(d, 29) && Shl(d, 31) == 2 * Shl(d, 30);
      m := d;
    } else {
      var h := HighDigit(d, n - 1);
      m := 2 * h;
    }
  }

  lemma {:induction false} Low32(n: nat)
    ensures n % TWO64 % TWO32 == n % TWO32
  {
    WholeMultiple(n % TWO64, n / TWO64 * TWO32);
  }

  /** What a varint that ends at byte n must be for the 32-bit decoder, if its first
      byte here is byte k of the whole: four bits in a fifth byte that is the last,
      and from the sixth byte on zeros, or for a negative number the sign. */
  predicate Narrow(s: seq<byte>, k: nat, n: nat, negative: bool)
    requires n < |s|
  {
    (k + n == 4 ==> s[n] < 16) && forall j :: 0 <= j <= n ==> Extends(s[j], k + j, negative)
  }

  predicate Extends(b: byte, k: nat, negative: bool) {
    k >= 5 ==> b % 128 == 0 || (negative && b == (if k < 9 then 0xff else 0x01))
  }

  lemma {:induction false} NarrowFirst(s: seq<byte>, k: nat, n: nat, negative: bool)
    requires 0 < n < |s|
    ensures Narrow(s, k, n, negative) <==> Extends(s[0], k, negative) && Narrow(s[1..], k + 1, n - 1, negative)
  {
    if Extends(s[0], k, negative) && Narrow(s[1..], k + 1, n - 1, negative) {
      forall j | 0 <= j <= n ensures Extends(s[j], k + j, negative) {
        if j > 0 { assert s[j] == s[1..][j - 1]; }
      }
    }
  }

  /** One byte of the 32-bit decoder beside the 64-bit one, before bit 32. */
  lemma {:induction false} LowByte(s: seq<byte>, k: nat, sofar: nat, now: nat)
    requires 1 <= k < 5 && sofar < Shl(1, 7 * k) && s != [] && now == sofar + Shl(s[0] % 128, 7 * k)
    ensures DecodeMore32(s, 7 * k, sofar % TWO32)
            == if s[0] >= 128 then DecodeMore32(s[1..], 7 * k + 7, now % TWO32)
               else if k == 4 && s[0] >= 16 then None
               else Some(Read(now % TWO32, s[1..]))
  {
    assert sofar < TWO32 by { SmallShifts(1); }
    NoWrap(sofar);
    assert 7 * k < 32 && (7 * k + 7 == 35 <==> k == 4);
    ByteLow(s, 7 * k, sofar, s[0] % 128, now % TWO32);
  }

  /** The same from bit 32 on: what is added is a multiple of 2^32. */
  lemma {:induction false} HighByte(s: seq<byte>, k: nat, sofar: nat, now: nat)
    requires 5 <= k < 10 && s != [] && now == sofar + Shl(s[0] % 128, 7 * k)
    ensures now % TWO32 == sofar % TWO32
    ensures DecodeMore32(s, 7 * k, sofar % TWO32)
            == if !Extends(s[0], k, sofar % TWO32 >= TWO32 / 2) then None
               else if s[0] >= 128 then DecodeMore32(s[1..], 7 * k + 7, now % TWO32)
               else Some(Read(now % TWO32, s[1..]))
  {
    var m := HighDigit(s[0] % 128, 7 * k);
    WholeMultiple(sofar, m);
  }

  /** One byte of the 64-bit decoder. */
  lemma {:induction false} LongByte(s: seq<byte>, k: nat, sofar: nat, v: nat, n: nat) returns (now: nat)
    requires k <= 10 && n < |s| && DecodeFrom(s, k, sofar) == Some(Read(v, s[n + 1..]))
    ensures k < 10 && now == sofar + Shl(s[0] % 128, 7 * k)
    ensures if s[0] < 128 then n == 0 && v == now % TWO64
            else n > 0 && DecodeFrom(s[1..], k + 1, now) == Some(Read(v, s[1..][n..]))
  {
    now := sofar + Shl(s[0] % 128, 7 * k);
    if s[0] < 128 {
      assert |s[1..]| == |s[n + 1..]|;
    } else {
      assert DecodeFrom(s[1..], k + 1, now) == Some(Read(v, s[n + 1..]));
      assert s[1..][n..] == s[n + 1..];
    }
  }

  lemma {:induction false} LowKept(s: seq<byte>, k: nat, sofar: nat, v: nat, n: nat)
    requires 5 <= k <= 10 && n < |s| && DecodeFrom(s, k, sofar) == Some(Read(v, s[n + 1..]))
    ensures v % TWO32 == sofar % TWO32
    decreases |s|
  {
    var now := LongByte(s, k, sofar, v, n);
    HighByte(s, k, sofar, now);
    if s[0] < 128 { Low32(now); } else { LowKept(s[1..], k + 1, now, v, n - 1); }
  }

  /** The two decoders side by side, from byte k on. */
  lemma {:induction false} NarrowFrom(s: seq<byte>, k: nat, sofar: nat, v: nat, n: nat)
    requires 1 <= k <= 10 && sofar < Shl(1, 7 * k) && n < |s| && DecodeFrom(s, k, sofar) == Some(Read(v, s[n + 1..]))
    ensures DecodeMore32(s, 7 * k, sofar % TWO32)
            == if Narrow(s, k, n, v % TWO32 >= TWO32 / 2) then Some(Read(v % TWO32, s[n + 1..])) else None
    decreases |s|
  {
    var now := LongByte(s, k, sofar, v, n);
    NextDigit(sofar, s[0] % 128, 7 * k);
    if k < 5 {
      LowByte(s, k, sofar, now);
    } else {
      HighByte(s, k, sofar, now);
      LowKept(s, k, sofar, v, n);
    }
    if s[0] < 128 {
      Low32(now);
    } else {
      NarrowFrom(s[1..], k + 1, now, v, n - 1);
      NarrowFirst(s, k, n, v % TWO32 >= TWO32 / 2);
      assert s[1..][n..] == s[n + 1..];
    }
  }

  /** Of the inputs that the 64-bit decoder accepts, the 32-bit one accepts exactly
      the narrow ones; it takes the same bytes, and its value is the other's modulo
      2^32. */
  lemma {:induction false} DecodersAgree(s: seq<byte>, v: nat, n: nat)
    requires n < |s| && DecodeVarint(s) == Some(Read(v, s[n + 1..]))
    ensures DecodeVarint32(s)
            == if Narrow(s, 0, n, v % TWO32 >= TWO32 / 2) then Some(Read(v % TWO32, s[n + 1..])) else None
  {
    var now := LongByte(s, 0, 0, v, n);
    assert Shl(s[0] % 128, 0) == s[0] % 128;
    if s[0] >= 128 {
      assert now < Shl(1, 7) by { SmallShifts(1); }
      NoWrap(now);
      NarrowFrom(s[1..], 1, now, v, n - 1);
      NarrowFirst(s, 0, n, v % TWO32 >= TWO32 / 2);
      assert s[1..][n..] == s[n + 1..];
    }
  }

  /** Digit j of a number to the base 128, lowest first. */
  function Digit(v: nat, j: nat): nat { if j == 0 then v % 128 else Digit(v / 128, j - 1) }

  /** Byte j of a canonical varint, and its length. */
  lemma {:induction false} ByteOfVarint(v: nat, rest: seq<byte>, j: nat)
    requires j < |EncodeVarint(v)|
    ensures (EncodeVarint(v) + rest)[j] == Digit(v, j) + (if j + 1 < |EncodeVarint(v)| then 128 else 0)
    ensures j + 1 == |EncodeVarint(v)| && v > 0 ==> Digit(v, j) > 0
    decreases v
  {
    FirstByte(v, rest);
    if v >= 128 && j > 0 { ByteOfVarint(v / 128, rest, j - 1); }
  }

  lemma {:induction false} LengthAtLeast(v: nat, n: nat)
    requires v >= Shl(1, 7 * n)
    ensures |EncodeVarint(v)| > n
    decreases n
  {
    if n > 0 {
      SmallShifts(1);
      ShlSeven(1, 7 * (n - 1));
      assert Shl(1, 7 * (n - 1)) >= 1;
      LengthAtLeast(v / 128, n - 1);
    }
  }

  /** Each seven bits from bit 35 up to bit 62 are equal. */
  predicate EvenDigits(v: nat) { forall j :: 5 <= j < 9 ==> Digit(v, j) == 0 || Digit(v, j) == 127 }

  /** A canonical value that the 32-bit decoder accepts although it has more bits:
      bits 31 and 63 are set, and each seven bits between bits 35 and 62 are equal. */
  predicate Reduces(v: nat) { v >= TWO63 && v % TWO32 >= TWO32 / 2 && EvenDigits(v) }

  lemma {:induction false} Lengths(v: nat)
    requires v < TWO64
    ensures v < TWO32 ==> |EncodeVarint(v)| <= 5
    ensures |EncodeVarint(v)| <= 10
    ensures v < 0x8_0000_0000 <==> |EncodeVarint(v)| <= 5
    ensures v < 0x1000_0000 <==> |EncodeVarint(v)| <= 4
    ensures v < TWO63 <==> |EncodeVarint(v)| <= 9
  {
    SmallShifts(1);
    SeventyBits();
    VarintLength(v, 10);
    if v < 0x8_0000_0000 { VarintLength(v, 5); } else { LengthAtLeast(v, 5); }
    if v < 0x1000_0000 { VarintLength(v, 4); } else { LengthAtLeast(v, 4); }
    ShlSeven(1, 63);
    if v < TWO63 { VarintLength(v, 9); } else { LengthAtLeast(v, 9); }
  }

  lemma {:induction false} FifthDigit(v: nat)
    requires v < 0x8_0000_0000
    ensures Digit(v, 4) < 16 <==> v < TWO32
  {
    var a := v / 128;
    var b := a / 128;
    var c := b / 128;
    var d := c / 128;
    assert Digit(v, 4) == Digit(a, 3) == Digit(b, 2) == Digit(c, 1) == Digit(d, 0) == d % 128;
  }

  lemma {:induction false} NarrowVarint(v: nat, rest: seq<byte>, n: nat)
    requires v < TWO64 && n + 1 == |EncodeVarint(v)|
    ensures Narrow(EncodeVarint(v) + rest, 0, n, v % TWO32 >= TWO32 / 2) <==> v < TWO32 || Reduces(v)
  {
    var s := EncodeVarint(v) + rest;
    Lengths(v);
    if n < 5 {
      if n == 4 {
        ByteOfVarint(v, rest, 4);
        FifthDigit(v);
      }
    } else if n < 9 {
      ByteOfVarint(v, rest, n);
      DigitBound(v, n);
      assert !Extends(s[n], n, v % TWO32 >= TWO32 / 2);
    } else {
      NarrowTenBytes(v, s, rest, v % TWO32 >= TWO32 / 2);
    }
  }

  lemma {:induction false} NarrowTenBytes(v: nat, s: seq<byte>, rest: seq<byte>, negative: bool)
    requires v < TWO64 && |EncodeVarint(v)| == 10 && s == EncodeVarint(v) + rest
    ensures Narrow(s, 0, 9, negative) <==> negative && EvenDigits(v)
  {
    Lengths(v);
    ByteOfVarint(v, rest, 9);
    NinthDigit(v);
    assert Extends(s[9], 9, negative) <==> negative;
    forall j | 5 <= j < 9
      ensures Extends(s[j], j, negative) <==> Digit(v, j) == 0 || (negative && Digit(v, j) == 127)
    {
      ByteOfVarint(v, rest, j);
      DigitBound(v, j);
    }
    if Narrow(s, 0, 9, negative) {
      forall j | 5 <= j < 9 ensures Digit(v, j) == 0 || Digit(v, j) == 127 { assert Extends(s[j], j, negative); }
    }
  }

  lemma {:induction false} DigitBound(v: nat, j: nat)
    ensures Digit(v, j) < 128
  {
    if j > 0 { DigitBound(v / 128, j - 1); }
  }

  lemma {:induction false} NinthDigit(v: nat)
    requires v < TWO64
    ensures Digit(v, 9) < 2
  {
    var a := v / 128;
    var b := a / 128;
    var c := b / 128;
    var d := c / 128;
    var e := d / 128;
    assert Digit(v, 9) == Digit(a, 8) == Digit(b, 7) == Digit(c, 6) == Digit(d, 5) == Digit(e, 4);
    assert e < 0x2000_0000;
    FifthDigit(e);
    var f := e / 128;
    var g := f / 128;
    var h := g / 128;
    assert Digit(e, 4) == Digit(f, 3) == Digit(g, 2) == Digit(h, 1) == Digit(h / 128, 0) == h / 128 % 128;
  }

  /** What the 32-bit decoder makes of a canonical 64-bit varint. */
  lemma {:induction false} Varint32Exact(v: nat, rest: seq<byte>)
    requires v < TWO64
    ensures DecodeVarint32(EncodeVarint(v) + rest)
            == if v < TWO32 || Reduces(v) then Some(Read(v % TWO32, rest)) else None
  {
    var s, n := EncodeVarint(v) + rest, |EncodeVarint(v)| - 1;
    VarintRoundTrip(v, rest);
    assert s[n + 1..] == rest;
    DecodersAgree(s, v, n);
    NarrowVarint(v, rest, n);
  }

  /** The digits of a varint that ends at byte n, from byte k of the whole on: all
      zero from the sixth on, or all the sign of a negative 64-bit number. */
  predicate NoHighDigits(s: seq<byte>, k: nat, n: nat)
    requires n < |s|
  {
    forall j :: 0 <= j <= n && k + j >= 5 ==> s[j] % 128 == 0
  }

  predicate SignDigitsOnly(s: seq<byte>, k: nat, n: nat)
    requires n < |s|
  {
    k + n == 9 && forall j :: 0 <= j <= n && k + j >= 5 ==> s[j] == if k + j < 9 then 0xff else 0x01
  }

  lemma {:induction false} DigitsFirst(s: seq<byte>, k: nat, n: nat)
    requires 0 < n < |s|
    ensures NoHighDigits(s, k, n) <==> (k >= 5 ==> s[0] % 128 == 0) && NoHighDigits(s[1..], k + 1, n - 1)
    ensures SignDigitsOnly(s, k, n)
            <==> (k >= 5 ==> s[0] == if k < 9 then 0xff else 0x01) && SignDigitsOnly(s[1..], k + 1, n - 1)
  {
    assert forall j :: 0 < j <= n ==> s[j] == s[1..][j - 1];
    assert forall j :: 0 <= j < n ==> s[1..][j] == s[j + 1];
  }

  lemma {:induction false} Weights(k: nat)
    requires 5 <= k < 10
    ensures 0x8_0000_0000 <= Shl(1, 7 * k) <= TWO63
    ensures k == 9 ==> Shl(1, 7 * k) == TWO63
    ensures k < 9 ==> Shl(1, 7 * k) <= TWO63 / 128
  {
    SmallShifts(1);
    ShlSeven(1, 35);
    ShlSeven(1, 42);
    ShlSeven(1, 49);
    ShlSeven(1, 56);
  }

  /** A narrow byte has a digit of zeros or of the sign. */
  lemma {:induction false} HighWeights(b: byte, k: nat, negative: bool, w: nat)
    requires 5 <= k < 10 && Extends(b, k, negative) && w == Shl(1, 7 * k)
    ensures Shl(b % 128, 7 * k) == if b % 128 == 0 then 0 else if k < 9 then 127 * w else w
    ensures b % 128 == 0 || b == (if k < 9 then 0xff else 0x01)
  {
    ShlSum(127, 1, 7 * k);
    Shl128(1, 7 * k);
  }

  /** The last byte, and any other one before what the rest amounts to. */
  lemma {:induction false} HighLast(b: byte, k: nat, sofar: nat, now: nat, w: nat)
    requires 5 <= k < 10 && b < 128 && w == Shl(1, 7 * k) && sofar < w
    requires now == sofar + (if b == 0 then 0 else w) && (b == 0 || (k == 9 && b == 1))
    ensures now % TWO64 == now && (if b == 0 then now == sofar else now == sofar + w)
    ensures if k == 9 && b == 1 then now == sofar + TWO64 - w else now + 2 * w <= sofar + TWO64
  {
    Weights(k);
  }

  lemma {:induction false} HighMore(ff: bool, sofar: nat, now: nat, w: nat, v: nat, zero: bool, ones: bool)
    requires now == sofar + (if ff then 127 * w else 0) && w > 0
    requires if zero then v == now else v >= now + 128 * w
    requires if ones then v == now + TWO64 - 128 * w else v + 256 * w <= now + TWO64
    ensures if zero && !ff then v == sofar else v >= sofar + w
    ensures if ones && ff then v == sofar + TWO64 - w else v + 2 * w <= sofar + TWO64
  {
  }

  /** How far a narrow varint's digits from byte k on reach, if they weigh w. */
  lemma {:induction false} HighFrom(s: seq<byte>, k: nat, sofar: nat, v: nat, n: nat, negative: bool, w: nat)
    requires 5 <= k < 10 && sofar < w && n < |s| && DecodeFrom(s, k, sofar) == Some(Read(v, s[n + 1..]))
    requires Narrow(s, k, n, negative) && w == Shl(1, 7 * k)
    ensures if NoHighDigits(s, k, n) then v == sofar else v >= sofar + w
    ensures if SignDigitsOnly(s, k, n) then v == sofar + TWO64 - w else v + 2 * w <= sofar + TWO64
    decreases |s|
  {
    var now := LongByte(s, k, sofar, v, n);
    assert Extends(s[0], k, negative);
    HighWeights(s[0], k, negative, w);
    NextDigit(sofar, s[0] % 128, 7 * k);
    if s[0] < 128 {
      HighLast(s[0], k, sofar, now, w);
    } else {
      NarrowFirst(s, k, n, negative);
      DigitsFirst(s, k, n);
      ShlSeven(1, 7 * k);
      assert k < 9;
      HighFrom(s[1..], k + 1, now, v, n - 1, negative, 128 * w);
      HighMore(s[0] == 0xff, sofar, now, w, v, NoHighDigits(s[1..], k + 1, n - 1),
               SignDigitsOnly(s[1..], k + 1, n - 1));
    }
  }

  lemma {:induction false} LowWeight(k: nat)
    requires k <= 4
    ensures Shl(1, 7 * k) <= 0x1000_0000
  {
    SmallShifts(1);
  }

  /** The digits of a varint from byte k on up to bit 28. `t` is the input from there. */
  lemma {:induction false} LowDigits(s: seq<byte>, k: nat, sofar: nat, v: nat, n: nat, t: seq<byte>)
    returns (low: nat)
    requires k <= 4 && sofar < Shl(1, 7 * k) && n < |s| && DecodeFrom(s, k, sofar) == Some(Read(v, s[n + 1..]))
    requires k + n >= 4 ==> t == s[4 - k..]
    ensures low < 0x1000_0000
    ensures if k + n < 4 then v < 0x1000_0000 else DecodeFrom(t, 4, low) == Some(Read(v, s[n + 1..]))
    decreases |s|
  {
    if k == 4 {
      LowWeight(4);
      return sofar;
    }
    var now := LongByte(s, k, sofar, v, n);
    NextDigit(sofar, s[0] % 128, 7 * k);
    if s[0] < 128 {
      LowWeight(k + 1);
      return 0;
    }
    assert s[1..][n..] == s[n + 1..];
    assert k + n >= 4 ==> s[1..][3 - k..] == s[4 - k..];
    low := LowDigits(s[1..], k + 1, now, v, n - 1, t);
  }

  /** The digits of an accepted varint and the number it stands for: 32 bits exactly
      if the others are zeros, and a 64-bit number from -2^32 on exactly if they are
      ones. */
  lemma {:induction false} HighBits(s: seq<byte>, v: nat, n: nat, negative: bool)
    requires n < |s| && DecodeVarint(s) == Some(Read(v, s[n + 1..])) && Narrow(s, 0, n, negative)
    ensures v < TWO32 <==> (n >= 4 ==> s[4] % 128 < 16) && NoHighDigits(s, 0, n)
    ensures v >= TWO64 - TWO32 <==> SignDigitsOnly(s, 0, n) && s[4] % 128 >= 112
  {
    var t := if n >= 4 then s[4..] else [];
    var low := LowDigits(s, 0, 0, v, n, t);
    if n >= 4 {
      assert t[n - 3..] == s[n + 1..];
      var now := LongByte(t, 4, low, v, n - 4);
      SmallShifts(s[4] % 128);
      if n > 4 { HighPart(s, v, n, negative, now); }
    }
  }

  lemma {:induction false} HighPart(s: seq<byte>, v: nat, n: nat, negative: bool, now: nat)
    requires 4 < n < |s| && Narrow(s, 0, n, negative) && now < 0x8_0000_0000
    requires DecodeFrom(s[5..], 5, now) == Some(Read(v, s[n + 1..]))
    ensures if NoHighDigits(s, 0, n) then v == now else v >= now + 0x8_0000_0000
    ensures if SignDigitsOnly(s, 0, n) then v == now + TWO64 - 0x8_0000_0000 else v + 0x10_0000_0000 <= now + TWO64
  {
    var t := s[5..];
    SmallShifts(1);
    assert t[n - 4..] == s[n + 1..];
    assert forall j :: 0 <= j <= n - 5 ==> t[j] == s[j + 5];
    assert forall j :: 5 <= j <= n ==> s[j] == t[j - 5];
    HighFrom(t, 5, now, v, n - 5, negative, 0x8_0000_0000);
  }

  /** Where both decoders accept, their numbers are the same exactly if no bit from 32
      on is set, and the same as signed numbers exactly if also when all are. */
  lemma {:induction false} SameNumber(s: seq<byte>, v: nat, n: nat, short: nat)
    requires n < |s| && DecodeVarint(s) == Some(Read(v, s[n + 1..]))
    requires DecodeVarint32(s) == Some(Read(short, s[n + 1..]))
    ensures v == short <==> (n >= 4 ==> s[4] % 128 < 16) && NoHighDigits(s, 0, n)
    ensures v == short + TWO64 - TWO32 <==> SignDigitsOnly(s, 0, n) && s[4] % 128 >= 112
  {
    DecodersAgree(s, v, n);
    HighBits(s, v, n, v % TWO32 >= TWO32 / 2);
  }

  /** Two bytes that only go on. */
  lemma {:induction false} GoesOnTwice(s: seq<byte>, k: nat)
    requires |s| > 1 && s[0] == s[1] == 0x80 && k < 9
    ensures DecodeFrom(s, k, 0) == DecodeFrom(s[2..], k + 2, 0)
  {
    assert DecodeFrom(s, k, 0) == DecodeFrom(s[1..], k + 1, 0);
    assert DecodeFrom(s[1..], k + 1, 0) == DecodeFrom(s[1..][1..], k + 2, 0);
    assert s[1..][1..] == s[2..];
  }

  /** If the fifth byte is not the last, its bits 32 to 34 are dropped unchecked: here
      one decoder reads 7 * 2^32 and the other zero. */
  lemma {:induction false} BitsAreDropped(s: seq<byte>)
    requires s == [0x80, 0x80, 0x80, 0x80, 0xf0, 0x00]
    ensures DecodeVarint(s) == Some(Read(7 * TWO32, [])) && DecodeVarint32(s) == Some(Read(0, []))
  {
    GoesOnTwice(s, 0);
    GoesOnTwice(s[2..], 2);
    LastTwo(s[4..]);
    assert s[2..][2..] == s[4..] && s[6..] == [];
    DecodersAgree(s, 7 * TWO32, 5);
  }

  lemma {:induction false} LastTwo(s: seq<byte>)
    requires s == [0xf0, 0x00]
    ensures DecodeFrom(s, 4, 0) == Some(Read(7 * TWO32, []))
  {
    var now := Shl(0x70, 28);
    SmallShifts(0x70);
    assert s[1..] == [0x00] && s[1..][1..] == [];
    assert DecodeFrom(s[1..], 5, now) == Some(Read(now, []));
  }

  function Shl1(w: nat): nat { 2 * w % TWO64 }

  function Not64(w: nat): nat
    requires w < TWO64
  {
    TWO64 - 1 - w
  }

  /** The word that pb_encode_svarint sends for a signed number. */
  function Zigzag(i: int): (w: nat)
    requires -TWO63 <= i < TWO63
    ensures w < TWO64
  {
    if i < 0 then Not64(Shl1(Word64(i))) else Shl1(Word64(i))
  }

  /** What pb_decode_svarint makes of a word. */
  function Unzigzag(w: nat): (i: int)
    requires w < TWO64
    ensures -TWO63 <= i < TWO63
  {
    if w % 2 == 1 then Signed64(Not64(w / 2)) else Signed64(w / 2)
  }

  /** Zigzag is a bijection between signed and unsigned 64-bit numbers, and small
      magnitudes give small words. */
  lemma {:induction false} ZigzagRoundTrip(i: int, w: nat)
    requires -TWO63 <= i < TWO63 && w < TWO64
    ensures Unzigzag(Zigzag(i)) == i
    ensures Zigzag(Unzigzag(w)) == w
    ensures Zigzag(i) == if i < 0 then -2 * i - 1 else 2 * i
  {
    assert Shl1(Word64(i)) == if i < 0 then TWO64 + 2 * i else 2 * i;
  }

  /** The loop of pb_encode_negative_varint, on a 32-bit unsigned value of which
      `compensation` more one bits are to be supplied at the top. The shifted value
      has no bits from 25 on, so the exclusive or is an addition. */
  function NegativeBytes(value: nat, compensation: nat): (s: seq<byte>)
    requires value < TWO32 && compensation <= 32
    ensures value > 0 ==> |s| > 0 && s[|s| - 1] >= 128
    decreases compensation, value
  {
    if value == 0 then []
    else
      var bits := if compensation > 7 then 7 else compensation;
      OnesBound(bits);
      [value % 128 + 128] + NegativeBytes(Compensated(value, bits), compensation - bits)
  }

  function Compensated(value: nat, bits: nat): nat { value / 128 + (Shl(1, bits) - 1) * 0x200_0000 }

  lemma {:induction false} OnesBound(bits: nat)
    requires bits <= 7
    ensures Shl(1, bits) <= 128 && Shl(1, bits) > bits
  {
    assert Shl(1, 3) == 8;
    assert Shl(1, 6) == 64;
  }

  function Unmark(s: seq<byte>): seq<byte>
    requires |s| > 0 && s[|s| - 1] >= 128
  {
    s[..|s| - 1] + [s[|s| - 1] - 128]
  }

  lemma {:induction false} UnmarkRest(b: byte, s: seq<byte>)
    requires |s| > 0 && s[|s| - 1] >= 128
    ensures Unmark([b] + s) == [b] + Unmark(s)
  {
  }

  /** The encoder: the marks are set on all bytes, then cleared on the last. */
  function EncodeNegative(value: nat): seq<byte>
    requires 0 < value < TWO32
  {
    Unmark(NegativeBytes(value, 32))
  }

  /** The number whose low 32 bits are `value`, with `compensation` ones above. */
  function Extended(value: nat, compensation: nat): nat { value + TWO32 * (Shl(1, compensation) - 1) }

  lemma {:induction false} ExtendedShift(value: nat, compensation: nat, bits: nat)
    requires bits == (if compensation > 7 then 7 else compensation)
    ensures Extended(Compensated(value, bits), compensation - bits) == Extended(value, compensation) / 128
    ensures Extended(value, compensation) % 128 == value % 128
  {
    if compensation > 7 {
      ShlSeven(1, compensation - 7);
      SmallShifts(1);
    }
  }

  lemma {:induction false} NegativeFrom(value: nat, compensation: nat)
    requires 0 < value < TWO32 && compensation <= 32
    ensures Unmark(NegativeBytes(value, compensation)) == EncodeVarint(Extended(value, compensation))
    decreases compensation, value
  {
    var bits := if compensation > 7 then 7 else compensation;
    var next := Compensated(value, bits);
    ExtendedShift(value, compensation, bits);
    OnesBound(bits);
    var e := Extended(value, compensation);
    assert NegativeBytes(value, compensation) == [value % 128 + 128] + NegativeBytes(next, compensation - bits);
    if next > 0 {
      assert EncodeVarint(e) == [e % 128 + 128] + EncodeVarint(e / 128);
      NegativeFrom(next, compensation - bits);
      UnmarkRest(value % 128 + 128, NegativeBytes(next, compensation - bits));
    } else {
      assert compensation == 0 && NegativeBytes(0, 0) == [];
    }
  }

  /** Without 64-bit integers, a negative number is still sent in exactly its 64-bit
      sign-extended form. */
  lemma {:induction false} NegativeIsSignExtended(i: int)
    requires -TWO32 / 2 <= i < 0
    ensures EncodeNegative(i + TWO32) == EncodeVarint(Word64(i))
  {
    NegativeFrom(i + TWO32, 32);
    SmallShifts(1);
    assert Shl(1, 29) == 2 * Shl(1, 28) && Shl(1, 30) == 2 * Shl(1, 29) && Shl(1, 31) == 2 * Shl(1, 30);
  }
}
