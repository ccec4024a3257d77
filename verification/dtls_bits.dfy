/** The bytes of a reassembly mask, bit by bit. */
module DtlsBits {

  /** Bit k of a byte, lowest first. */
  predicate BitOf(x: bv8, k: nat)
    requires k < 8
  {
    if k == 0 then x & 0x01 != 0
    else if k == 1 then x & 0x02 != 0
    else if k == 2 then x & 0x04 != 0
    else if k == 3 then x & 0x08 != 0
    else if k == 4 then x & 0x10 != 0
    else if k == 5 then x & 0x20 != 0
    else if k == 6 then x & 0x40 != 0
    else x & 0x80 != 0
  }

  /** (1u << n) - 1, truncated to a byte. */
  function Ones(n: nat): bv8
    requires n <= 8
  {
    if n == 0 then 0 else (Ones(n - 1) << 1) | 1
  }

  /** bit_range. */
  function BitRange(start: nat, end: nat): bv8
    requires start <= 8 && end <= 8
  {
    !Ones(start) & Ones(end)
  }

  lemma {:induction false} OnesTable()
    ensures Ones(0) == 0x00 && Ones(1) == 0x01 && Ones(2) == 0x03 && Ones(3) == 0x07 && Ones(4) == 0x0f
    ensures Ones(5) == 0x1f && Ones(6) == 0x3f && Ones(7) == 0x7f && Ones(8) == 0xff
  {
    assert Ones(3) == 0x07;
    assert Ones(6) == 0x3f;
  }

  lemma {:induction false} OnesBits(n: nat, k: nat)
    requires n <= 8 && k < 8
    ensures BitOf(Ones(n), k) <==> k < n
  {
    OnesTable();
  }

  lemma {:induction false} BitAnd(x: bv8, y: bv8, k: nat)
    requires k < 8
    ensures BitOf(x & y, k) <==> BitOf(x, k) && BitOf(y, k)
  {
  }

  lemma {:induction false} BitOr(x: bv8, y: bv8, k: nat)
    requires k < 8
    ensures BitOf(x | y, k) <==> BitOf(x, k) || BitOf(y, k)
  {
  }

  lemma {:induction false} BitNot(x: bv8, k: nat)
    requires k < 8
    ensures BitOf(!x, k) <==> !BitOf(x, k)
  {
  }

  /** bit_range sets exactly the bits from start up to end. */
  lemma {:induction false} BitRangeBits(start: nat, end: nat, k: nat)
    requires start <= 8 && end <= 8 && k < 8
    ensures BitOf(BitRange(start, end), k) <==> start <= k < end
  {
    BitAnd(!Ones(start), Ones(end), k);
    BitNot(Ones(start), k);
    OnesBits(start, k);
    OnesBits(end, k);
  }

  /** A byte is determined by its bits. */
  lemma {:induction false} SameBits(x: bv8, y: bv8)
    requires forall k :: 0 <= k < 8 ==> BitOf(x, k) == BitOf(y, k)
    ensures x == y
  {
    assert BitOf(x, 0) == BitOf(y, 0);
    assert BitOf(x, 1) == BitOf(y, 1);
    assert BitOf(x, 2) == BitOf(y, 2);
    assert BitOf(x, 3) == BitOf(y, 3);
    assert BitOf(x, 4) == BitOf(y, 4);
    assert BitOf(x, 5) == BitOf(y, 5);
    assert BitOf(x, 6) == BitOf(y, 6);
    assert BitOf(x, 7) == BitOf(y, 7);
  }

  /** A byte equals bit_range(0, n) exactly when its first n bits are the set ones. */
  lemma {:induction false} FullByte(x: bv8, n: nat)
    requires n <= 8
    ensures x == BitRange(0, n) <==> forall k :: 0 <= k < 8 ==> (BitOf(x, k) <==> k < n)
  {
    forall k | 0 <= k < 8 ensures BitOf(BitRange(0, n), k) <==> k < n { BitRangeBits(0, n, k); }
    if forall k :: 0 <= k < 8 ==> (BitOf(x, k) <==> k < n) { SameBits(x, BitRange(0, n)); }
  }
}
