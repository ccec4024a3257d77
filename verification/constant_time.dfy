/** Branch-free comparisons and selection on 64-bit words, and the choice of the
    RSA premaster secret built on them. */
module ConstantTime {

  const TRUE_W: bv64 := 0xffff_ffff_ffff_ffff
  const TRUE_8: bv8 := 0xff

  /** A word mask: all ones or all zeros. */
  function MaskW(b: bool): bv64 { if b then TRUE_W else 0 }

  function Mask8(b: bool): bv8 { if b then TRUE_8 else 0 }

  /** constant_time_msb_w. */
  function MsbW(a: bv64): (m: bv64)
    ensures m == MaskW(a >= 0x8000_0000_0000_0000)
  {
    0 - (a >> 63)
  }

  /** constant_time_is_zero_w. */
  function IsZeroW(a: bv64): (m: bv64)
    ensures m == MaskW(a == 0)
  {
    MsbW(!a & (a - 1))
  }

  /** constant_time_eq_w. */
  function EqW(a: bv64, b: bv64): (m: bv64)
    ensures m == MaskW(a == b)
  {
    IsZeroW(a ^ b)
  }

  /** constant_time_select_w, with a mask. */
  function SelectW(mask: bv64, a: bv64, b: bv64): (r: bv64)
    ensures mask == TRUE_W ==> r == a
    ensures mask == 0 ==> r == b
  {
    (mask & a) | (!mask & b)
  }

  /** Truncation of a word to its low byte. */
  function Low8(w: bv64): bv8 { (w & 0xff) as bv8 }

  /** constant_time_is_zero_8 of a byte. */
  function IsZero8(a: bv8): (m: bv8)
    ensures m == Mask8(a == 0)
  {
    Low8(IsZeroW(a as bv64))
  }

  /** constant_time_eq_8 of two bytes. */
  function Eq8(a: bv8, b: bv8): (m: bv8)
    ensures m == Mask8(a == b)
  {
    Low8(EqW(a as bv64, b as bv64))
  }

  /** constant_time_select_8. The mask is widened without sign extension. */
  function Select8(mask: bv8, a: bv8, b: bv8): (r: bv8)
    ensures mask == TRUE_8 ==> r == a
    ensures mask == 0 ==> r == b
  {
    Low8(SelectW(mask as bv64, a as bv64, b as bv64))
  }

  const PREMASTER_LEN := 48

  /** A decrypted block padded as section 7.2.2 of RFC 3447 has it, whose last 48
      bytes begin with the client's version. */
  predicate Conforming(block: seq<bv8>, version: bv16)
    requires |block| >= 11 + PREMASTER_LEN
  {
    var pad := |block| - PREMASTER_LEN;
    && block[0] == 0 && block[1] == 2
    && (forall i :: 2 <= i < pad - 1 ==> block[i] != 0)
    && block[pad - 1] == 0
    && block[pad] == (version >> 8) as bv8 && block[pad + 1] == (version & 0xff) as bv8
  }

  lemma {:induction false} MaskAnd(p: bool, q: bool)
    ensures Mask8(p) & Mask8(q) == Mask8(p && q)
    ensures Mask8(p) & !Mask8(q) == Mask8(p && !q)
  {
  }

  /** The padding check of do_read_client_key_exchange, then the selection: the
      decrypted secret replaces the random one exactly when the block conforms,
      as section 7.4.7.1 of RFC 5246 asks. Small keys are refused openly. */
  method SelectPremaster(block: seq<bv8>, version: bv16, premaster: array<bv8>) returns (ok: bool)
    requires premaster.Length == PREMASTER_LEN
    modifies premaster
    ensures ok <==> |block| >= 11 + PREMASTER_LEN
    ensures premaster[..] == if ok && Conforming(block, version) then block[|block| - PREMASTER_LEN..]
                             else old(premaster[..])
  {
    if |block| < 11 + premaster.Length { return false; }
    var pad := |block| - premaster.Length;
    var good := Eq8(block[0], 0) & Eq8(block[1], 2);
    MaskAnd(block[0] == 0, block[1] == 2);
    for i := 2 to pad - 1
      invariant good == Mask8(block[0] == 0 && block[1] == 2 && forall k :: 2 <= k < i ==> block[k] != 0)
      invariant premaster[..] == old(premaster[..])
    {
      MaskAnd(block[0] == 0 && block[1] == 2 && forall k :: 2 <= k < i ==> block[k] != 0, block[i] == 0);
      good := good & !IsZero8(block[i]);
    }
    ghost var padded := block[0] == 0 && block[1] == 2 && forall k :: 2 <= k < pad - 1 ==> block[k] != 0;
    MaskAnd(padded, block[pad - 1] == 0);
    good := good & IsZero8(block[pad - 1]);
    var major, minor := (version >> 8) as bv8, (version & 0xff) as bv8;
    MaskAnd(padded && block[pad - 1] == 0, block[pad] == major);
    good := good & Eq8(block[pad], major);
    MaskAnd(padded && block[pad - 1] == 0 && block[pad] == major, block[pad + 1] == minor);
    good := good & Eq8(block[pad + 1], minor);
    assert good == Mask8(Conforming(block, version));
    for i := 0 to premaster.Length
      invariant forall k :: 0 <= k < i ==>
                  premaster[k] == if Conforming(block, version) then block[pad + k] else old(premaster[k])
      invariant forall k :: i <= k < premaster.Length ==> premaster[k] == old(premaster[k])
    {
      premaster[i] := Select8(good, block[pad + i], premaster[i]);
    }
    return true;
  }
}
