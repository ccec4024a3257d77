/** Handshake fragments (section 4.2.2 of RFC 6347) and the reassembly of one
    message from them. */
module DtlsFragment {
  import opened Options
  import opened Bytes
  import opened DtlsBits

  const HEADER_LEN := 12

  /** hm_header_st. */
  datatype Header = Header(kind: byte, msgLen: nat, seqNum: nat, fragOff: nat, fragLen: nat) {
    predicate Fits() { msgLen < 0x100_0000 && seqNum < 0x1_0000 && fragOff < 0x100_0000 && fragLen < 0x100_0000 }
  }

  function U16(n: nat): (s: seq<byte>)
    requires n < 0x1_0000
    ensures |s| == 2 && FromU16(s) == n
  {
    [n / 256, n % 256]
  }

  function FromU16(s: seq<byte>): (n: nat)
    requires |s| == 2
    ensures n < 0x1_0000
  {
    s[0] as int * 256 + s[1] as int
  }

  function U24(n: nat): (s: seq<byte>)
    requires n < 0x100_0000
    ensures |s| == 3 && FromU24(s) == n
  {
    [n / 65536, n % 65536 / 256, n % 256]
  }

  function FromU24(s: seq<byte>): (n: nat)
    requires |s| == 3
    ensures n < 0x100_0000
  {
    s[0] as int * 65536 + s[1] as int * 256 + s[2] as int
  }

  function EncodeHeader(h: Header): (s: seq<byte>)
    requires h.Fits()
    ensures |s| == HEADER_LEN
  {
    [h.kind] + U24(h.msgLen) + U16(h.seqNum) + U24(h.fragOff) + U24(h.fragLen)
  }

  /** One parsed fragment and what follows it. */
  datatype Parsed = Parsed(header: Header, body: seq<byte>, rest: seq<byte>)

  /** dtls1_parse_fragment. */
  function ParseFragment(s: seq<byte>): (r: Option<Parsed>)
    ensures r.Some? ==> r.value.header.Fits() && |r.value.body| == r.value.header.fragLen && |r.value.rest| < |s|
  {
    if |s| < HEADER_LEN then None
    else
      var h := Header(s[0], FromU24(s[1..4]), FromU16(s[4..6]), FromU24(s[6..9]), FromU24(s[9..12]));
      if |s| - HEADER_LEN < h.fragLen then None
      else Some(Parsed(h, s[HEADER_LEN..HEADER_LEN + h.fragLen], s[HEADER_LEN + h.fragLen..]))
  }

  /** Parsing takes exactly one encoded fragment off the front of a record. */
  lemma {:induction false} ParseEncoded(h: Header, body: seq<byte>, rest: seq<byte>)
    requires h.Fits() && |body| == h.fragLen
    ensures ParseFragment(EncodeHeader(h) + body + rest) == Some(Parsed(h, body, rest))
  {
    var s := EncodeHeader(h) + body + rest;
    assert s[1..4] == U24(h.msgLen);
    assert s[4..6] == U16(h.seqNum);
    assert s[6..9] == U24(h.fragOff);
    assert s[9..12] == U24(h.fragLen);
    assert s[12..12 + h.fragLen] == body;
    assert s[12 + h.fragLen..] == rest;
  }

  /** The header on the wire: type, 24-bit length, 16-bit message number, 24-bit offset
      and 24-bit length of the fragment, in network order. */
  lemma {:induction false} HeaderLayout(h: Header)
    requires h.Fits()
    ensures
      var s: seq<nat> := EncodeHeader(h);
      && s[0] == h.kind && s[1] * 65536 + s[2] * 256 + s[3] == h.msgLen && s[4] * 256 + s[5] == h.seqNum
      && s[6] * 65536 + s[7] * 256 + s[8] == h.fragOff && s[9] * 65536 + s[10] * 256 + s[11] == h.fragLen
  {
    var s := EncodeHeader(h);
    assert s[1..4] == U24(h.msgLen);
    assert s[4..6] == U16(h.seqNum);
    assert s[6..9] == U24(h.fragOff);
    assert s[9..12] == U24(h.fragLen);
  }

  lemma {:induction false} Bytes24(s: seq<byte>)
    requires |s| == 3
    ensures U24(FromU24(s)) == s
  {
  }

  lemma {:induction false} Bytes16(s: seq<byte>)
    requires |s| == 2
    ensures U16(FromU16(s)) == s
  {
  }

  /** What is parsed was encoded so. An input is refused only if it is shorter than a
      header, or than its header says. */
  lemma {:induction false} ParseExact(s: seq<byte>)
    ensures match ParseFragment(s)
            case Some(p) => s == EncodeHeader(p.header) + p.body + p.rest
            case None => |s| < 12 || |s| < 12 + s[9] as nat * 65536 + s[10] as nat * 256 + s[11] as nat
  {
    if |s| >= HEADER_LEN {
      Bytes24(s[1..4]);
      Bytes16(s[4..6]);
      Bytes24(s[6..9]);
      Bytes24(s[9..12]);
      if ParseFragment(s).Some? {
        var p := ParseFragment(s).value;
        assert s[..12] == EncodeHeader(p.header);
        assert s == s[..12] + p.body + p.rest;
      }
    }
  }

  /** A handshake message without its header. */
  datatype Message = Message(kind: byte, body: seq<byte>)

  /** The sender's unfragmented form of message k: what both sides hash. */
  function Raw(m: Message, k: nat): seq<byte>
    requires |m.body| < 0x100_0000 && k < 0x1_0000
  {
    EncodeHeader(Header(m.kind, |m.body|, k, 0, |m.body|)) + m.body
  }

  /** hm_fragment. `data` is the message with a whole-message header in front;
      `mask` has one bit per body byte, and is dropped once the message is
      complete. */
  datatype Fragment = Fragment(kind: byte, seqNum: nat, msgLen: nat, data: seq<byte>, complete: bool, mask: seq<bv8>)

  /** Which body bytes have been received. */
  type Received = seq<bool>

  predicate Whole(got: Received) { forall p :: 0 <= p < |got| ==> got[p] }

  /** Receiving the bytes from start up to end. */
  function Receive(got: Received, start: nat, end: nat): (r: Received)
    ensures |r| == |got|
    ensures forall p :: 0 <= p < |got| ==> r[p] == (got[p] || start <= p < end)
  {
    seq(|got|, p requires 0 <= p < |got| => got[p] || start <= p < end)
  }

  predicate Got(got: Received, p: int) { 0 <= p < |got| && got[p] }

  /** The mask's bits are the received bytes, and nothing else is set. */
  ghost predicate Masks(mask: seq<bv8>, got: Received) {
    forall j, b :: 0 <= j < |mask| && 0 <= b < 8 ==> (BitOf(mask[j], b) <==> Got(got, 8 * j + b))
  }

  /** The fragment has received exactly these body bytes. */
  ghost predicate Holds(f: Fragment, got: Received) {
    && f.msgLen < 0x100_0000 && f.seqNum < 0x1_0000
    && |f.data| == HEADER_LEN + f.msgLen && |got| == f.msgLen
    && f.data[..HEADER_LEN] == EncodeHeader(Header(f.kind, f.msgLen, f.seqNum, 0, f.msgLen))
    && (f.complete <==> Whole(got))
    && (!f.complete ==> |f.mask| == (f.msgLen + 7) / 8 && Masks(f.mask, got))
  }

  /** dtls1_hm_fragment_new. An empty message is complete from the start. */
  function NewFragment(h: Header): (f: Fragment)
    requires h.Fits()
    ensures f.kind == h.kind && f.seqNum == h.seqNum && f.msgLen == h.msgLen
  {
    Fragment(h.kind, h.seqNum, h.msgLen,
             EncodeHeader(Header(h.kind, h.msgLen, h.seqNum, 0, h.msgLen)) + seq(h.msgLen, _ => 0),
             h.msgLen == 0, seq((h.msgLen + 7) / 8, _ => 0))
  }

  function Nothing(n: nat): Received { seq(n, _ => false) }

  lemma {:induction false} NewHoldsNothing(h: Header)
    requires h.Fits()
    ensures Holds(NewFragment(h), Nothing(h.msgLen))
  {
    if h.msgLen > 0 { assert !Nothing(h.msgLen)[0]; }
  }

  lemma {:induction false} OrRange(mask: seq<bv8>, j: nat, start: nat, end: nat)
    requires j < |mask| && start <= 8 && end <= 8
    ensures
      var r := mask[j := mask[j] | BitRange(start, end)];
      forall i, b :: 0 <= i < |mask| && 0 <= b < 8 ==>
        (BitOf(r[i], b) <==> BitOf(mask[i], b) || (i == j && start <= b < end))
  {
    forall b | 0 <= b < 8
      ensures BitOf(mask[j] | BitRange(start, end), b) <==> BitOf(mask[j], b) || start <= b < end
    {
      BitOr(mask[j], BitRange(start, end), b);
      BitRangeBits(start, end, b);
    }
  }

  lemma {:induction false} FullMask(b: nat)
    requires b < 8
    ensures BitOf(0xff, b)
  {
  }

  /** The marking half of dtls1_hm_fragment_mark. */
  method MarkRange(before: seq<bv8>, start: nat, end: nat) returns (mask: seq<bv8>)
    requires start <= end <= 8 * |before|
    ensures |mask| == |before|
    ensures forall j, b :: 0 <= j < |mask| && 0 <= b < 8 ==>
              (BitOf(mask[j], b) <==> BitOf(before[j], b) || start <= 8 * j + b < end)
  {
    mask := before;
    if start == end { return; }
    if start / 8 == end / 8 {
      OrRange(mask, start / 8, start % 8, end % 8);
      mask := mask[start / 8 := mask[start / 8] | BitRange(start % 8, end % 8)];
    } else {
      OrRange(mask, start / 8, start % 8, 8);
      mask := mask[start / 8 := mask[start / 8] | BitRange(start % 8, 8)];
      for i := start / 8 + 1 to end / 8
        invariant |mask| == |before|
        invariant forall j, b :: 0 <= j < |mask| && 0 <= b < 8 ==>
                    (BitOf(mask[j], b) <==> BitOf(before[j], b) || start <= 8 * j + b < 8 * i)
      {
        forall b | 0 <= b < 8 ensures BitOf(0xff, b) { FullMask(b); }
        mask := mask[i := 0xff];
      }
      if end % 8 != 0 {
        OrRange(mask, end / 8, 0, end % 8);
        mask := mask[end / 8 := mask[end / 8] | BitRange(0, end % 8)];
      }
    }
  }

  /** A mask byte is full exactly when the body bytes it stands for were received. */
  lemma {:induction false} WholeByte(mask: seq<bv8>, got: Received, j: nat)
    requires |mask| == (|got| + 7) / 8 && Masks(mask, got) && j < |mask|
    ensures
      var n := if 8 * j + 8 <= |got| then 8 else |got| - 8 * j;
      mask[j] == BitRange(0, n) <==> forall p :: 8 * j <= p < 8 * j + n ==> got[p]
  {
    var n := if 8 * j + 8 <= |got| then 8 else |got| - 8 * j;
    FullByte(mask[j], n);
    if mask[j] == BitRange(0, n) {
      forall p | 8 * j <= p < 8 * j + n ensures got[p] {
        assert BitOf(mask[j], p - 8 * j) <==> Got(got, 8 * j + (p - 8 * j));
      }
    }
    if forall p :: 8 * j <= p < 8 * j + n ==> got[p] {
      forall b | 0 <= b < 8 ensures BitOf(mask[j], b) <==> b < n {
        assert BitOf(mask[j], b) <==> Got(got, 8 * j + b);
        if b < n { assert got[8 * j + b]; }
      }
    }
  }

  /** The checking half of dtls1_hm_fragment_mark: every byte of the mask is full. */
  method CheckComplete(mask: seq<bv8>, ghost got: Received, msgLen: nat) returns (complete: bool)
    requires |got| == msgLen && |mask| == (msgLen + 7) / 8 && Masks(mask, got)
    ensures complete <==> Whole(got)
  {
    OnesTable();
    assert BitRange(0, 8) == 0xff;
    for i := 0 to msgLen / 8
      invariant forall p :: 0 <= p < 8 * i ==> got[p]
    {
      WholeByte(mask, got, i);
      if mask[i] != 0xff {
        return false;
      }
    }
    if msgLen % 8 != 0 {
      WholeByte(mask, got, msgLen / 8);
      if mask[msgLen / 8] != BitRange(0, msgLen % 8) { return false; }
    }
    return true;
  }

  /** dtls1_hm_fragment_mark: marks a range of body bytes as received, and notes
      whether that completes the message. */
  method Mark(f: Fragment, ghost got: Received, start: nat, end: nat) returns (r: Fragment)
    requires Holds(f, got) && !f.complete && start <= end <= f.msgLen
    ensures Holds(r, Receive(got, start, end))
    ensures r.(complete := f.complete, mask := f.mask) == f
  {
    if start == end {
      assert Receive(got, start, end) == got;
      return f;
    }
    var mask := MarkRange(f.mask, start, end);
    ghost var now := Receive(got, start, end);
    forall j, b | 0 <= j < |mask| && 0 <= b < 8 ensures BitOf(mask[j], b) <==> Got(now, 8 * j + b) {
      assert BitOf(f.mask[j], b) <==> Got(got, 8 * j + b);
    }
    var complete := CheckComplete(mask, now, f.msgLen);
    r := f.(mask := mask, complete := complete);
  }

  /** The body bytes after copying `bytes` in at an offset. */
  function Overlay(data: seq<byte>, at: nat, bytes: seq<byte>): (r: seq<byte>)
    requires at + |bytes| <= |data|
    ensures |r| == |data|
  {
    data[..at] + bytes + data[at + |bytes|..]
  }

  /** Copies a fragment's body into the message and marks it, as
      dtls1_open_handshake does for a message that is not complete. */
  method CopyIn(f: Fragment, ghost got: Received, off: nat, bytes: seq<byte>) returns (r: Fragment)
    requires Holds(f, got) && off + |bytes| <= f.msgLen
    ensures f.complete ==> r == f
    ensures !f.complete ==>
              && Holds(r, Receive(got, off, off + |bytes|))
              && r.data == Overlay(f.data, HEADER_LEN + off, bytes)
              && r.(data := f.data, complete := f.complete, mask := f.mask) == f
  {
    if f.complete { return f; }
    var g := f.(data := Overlay(f.data, HEADER_LEN + off, bytes));
    assert g.data[..HEADER_LEN] == f.data[..HEADER_LEN];
    r := Mark(g, got, off, off + |bytes|);
  }
}
