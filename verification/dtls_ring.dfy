/** The receiver's window of messages: what reading a fragment and taking a
    message do to it, and what every run keeps. */
module DtlsRing {
  import opened Options
  import opened Bytes
  import opened DtlsFragment

  const FLIGHT := 7

  /** One place of the ring: the message it holds and which of its bytes came. */
  datatype Slot = Empty | Held(kind: byte, seqNum: nat, msgLen: nat, data: seq<byte>, got: Received)

  datatype Ring = Ring(next: nat, slots: seq<Slot>)

  datatype Status = Success | DecodeError | IllegalParameter | UnexpectedMessage | InternalError

  function Start(): Ring { Ring(0, seq(FLIGHT, _ => Empty)) }

  function Fresh(h: Header): Slot
    requires h.Fits()
  {
    Held(h.kind, h.seqNum, h.msgLen, NewFragment(h).data, Nothing(h.msgLen))
  }

  /** A slot after a fragment for its message: a whole message stays as it is. */
  function Absorb(s: Slot, off: nat, body: seq<byte>): Slot
    requires s.Held? && |s.data| == HEADER_LEN + s.msgLen && off + |body| <= s.msgLen
  {
    if Whole(s.got) then s
    else s.(data := Overlay(s.data, HEADER_LEN + off, body), got := Receive(s.got, off, off + |body|))
  }

  predicate Sized(s: Slot) {
    s.Held? ==> |s.data| == HEADER_LEN + s.msgLen && |s.got| == s.msgLen
  }

  /** Every held message lies in the window, in the slot of its number. */
  predicate Valid(r: Ring) {
    && |r.slots| == FLIGHT
    && forall i :: 0 <= i < FLIGHT ==>
         && Sized(r.slots[i])
         && (r.slots[i].Held? ==> r.next <= r.slots[i].seqNum < r.next + FLIGHT && r.slots[i].seqNum % FLIGHT == i)
  }

  predicate InBounds(h: Header, maxLen: nat) {
    h.fragOff + h.fragLen <= h.msgLen <= maxLen
  }

  /** One fragment, in the source's order of checks. A number one past the window
      is not ignored but reported as an internal error. */
  function ReadFragment(r: Ring, epoch: nat, maxLen: nat, h: Header, body: seq<byte>): (res: (Status, Ring))
    requires Valid(r) && h.Fits() && |body| == h.fragLen
    ensures Valid(res.1) && res.1.next == r.next
    ensures !res.0.Success? ==> res.1 == r
    ensures res.0.UnexpectedMessage? <==> InBounds(h, maxLen) && epoch == 1 && h.seqNum != r.next
    ensures res.0.IllegalParameter? <==>
              || h.fragOff + h.fragLen > h.msgLen || h.msgLen > maxLen
              || ((epoch == 1 ==> h.seqNum == r.next) && r.next <= h.seqNum < r.next + FLIGHT
                  && var s := r.slots[h.seqNum % FLIGHT]; s.Held? && (s.kind != h.kind || s.msgLen != h.msgLen))
    ensures !res.0.DecodeError?
    ensures res.0.InternalError? <==>
              InBounds(h, maxLen) && (epoch == 1 ==> h.seqNum == r.next) && h.seqNum == r.next + 7
    ensures forall i :: 0 <= i < FLIGHT && i != h.seqNum % FLIGHT ==> res.1.slots[i] == r.slots[i]
  {
    if !InBounds(h, maxLen) then (IllegalParameter, r)
    else if epoch == 1 && h.seqNum != r.next then (UnexpectedMessage, r)
    else if h.seqNum < r.next || h.seqNum > r.next + FLIGHT then (Success, r)
    else if h.seqNum - r.next >= FLIGHT then (InternalError, r)
    else
      var i := h.seqNum % FLIGHT;
      // What the source asserts of the slot it finds.
      assert r.slots[i].Held? ==> r.slots[i].seqNum == h.seqNum;
      var slot := if r.slots[i].Empty? then Fresh(h) else r.slots[i];
      if slot.kind != h.kind || slot.msgLen != h.msgLen then (IllegalParameter, r)
      else (Success, r.(slots := r.slots[i := Absorb(slot, h.fragOff, body)]))
  }

  /** The fragments of one handshake record. */
  function ReadRecord(r: Ring, epoch: nat, maxLen: nat, record: seq<byte>): (res: (Status, Ring))
    requires Valid(r)
    ensures Valid(res.1) && res.1.next == r.next
    decreases |record|
  {
    if record == [] then (Success, r)
    else match ParseFragment(record)
      case None => (DecodeError, r)
      case Some(p) =>
        var step := ReadFragment(r, epoch, maxLen, p.header, p.body);
        if step.0.Success? then ReadRecord(step.1, epoch, maxLen, p.rest) else step
  }

  function Current(r: Ring): Slot
    requires Valid(r)
  {
    r.slots[r.next % FLIGHT]
  }

  predicate CurrentComplete(r: Ring)
    requires Valid(r)
  {
    Current(r).Held? && Whole(Current(r).got)
  }

  /** dtls1_next_message: the current message is dropped and the window moves. */
  function NextMessage(r: Ring): (res: Ring)
    requires Valid(r) && CurrentComplete(r)
    ensures Valid(res) && res.next == r.next + 1 && res.slots[r.next % FLIGHT].Empty?
    ensures forall i :: 0 <= i < FLIGHT && i != r.next % FLIGHT ==> res.slots[i] == r.slots[i]
  {
    var res := Ring(r.next + 1, r.slots[r.next % FLIGHT := Empty]);
    assert forall i :: 0 <= i < FLIGHT && res.slots[i].Held? ==> res.slots[i].seqNum != r.next;
    res
  }
}
