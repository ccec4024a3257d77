/** The receiving side as a run: what arrives and what the handshake does with it, in
    any order, and the read epochs that a message's fragments came in. */
module DtlsRun {
  import opened Bytes
  import opened DtlsFragment
  import opened DtlsRing

  /** A fragment or a ChangeCipherSpec arrives under the current read epoch, the
      current message is handed out or dropped, the ChangeCipherSpec is taken, or the
      read epoch is to change. */
  datatype Event = Arrives(header: Header, body: seq<byte>) | Flags | HandsOut | Takes | TakesFlag | Switches

  predicate Fits(e: Event) { e.Arrives? ==> e.header.Fits() && |e.body| == e.header.fragLen }

  predicate AllFit(events: seq<Event>) { forall i :: 0 <= i < |events| ==> Fits(events[i]) }

  /** The window, how often the read epoch has changed, whether the current message was
      handed out, whether a ChangeCipherSpec waits, and the messages taken. A fragment
      that is refused leaves all of it; a connection that then fails is a run that ends
      there. */
  datatype Trace = Trace(ring: Ring, switches: nat, handedOut: bool, flagged: bool, delivered: seq<seq<byte>>) {
    function Epoch(): nat { switches % 0x1_0000 }

    predicate Sound() { Valid(ring) && (handedOut ==> CurrentComplete(ring)) }

    /** Nothing is left that has not been handed out. */
    predicate Settled()
      requires Sound()
    {
      !flagged && forall i :: 0 <= i < FLIGHT && ring.slots[i].Held? ==> handedOut && i == ring.next % FLIGHT
    }
  }

  /** A message that is complete stays so. */
  lemma {:induction false} StaysComplete(r: Ring, epoch: nat, maxLen: nat, h: Header, body: seq<byte>)
    requires Valid(r) && h.Fits() && |body| == h.fragLen && CurrentComplete(r)
    ensures Current(ReadFragment(r, epoch, maxLen, h, body).1) == Current(r)
  {
    var after := ReadFragment(r, epoch, maxLen, h, body).1;
    if h.seqNum % FLIGHT != r.next % FLIGHT { assert after.slots[r.next % FLIGHT] == r.slots[r.next % FLIGHT]; }
  }

  function Step(t: Trace, e: Event, maxLen: nat): (r: Trace)
    requires t.Sound() && Fits(e)
    ensures r.Sound()
  {
    match e
    case Arrives(h, body) =>
      if t.handedOut then StaysComplete(t.ring, t.Epoch(), maxLen, h, body); t.(ring := Arrival(t, e, maxLen).1)
      else t.(ring := Arrival(t, e, maxLen).1)
    case Flags => t.(flagged := true)
    case HandsOut => t.(handedOut := CurrentComplete(t.ring))
    case Takes =>
      if t.handedOut
      then t.(ring := NextMessage(t.ring), handedOut := false, delivered := t.delivered + [Current(t.ring).data])
      else t
    case TakesFlag => t.(flagged := false)
    case Switches => if t.Settled() then t.(switches := t.switches + 1) else t
  }

  function Arrival(t: Trace, e: Event, maxLen: nat): (Status, Ring)
    requires t.Sound() && e.Arrives? && Fits(e)
  {
    ReadFragment(t.ring, t.Epoch(), maxLen, e.header, e.body)
  }

  function Run(events: seq<Event>, maxLen: nat): (t: Trace)
    requires AllFit(events)
    ensures t.Sound()
    decreases |events|
  {
    if events == [] then Trace(Start(), 0, false, false, [])
    else Step(Run(events[..|events| - 1], maxLen), events[|events| - 1], maxLen)
  }

  lemma {:induction false} RunMore(events: seq<Event>, e: Event, maxLen: nat)
    requires AllFit(events) && Fits(e)
    ensures AllFit(events + [e]) && Run(events + [e], maxLen) == Step(Run(events, maxLen), e, maxLen)
  {
    assert (events + [e])[..|events|] == events;
  }

  /** The event brings a fragment that becomes a part of message k. */
  predicate Adds(t: Trace, e: Event, maxLen: nat, k: nat)
    requires t.Sound() && Fits(e)
  {
    && e.Arrives? && e.header.seqNum == k && t.ring.next <= k < t.ring.next + FLIGHT
    && Arrival(t, e, maxLen).0.Success?
    && var s := t.ring.slots[k % FLIGHT]; s.Held? ==> !Whole(s.got)
  }

  predicate AddsAt(events: seq<Event>, i: nat, maxLen: nat, k: nat)
    requires AllFit(events) && i < |events|
  {
    Adds(Run(events[..i], maxLen), events[i], maxLen, k)
  }

  /** How often the read epoch had changed when event i happened. */
  function SwitchesAt(events: seq<Event>, i: nat, maxLen: nat): nat
    requires AllFit(events) && i < |events|
  {
    Run(events[..i], maxLen).switches
  }

  /** Message k was taken, or is held and either all of it was handed out or the read
      epoch has not changed since this many changes. */
  predicate Stands(t: Trace, k: nat, switches: nat)
    requires t.Sound()
  {
    var s := t.ring.slots[k % FLIGHT];
    || k < t.ring.next
    || (s.Held? && s.seqNum == k && (t.switches == switches || (t.handedOut && k == t.ring.next)))
  }

  lemma {:induction false} StandsOn(t: Trace, e: Event, maxLen: nat, k: nat, switches: nat)
    requires t.Sound() && Fits(e) && Stands(t, k, switches)
    ensures Stands(Step(t, e, maxLen), k, switches)
  {
    if e.Arrives? {
      assert || k % FLIGHT == e.header.seqNum % FLIGHT
             || Arrival(t, e, maxLen).1.slots[k % FLIGHT] == t.ring.slots[k % FLIGHT];
    }
  }

  lemma {:induction false} AddedStands(t: Trace, e: Event, maxLen: nat, k: nat)
    requires t.Sound() && Fits(e) && Adds(t, e, maxLen, k)
    ensures Stands(Step(t, e, maxLen), k, t.switches)
  {
  }

  lemma {:induction false} Earlier(events: seq<Event>, i: nat, maxLen: nat, k: nat)
    requires AllFit(events) && i + 1 < |events|
    ensures
      var before := events[..|events| - 1];
      && (AddsAt(before, i, maxLen, k) <==> AddsAt(events, i, maxLen, k))
      && SwitchesAt(before, i, maxLen) == SwitchesAt(events, i, maxLen)
  {
    assert events[..|events| - 1][..i] == events[..i];
  }

  lemma {:induction false} StandsLast(events: seq<Event>, before: seq<Event>, maxLen: nat, k: nat, switches: nat)
    requires AllFit(events) && events != [] && before == events[..|events| - 1]
    requires || Stands(Run(before, maxLen), k, switches)
             || (AddsAt(events, |events| - 1, maxLen, k) && switches == Run(before, maxLen).switches)
    ensures Stands(Run(events, maxLen), k, switches)
  {
    var t, e := Run(before, maxLen), events[|events| - 1];
    if Stands(t, k, switches) { StandsOn(t, e, maxLen, k, switches); } else { AddedStands(t, e, maxLen, k); }
  }

  lemma {:induction false} StandsSince(events: seq<Event>, i: nat, maxLen: nat, k: nat)
    requires AllFit(events) && i < |events| && AddsAt(events, i, maxLen, k)
    ensures Stands(Run(events, maxLen), k, SwitchesAt(events, i, maxLen))
    decreases |events|
  {
    var before := events[..|events| - 1];
    if i < |before| {
      Earlier(events, i, maxLen, k);
      StandsSince(before, i, maxLen, k);
    }
    StandsLast(events, before, maxLen, k, SwitchesAt(events, i, maxLen));
  }

  /** All fragments that become a part of one message come in one read epoch. */
  lemma {:induction false} OneEpoch(events: seq<Event>, i: nat, j: nat, maxLen: nat, k: nat)
    requires AllFit(events) && i <= j < |events| && AddsAt(events, i, maxLen, k) && AddsAt(events, j, maxLen, k)
    ensures SwitchesAt(events, i, maxLen) == SwitchesAt(events, j, maxLen)
  {
    if i < j {
      assert events[..j][..i] == events[..i];
      StandsSince(events[..j], i, maxLen, k);
    }
  }

  /** Byte p of message k is held. */
  predicate HasByte(t: Trace, k: nat, p: nat)
    requires t.Sound()
  {
    var s := t.ring.slots[k % FLIGHT];
    s.Held? && s.seqNum == k && p < s.msgLen && s.got[p]
  }

  lemma {:induction false} ByteAdded(t: Trace, e: Event, maxLen: nat, k: nat, p: nat)
    requires t.Sound() && Fits(e) && HasByte(Step(t, e, maxLen), k, p) && !HasByte(t, k, p)
    ensures Adds(t, e, maxLen, k) && e.header.fragOff <= p < e.header.fragOff + e.header.fragLen
  {
  }

  /** Nothing else becomes a part of a message: each byte held was brought by such a
      fragment. */
  lemma {:induction false} BytesWereAdded(events: seq<Event>, maxLen: nat, k: nat, p: nat) returns (i: nat)
    requires AllFit(events) && HasByte(Run(events, maxLen), k, p)
    ensures i < |events| && AddsAt(events, i, maxLen, k)
    ensures events[i].header.fragOff <= p < events[i].header.fragOff + events[i].header.fragLen
    decreases |events|
  {
    var before, last := events[..|events| - 1], |events| - 1;
    var t := Run(before, maxLen);
    if HasByte(t, k, p) {
      i := BytesWereAdded(before, maxLen, k, p);
      Earlier(events, i, maxLen, k);
    } else {
      ByteAdded(t, events[last], maxLen, k, p);
      i := last;
    }
  }

  lemma {:induction false} StepTakes(t: Trace, e: Event, maxLen: nat)
    requires t.Sound() && Fits(e) && |t.delivered| == t.ring.next
    ensures
      var r := Step(t, e, maxLen);
      || (r.ring.next == t.ring.next && r.delivered == t.delivered)
      || (t.handedOut && r.ring.next == t.ring.next + 1 && r.delivered == t.delivered + [Current(t.ring).data])
    ensures |Step(t, e, maxLen).delivered| == Step(t, e, maxLen).ring.next
  {
  }

  /** Message k was complete when it was taken. */
  lemma {:induction false} Taken(events: seq<Event>, maxLen: nat, k: nat, r: Trace) returns (n: nat)
    requires AllFit(events) && r == Run(events, maxLen)
    ensures |r.delivered| == r.ring.next && n <= |events|
    ensures k < r.ring.next ==>
              var t := Run(events[..n], maxLen);
              t.ring.next == k && t.handedOut && Current(t.ring).data == r.delivered[k]
    decreases |events|
  {
    n := 0;
    if events != [] {
      var before := events[..|events| - 1];
      var t := Run(before, maxLen);
      n := Taken(before, maxLen, k, t);
      StepTakes(t, events[|events| - 1], maxLen);
      assert before[..n] == events[..n];
      if k >= t.ring.next { n := |before|; }
    }
  }

  /** Event i brings byte p of message k. */
  predicate BringsByte(events: seq<Event>, i: nat, maxLen: nat, k: nat, p: nat)
    requires AllFit(events) && i < |events|
  {
    && AddsAt(events, i, maxLen, k)
    && events[i].header.fragOff <= p < events[i].header.fragOff + events[i].header.fragLen
  }

  predicate Brought(events: seq<Event>, maxLen: nat, k: nat, p: nat)
    requires AllFit(events)
  {
    exists i :: 0 <= i < |events| && BringsByte(events, i, maxLen, k, p)
  }

  lemma {:induction false} HeldWasBrought(events: seq<Event>, n: nat, maxLen: nat, k: nat, p: nat)
    requires AllFit(events) && n <= |events| && HasByte(Run(events[..n], maxLen), k, p)
    ensures Brought(events, maxLen, k, p)
  {
    var i := BytesWereAdded(events[..n], maxLen, k, p);
    assert events[..n][..i] == events[..i];
    assert BringsByte(events, i, maxLen, k, p);
  }

  lemma {:induction false} CompleteHasBytes(t: Trace, p: nat)
    requires t.Sound() && t.handedOut && p + HEADER_LEN < |Current(t.ring).data|
    ensures HasByte(t, t.ring.next, p)
  {
  }

  /** No message taken mixes fragments of two read epochs: each of its bytes came with
      a fragment, and all of its fragments came in one read epoch. */
  lemma {:induction false} TakenFromOneEpoch(events: seq<Event>, maxLen: nat, k: nat, r: Trace)
    returns (switches: nat)
    requires AllFit(events) && r == Run(events, maxLen) && k < r.ring.next
    ensures k < |r.delivered|
    ensures forall p :: 0 <= p < |r.delivered[k]| - HEADER_LEN ==> Brought(events, maxLen, k, p)
    ensures forall i :: 0 <= i < |events| && AddsAt(events, i, maxLen, k) ==>
              SwitchesAt(events, i, maxLen) == switches
  {
    var n := Taken(events, maxLen, k, r);
    forall p | 0 <= p < |r.delivered[k]| - HEADER_LEN ensures Brought(events, maxLen, k, p) {
      CompleteHasBytes(Run(events[..n], maxLen), p);
      HeldWasBrought(events, n, maxLen, k, p);
    }
    switches := TheEpoch(events, maxLen, k);
  }

  lemma {:induction false} TheEpoch(events: seq<Event>, maxLen: nat, k: nat) returns (switches: nat)
    requires AllFit(events)
    ensures forall i :: 0 <= i < |events| && AddsAt(events, i, maxLen, k) ==>
              SwitchesAt(events, i, maxLen) == switches
  {
    switches := 0;
    if j :| 0 <= j < |events| && AddsAt(events, j, maxLen, k) {
      switches := SwitchesAt(events, j, maxLen);
      forall i | 0 <= i < |events| && AddsAt(events, i, maxLen, k)
        ensures SwitchesAt(events, i, maxLen) == switches
      {
        if i <= j { OneEpoch(events, i, j, maxLen, k); } else { OneEpoch(events, j, i, maxLen, k); }
      }
    }
  }
}
