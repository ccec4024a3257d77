/** What a receiver delivers when the fragments that arrive were cut from one
    sender's messages: any order, repetition, overlap and loss. */
module DtlsDelivery {
  import opened Bytes
  import opened DtlsFragment
  import opened DtlsRing
  import opened DtlsRun

  predicate ValidFlight(flight: seq<Message>) {
    |flight| <= 0x1_0000 && forall m <- flight :: |m.body| < 0x100_0000
  }

  /** The fragment was cut from its message. */
  predicate CutFrom(flight: seq<Message>, h: Header, body: seq<byte>) {
    && h.Fits() && |body| == h.fragLen
    && h.seqNum < |flight|
    && var m := flight[h.seqNum];
       && h.kind == m.kind && h.msgLen == |m.body| && h.fragOff + h.fragLen <= |m.body|
       && body == m.body[h.fragOff..h.fragOff + h.fragLen]
  }

  predicate Honest(flight: seq<Message>, e: Event) { e.Arrives? ==> CutFrom(flight, e.header, e.body) }

  predicate AllHonest(flight: seq<Message>, events: seq<Event>) {
    forall i :: 0 <= i < |events| ==> Honest(flight, events[i])
  }

  /** What is held of message k agrees with it. */
  ghost predicate Agrees(flight: seq<Message>, s: Slot) {
    s.Held? ==>
      && s.seqNum < |flight|
      && var m := flight[s.seqNum];
         && |m.body| < 0x100_0000 && s.seqNum < 0x1_0000
         && s.kind == m.kind && s.msgLen == |m.body| && Sized(s)
         && s.data[..HEADER_LEN] == EncodeHeader(Header(m.kind, |m.body|, s.seqNum, 0, |m.body|))
         && forall p :: 0 <= p < s.msgLen && s.got[p] ==> s.data[HEADER_LEN + p] == m.body[p]
  }

  lemma {:induction false} WholeIsRaw(flight: seq<Message>, s: Slot)
    requires s.Held? && Agrees(flight, s) && Whole(s.got)
    ensures s.data == Raw(flight[s.seqNum], s.seqNum)
  {
    assert s.data == s.data[..HEADER_LEN] + s.data[HEADER_LEN..];
    assert s.data[HEADER_LEN..] == flight[s.seqNum].body;
  }

  lemma {:induction false} AbsorbAgrees(flight: seq<Message>, s: Slot, h: Header, body: seq<byte>)
    requires s.Held? && Agrees(flight, s) && CutFrom(flight, h, body) && s.seqNum == h.seqNum
    ensures Agrees(flight, Absorb(s, h.fragOff, body))
  {
    var t := Absorb(s, h.fragOff, body);
    assert t.data[..HEADER_LEN] == s.data[..HEADER_LEN];
    forall p | 0 <= p < t.msgLen && t.got[p]
      ensures t.data[HEADER_LEN + p] == flight[s.seqNum].body[p]
    {
      if !Whole(s.got) && h.fragOff <= p < h.fragOff + h.fragLen {
        assert t.data[HEADER_LEN + p] == body[p - h.fragOff];
      }
    }
  }

  lemma {:induction false} FreshAgrees(flight: seq<Message>, h: Header, body: seq<byte>)
    requires ValidFlight(flight) && CutFrom(flight, h, body)
    ensures Agrees(flight, Fresh(h))
  {
    NewHoldsNothing(h);
  }

  ghost predicate AllAgree(flight: seq<Message>, t: Trace)
    requires t.Sound() && ValidFlight(flight)
  {
    && (forall i :: 0 <= i < FLIGHT ==> Agrees(flight, t.ring.slots[i]))
    && t.ring.next <= |flight| && |t.delivered| == t.ring.next
    && forall k :: 0 <= k < t.ring.next ==> t.delivered[k] == Raw(flight[k], k)
  }

  /** What reading a fragment makes of its slot. */
  lemma {:induction false} SlotBecomes(r: Ring, h: Header, body: seq<byte>, epoch: nat, maxLen: nat, slot: Slot,
        after: Slot)
    requires Valid(r) && h.Fits() && |body| == h.fragLen && slot == r.slots[h.seqNum % FLIGHT]
    requires h.fragOff + h.fragLen <= h.msgLen
    requires after == ReadFragment(r, epoch, maxLen, h, body).1.slots[h.seqNum % FLIGHT]
    ensures || after == slot
            || (slot.Held? && slot.seqNum == h.seqNum && slot.msgLen == h.msgLen
                && after == Absorb(slot, h.fragOff, body))
            || (slot.Empty? && after == Absorb(Fresh(h), h.fragOff, body))
  {
  }

  lemma {:induction false} SlotAgrees(flight: seq<Message>, r: Ring, h: Header, body: seq<byte>, epoch: nat,
        maxLen: nat, after: Slot)
    requires ValidFlight(flight) && Valid(r) && CutFrom(flight, h, body)
    requires Agrees(flight, r.slots[h.seqNum % FLIGHT])
    requires after == ReadFragment(r, epoch, maxLen, h, body).1.slots[h.seqNum % FLIGHT]
    ensures Agrees(flight, after)
  {
    var slot := r.slots[h.seqNum % FLIGHT];
    SlotBecomes(r, h, body, epoch, maxLen, slot, after);
    if after == slot {
    } else if slot.Held? {
      AbsorbAgrees(flight, slot, h, body);
    } else {
      FreshAgrees(flight, h, body);
      AbsorbAgrees(flight, Fresh(h), h, body);
    }
  }

  lemma {:induction false} ArrivalAgrees(flight: seq<Message>, r: Ring, h: Header, body: seq<byte>, epoch: nat,
        maxLen: nat, after: Ring)
    requires ValidFlight(flight) && Valid(r) && CutFrom(flight, h, body)
    requires forall i :: 0 <= i < FLIGHT ==> Agrees(flight, r.slots[i])
    requires after == ReadFragment(r, epoch, maxLen, h, body).1
    ensures forall i :: 0 <= i < FLIGHT ==> Agrees(flight, after.slots[i])
  {
    var k := h.seqNum % FLIGHT;
    SlotAgrees(flight, r, h, body, epoch, maxLen, after.slots[k]);
    forall i | 0 <= i < FLIGHT ensures Agrees(flight, after.slots[i]) {
      if i != k { assert after.slots[i] == r.slots[i]; }
    }
  }

  lemma {:induction false} TakingAgrees(flight: seq<Message>, t: Trace)
    requires ValidFlight(flight) && t.Sound() && AllAgree(flight, t) && CurrentComplete(t.ring)
    ensures
      AllAgree(flight, t.(ring := NextMessage(t.ring), handedOut := false,
                          delivered := t.delivered + [Current(t.ring).data]))
  {
    WholeIsRaw(flight, Current(t.ring));
  }

  lemma {:induction false} StepAgrees(flight: seq<Message>, t: Trace, e: Event, maxLen: nat)
    requires ValidFlight(flight) && t.Sound() && Honest(flight, e) && AllAgree(flight, t)
    ensures AllAgree(flight, Step(t, e, maxLen))
  {
    match e
    case Arrives(h, body) => ArrivalAgrees(flight, t.ring, h, body, t.Epoch(), maxLen, Arrival(t, e, maxLen).1);
    case Takes => if t.handedOut { TakingAgrees(flight, t); }
    case _ =>
  }

  /** Whatever arrives, in whatever order and however often, what is delivered is
      exactly the sender's messages, unfragmented, in order from the first. */
  lemma {:induction false} DeliversTheFlight(flight: seq<Message>, events: seq<Event>, maxLen: nat)
    requires ValidFlight(flight) && AllHonest(flight, events)
    ensures AllAgree(flight, Run(events, maxLen))
    decreases |events|
  {
    if events != [] {
      var before := events[..|events| - 1];
      DeliversTheFlight(flight, before, maxLen);
      StepAgrees(flight, Run(before, maxLen), events[|events| - 1], maxLen);
    }
  }

  /** The event brings a fragment of message k that is not ignored or refused. */
  predicate Reaches(t: Trace, e: Event, maxLen: nat, k: nat) {
    && e.Arrives? && e.header.seqNum == k && e.header.msgLen <= maxLen
    && t.ring.next <= k < t.ring.next + FLIGHT && (t.Epoch() == 1 ==> k == t.ring.next)
  }

  /** Some fragment of message k reached the window. */
  predicate Seen(events: seq<Event>, maxLen: nat, k: nat)
    requires AllFit(events)
    decreases |events|
  {
    events != [] &&
      var before := events[..|events| - 1];
      Seen(before, maxLen, k)
      || Reaches(Run(before, maxLen), events[|events| - 1], maxLen, k)
  }

  /** Some fragment of message k with byte p reached the window. */
  predicate Covered(events: seq<Event>, maxLen: nat, k: nat, p: nat)
    requires AllFit(events)
    decreases |events|
  {
    events != [] &&
      var before, e := events[..|events| - 1], events[|events| - 1];
      Covered(before, maxLen, k, p)
      || Brings(Run(before, maxLen), e, maxLen, k, p)
  }

  /** Byte p of message k, for a window and slot of that message. */
  predicate Has(r: Ring, k: nat, p: nat)
    requires Valid(r)
  {
    var s := r.slots[k % FLIGHT];
    k < r.next + FLIGHT && s.Held? && p < s.msgLen && s.got[p]
  }

  predicate HasSome(r: Ring, k: nat)
    requires Valid(r)
  {
    k < r.next + FLIGHT && r.slots[k % FLIGHT].Held?
  }

  lemma {:induction false} SamePlace(next: nat, j: nat, k: nat)
    requires next <= j <= next + FLIGHT && next <= k <= next + FLIGHT && j % FLIGHT == k % FLIGHT
    ensures j == k || (j == next && k == next + FLIGHT) || (k == next && j == next + FLIGHT)
  {
  }

  /** The event brings byte p of message k. */
  predicate Brings(t: Trace, e: Event, maxLen: nat, k: nat, p: nat) {
    Reaches(t, e, maxLen, k) && e.header.fragOff <= p < e.header.fragOff + e.header.fragLen
  }

  /** A fragment of another message leaves message k as it was. */
  lemma {:induction false} OtherArrival(flight: seq<Message>, t: Trace, e: Event, maxLen: nat, k: nat)
    requires t.Sound() && e.Arrives? && CutFrom(flight, e.header, e.body) && t.ring.next <= k < t.ring.next + FLIGHT
    requires !Reaches(t, e, maxLen, k)
    ensures Step(t, e, maxLen).ring.slots[k % FLIGHT] == t.ring.slots[k % FLIGHT]
  {
    if t.ring.next <= e.header.seqNum < t.ring.next + FLIGHT && e.header.seqNum % FLIGHT == k % FLIGHT {
      SamePlace(t.ring.next, e.header.seqNum, k);
    }
  }

  /** A fragment of message k is absorbed by its slot. */
  lemma {:induction false} OwnArrival(flight: seq<Message>, t: Trace, e: Event, maxLen: nat, k: nat)
    requires ValidFlight(flight) && t.Sound() && e.Arrives? && CutFrom(flight, e.header, e.body)
    requires Agrees(flight, t.ring.slots[k % FLIGHT]) && Reaches(t, e, maxLen, k)
    ensures
      var was := t.ring.slots[k % FLIGHT];
      Step(t, e, maxLen).ring.slots[k % FLIGHT]
      == Absorb(if was.Held? then was else Fresh(e.header), e.header.fragOff, e.body)
  {
    if t.ring.slots[k % FLIGHT].Held? { SamePlace(t.ring.next, t.ring.slots[k % FLIGHT].seqNum, k); }
  }

  lemma {:induction false} ArrivalHas(flight: seq<Message>, t: Trace, e: Event, maxLen: nat, k: nat, p: nat)
    requires ValidFlight(flight) && t.Sound() && e.Arrives? && CutFrom(flight, e.header, e.body)
    requires k < |flight| && t.ring.next <= k < t.ring.next + FLIGHT && Agrees(flight, t.ring.slots[k % FLIGHT])
    ensures
      var r := Step(t, e, maxLen).ring;
      && r.next == t.ring.next
      && (HasSome(r, k) <==> HasSome(t.ring, k) || Reaches(t, e, maxLen, k))
      && (p < |flight[k].body| ==> (Has(r, k, p) <==> Has(t.ring, k, p) || Brings(t, e, maxLen, k, p)))
  {
    if Reaches(t, e, maxLen, k) {
      OwnArrival(flight, t, e, maxLen, k);
      if t.ring.slots[k % FLIGHT].Held? { SamePlace(t.ring.next, t.ring.slots[k % FLIGHT].seqNum, k); }
    } else {
      OtherArrival(flight, t, e, maxLen, k);
    }
  }

  lemma {:induction false} TakingHas(t: Trace, k: nat, p: nat)
    requires t.Sound() && CurrentComplete(t.ring) && t.ring.next < k
    ensures HasSome(NextMessage(t.ring), k) == HasSome(t.ring, k)
    ensures Has(NextMessage(t.ring), k, p) == Has(t.ring, k, p)
  {
    if k <= t.ring.next + FLIGHT && k % FLIGHT == t.ring.next % FLIGHT { SamePlace(t.ring.next, t.ring.next, k); }
  }

  /** Where message k stands after one event. */
  lemma {:induction false} StepHas(flight: seq<Message>, t: Trace, e: Event, maxLen: nat, k: nat, p: nat)
    requires ValidFlight(flight) && t.Sound() && Honest(flight, e) && AllAgree(flight, t) && k < |flight|
    requires Step(t, e, maxLen).ring.next <= k
    ensures
      var r := Step(t, e, maxLen).ring;
      && (HasSome(r, k) <==> HasSome(t.ring, k) || Reaches(t, e, maxLen, k))
      && (p < |flight[k].body| ==> (Has(r, k, p) <==> Has(t.ring, k, p) || Brings(t, e, maxLen, k, p)))
  {
    if e.Takes? {
      if t.handedOut { TakingHas(t, k, p); }
    } else if e.Arrives? && k < t.ring.next + FLIGHT {
      ArrivalHas(flight, t, e, maxLen, k, p);
    }
  }

  /** For every message not yet taken, the receiver holds exactly the bytes that
      reached its window. */
  lemma {:induction false} CoverageExact(flight: seq<Message>, events: seq<Event>, maxLen: nat, k: nat, p: nat)
    requires ValidFlight(flight) && AllHonest(flight, events) && k < |flight|
    requires Run(events, maxLen).ring.next <= k
    ensures
      var r := Run(events, maxLen).ring;
      && (HasSome(r, k) <==> Seen(events, maxLen, k))
      && (p < |flight[k].body| ==> (Has(r, k, p) <==> Covered(events, maxLen, k, p)))
    decreases |events|
  {
    if events != [] {
      var before, e := events[..|events| - 1], events[|events| - 1];
      var t := Run(before, maxLen);
      DeliversTheFlight(flight, before, maxLen);
      CoverageExact(flight, before, maxLen, k, p);
      StepHas(flight, t, e, maxLen, k, p);
    }
  }

  ghost predicate HasAll(r: Ring, k: nat, n: nat)
    requires Valid(r)
  {
    forall p :: 0 <= p < n ==> Has(r, k, p)
  }

  lemma {:induction false} CompleteHas(flight: seq<Message>, r: Ring)
    requires Valid(r) && r.next < |flight| && Agrees(flight, Current(r))
    ensures CurrentComplete(r) <==> HasSome(r, r.next) && HasAll(r, r.next, |flight[r.next].body|)
    ensures CurrentComplete(r) ==> |flight[r.next].body| < 0x100_0000 && r.next < 0x1_0000
                                   && Current(r).data == Raw(flight[r.next], r.next)
  {
    if Current(r).Held? {
      SamePlace(r.next, Current(r).seqNum, r.next);
      assert forall p :: 0 <= p < |flight[r.next].body| ==> (Has(r, r.next, p) <==> Current(r).got[p]);
      if Whole(Current(r).got) { WholeIsRaw(flight, Current(r)); }
    }
  }

  /** Every byte of message k was brought to the window. */
  ghost predicate CoveredAll(flight: seq<Message>, events: seq<Event>, maxLen: nat, k: nat)
    requires AllHonest(flight, events) && k < |flight|
  {
    forall p :: 0 <= p < |flight[k].body| ==> Covered(events, maxLen, k, p)
  }

  lemma {:induction false} HasAllCovered(flight: seq<Message>, events: seq<Event>, maxLen: nat, r: Ring, k: nat)
    requires ValidFlight(flight) && AllHonest(flight, events) && k < |flight|
    requires r == Run(events, maxLen).ring && r.next <= k
    ensures HasAll(r, k, |flight[k].body|) <==> CoveredAll(flight, events, maxLen, k)
  {
    forall p | 0 <= p < |flight[k].body| ensures Has(r, k, p) <==> Covered(events, maxLen, k, p) {
      CoverageExact(flight, events, maxLen, k, p);
    }
  }

  /** The next message is complete exactly when its fragments that reached the
      window cover it, and then it is the sender's message. */
  lemma {:induction false} CompleteIffCovered(flight: seq<Message>, events: seq<Event>, maxLen: nat, r: Ring)
    requires ValidFlight(flight) && AllHonest(flight, events)
    requires r == Run(events, maxLen).ring && r.next < |flight|
    ensures CurrentComplete(r) <==>
              Seen(events, maxLen, r.next) && CoveredAll(flight, events, maxLen, r.next)
    ensures CurrentComplete(r) ==> Current(r).data == Raw(flight[r.next], r.next)
  {
    DeliversTheFlight(flight, events, maxLen);
    CompleteHas(flight, r);
    CoverageExact(flight, events, maxLen, r.next, 0);
    HasAllCovered(flight, events, maxLen, r, r.next);
  }
}
