/** The receiving side as an object: the ring of incoming messages, the read epoch and
    the two flags beside them. What is proved of every run holds of the object. */
module DtlsReceiver {
  import opened Options
  import opened Bytes
  import opened DtlsFragment
  import opened DtlsRing
  import opened DtlsRun

  datatype RecordType = ApplicationData | ChangeCipherSpec | HandshakeRecord | OtherType

  datatype OpenResult = Opened | Discard | Alert(why: Status)

  function ViewSlot(f: Option<Fragment>, got: Received): Slot {
    match f
    case None => Empty
    case Some(x) => Held(x.kind, x.seqNum, x.msgLen, x.data, got)
  }

  function ViewOf(readSeq: nat, incoming: seq<Option<Fragment>>, got: seq<Received>): Ring
    requires |incoming| == FLIGHT && |got| == FLIGHT
  {
    Ring(readSeq, seq(FLIGHT, i requires 0 <= i < FLIGHT => ViewSlot(incoming[i], got[i])))
  }

  /** A raw message whose header carries the number k. */
  predicate Numbered(raw: seq<byte>, k: nat) { |raw| >= HEADER_LEN && k <= 0xffff && raw[4..6] == U16(k) }

  /** The k-th message taken carries number k. */
  predicate AllNumbered(delivered: seq<seq<byte>>) {
    forall k :: 0 <= k < |delivered| ==> Numbered(delivered[k], k)
  }

  lemma {:induction false} NumberedMore(delivered: seq<seq<byte>>, data: seq<byte>)
    requires AllNumbered(delivered) && Numbered(data, |delivered|)
    ensures AllNumbered(delivered + [data])
  {
  }

  lemma {:induction false} HoldsNumber(f: Fragment, got: Received)
    requires Holds(f, got)
    ensures Numbered(f.data, f.seqNum)
  {
    var h := Header(f.kind, f.msgLen, f.seqNum, 0, f.msgLen);
    assert f.data[..HEADER_LEN][4..6] == f.data[4..6];
    assert EncodeHeader(h)[4..6] == U16(f.seqNum);
  }

  predicate InWindow(next: nat, h: Header) { next <= h.seqNum < next + FLIGHT }

  /** The message that a fragment belongs to: the one held, or a new one. */
  function SlotFor(r: Ring, h: Header): Slot
    requires Valid(r) && h.Fits()
  {
    var s := r.slots[h.seqNum % FLIGHT];
    if s.Empty? then Fresh(h) else s
  }

  predicate Compatible(r: Ring, h: Header)
    requires Valid(r) && h.Fits()
  {
    SlotFor(r, h).kind == h.kind && SlotFor(r, h).msgLen == h.msgLen
  }

  function Found(r: Ring, h: Header): Ring
    requires Valid(r) && h.Fits()
  {
    r.(slots := r.slots[h.seqNum % FLIGHT := SlotFor(r, h)])
  }

  /** The fragments of one handshake record that are read: up to the first error. */
  function Arrivals(r: Ring, epoch: nat, maxLen: nat, record: seq<byte>): (events: seq<Event>)
    requires DtlsRing.Valid(r)
    ensures AllFit(events)
    decreases |record|
  {
    var parsed := if record == [] then None else ParseFragment(record);
    if parsed.None? then []
    else
      var p := parsed.value;
      var step := ReadFragment(r, epoch, maxLen, p.header, p.body);
      [Arrives(p.header, p.body)] + (if step.0.Success? then Arrivals(step.1, epoch, maxLen, p.rest) else [])
  }

  /** The first fragment of a record, and the others. */
  lemma {:induction false} ReadOne(r: Ring, epoch: nat, maxLen: nat, record: seq<byte>, p: Parsed,
        step: (Status, Ring), events: seq<Event>)
    requires DtlsRing.Valid(r) && record != [] && ParseFragment(record) == Some(p)
    requires step == ReadFragment(r, epoch, maxLen, p.header, p.body)
    ensures ReadRecord(r, epoch, maxLen, record)
            == if step.0.Success? then ReadRecord(step.1, epoch, maxLen, p.rest) else step
    ensures events + Arrivals(r, epoch, maxLen, record)
            == events + [Arrives(p.header, p.body)]
               + (if step.0.Success? then Arrivals(step.1, epoch, maxLen, p.rest) else [])
  {
    ArrivesFirst(r, epoch, maxLen, record, p, step, events);
  }

  lemma {:induction false} ArrivesFirst(r: Ring, epoch: nat, maxLen: nat, record: seq<byte>, p: Parsed,
        step: (Status, Ring), events: seq<Event>)
    requires DtlsRing.Valid(r) && record != [] && ParseFragment(record) == Some(p)
    requires step == ReadFragment(r, epoch, maxLen, p.header, p.body)
    ensures events + Arrivals(r, epoch, maxLen, record)
            == events + [Arrives(p.header, p.body)]
               + (if step.0.Success? then Arrivals(step.1, epoch, maxLen, p.rest) else [])
  {
    var rest := if step.0.Success? then Arrivals(step.1, epoch, maxLen, p.rest) else [];
    assert Arrivals(r, epoch, maxLen, record) == [Arrives(p.header, p.body)] + rest;
    assert events + ([Arrives(p.header, p.body)] + rest) == events + [Arrives(p.header, p.body)] + rest;
  }

  lemma {:induction false} RunSwitches(events: seq<Event>, maxLen: nat, t: Trace)
    requires AllFit(events) && t == Run(events, maxLen)
    ensures AllFit(events + [Switches])
    ensures Run(events + [Switches], maxLen) == if t.Settled() then t.(switches := t.switches + 1) else t
  {
    RunMore(events, Switches, maxLen);
  }

  lemma {:induction false} EpochMoves(t: Trace)
    ensures t.(switches := t.switches + 1).Epoch() == (t.Epoch() + 1) % 0x1_0000
  {
  }

  lemma {:induction false} RunTakes(events: seq<Event>, maxLen: nat, t: Trace)
    requires AllFit(events) && t == Run(events, maxLen) && t.handedOut
    ensures AllFit(events + [Takes])
    ensures Run(events + [Takes], maxLen)
            == t.(ring := NextMessage(t.ring), handedOut := false, delivered := t.delivered + [Current(t.ring).data])
  {
    RunMore(events, Takes, maxLen);
  }

  /** What dtls1_open_handshake answers to a record. */
  function Answer(r: Ring, epoch: nat, maxLen: nat, kind: RecordType, encrypted: bool, record: seq<byte>): OpenResult
    requires DtlsRing.Valid(r)
  {
    match kind
    case HandshakeRecord => var s := ReadRecord(r, epoch, maxLen, record).0; if s.Success? then Opened else Alert(s)
    case ApplicationData => if encrypted then Discard else Alert(UnexpectedMessage)
    case ChangeCipherSpec =>
      if encrypted then Alert(UnexpectedMessage) else if record == [1] then Opened else Alert(IllegalParameter)
    case OtherType => Alert(UnexpectedMessage)
  }

  /** What happens when a record is opened. */
  function Opening(r: Ring, epoch: nat, maxLen: nat, kind: RecordType, encrypted: bool, record: seq<byte>): seq<Event>
    requires DtlsRing.Valid(r)
  {
    match kind
    case HandshakeRecord => Arrivals(r, epoch, maxLen, record)
    case ChangeCipherSpec => if Answer(r, epoch, maxLen, kind, encrypted, record).Opened? then [Flags] else []
    case _ => []
  }

  class Receiver {
    const maxLen: nat
    var readSeq: nat
    var epoch: nat
    var incoming: seq<Option<Fragment>>
    var hasMessage: bool
    var hasChangeCipherSpec: bool
    /** Which bytes each slot has, the messages taken so far, and how often the read
        epoch has changed. */
    ghost var got: seq<Received>
    ghost var delivered: seq<seq<byte>>
    ghost var switches: nat
    /** Everything that has happened. */
    ghost var events: seq<Event>

    ghost function View(): Ring
      requires |incoming| == FLIGHT && |got| == FLIGHT
      reads `readSeq, `incoming, `got
    {
      ViewOf(readSeq, incoming, got)
    }

    ghost function Now(): Trace
      requires |incoming| == FLIGHT && |got| == FLIGHT
      reads this
    {
      Trace(View(), switches, hasMessage, hasChangeCipherSpec, delivered)
    }

    ghost predicate SlotsHold()
      reads `readSeq, `incoming, `got
    {
      && |incoming| == FLIGHT && |got| == FLIGHT
      && (forall i :: 0 <= i < FLIGHT && incoming[i].Some? ==> Holds(incoming[i].value, got[i]))
      && DtlsRing.Valid(View())
    }

    /** The object is where its run has led. */
    ghost predicate Valid()
      reads this
    {
      && SlotsHold() && AllNumbered(delivered) && |delivered| == readSeq <= 0xffff
      && AllFit(events) && Run(events, maxLen) == Now() && epoch == Now().Epoch()
    }

    constructor (maxLen: nat)
      ensures Valid() && View() == Start() && delivered == [] && events == []
    {
      this.maxLen := maxLen;
      readSeq, epoch, hasMessage, hasChangeCipherSpec := 0, 0, false, false;
      incoming := seq(FLIGHT, _ => None);
      got := seq(FLIGHT, _ => []);
      delivered, switches, events := [], 0, [];
    }

    /** dtls1_get_incoming_message: finds or creates the message, and checks that the
        fragment is compatible with it. */
    method GetIncoming(h: Header) returns (status: Status)
      requires SlotsHold() && h.Fits()
      modifies `incoming, `got
      ensures SlotsHold()
      ensures status == (if !InWindow(readSeq, h) then InternalError
                         else if !Compatible(old(View()), h) then IllegalParameter else Success)
      ensures View() == if status.Success? then Found(old(View()), h) else old(View())
    {
      if h.seqNum < readSeq || h.seqNum - readSeq >= FLIGHT { return InternalError; }
      var i := h.seqNum % FLIGHT;
      ghost var before := View();
      if incoming[i].Some? {
        assert before.slots[i].seqNum == h.seqNum;
        if incoming[i].value.kind != h.kind || incoming[i].value.msgLen != h.msgLen { return IllegalParameter; }
        assert before.slots[i := before.slots[i]] == before.slots;
        return Success;
      }
      NewHoldsNothing(h);
      incoming := incoming[i := Some(NewFragment(h))];
      got := got[i := Nothing(h.msgLen)];
      assert View() == before.(slots := before.slots[i := Fresh(h)]);
      return Success;
    }

    /** Copies a fragment into its message, unless that is complete already. */
    method StoreFragment(i: nat, off: nat, body: seq<byte>)
      requires SlotsHold() && i < FLIGHT && incoming[i].Some? && off + |body| <= incoming[i].value.msgLen
      modifies `incoming, `got
      ensures SlotsHold()
      ensures View() == old(View()).(slots := old(View()).slots[i := Absorb(old(View()).slots[i], off, body)])
    {
      ghost var before := View();
      ghost var whole := incoming[i].value.complete;
      var f := CopyIn(incoming[i].value, got[i], off, body);
      incoming := incoming[i := Some(f)];
      if !whole { got := got[i := Receive(got[i], off, off + |body|)]; }
      assert View() == before.(slots := before.slots[i := Absorb(before.slots[i], off, body)]);
    }

    /** The loop body of dtls1_open_handshake, for one parsed fragment. */
    method TakeFragment(h: Header, body: seq<byte>) returns (status: Status)
      requires Valid() && h.Fits() && |body| == h.fragLen
      modifies `incoming, `got, `events
      ensures Valid() && (status, View()) == ReadFragment(old(View()), epoch, maxLen, h, body)
      ensures events == old(events) + [Arrives(h, body)]
    {
      RunMore(events, Arrives(h, body), maxLen);
      status := AbsorbFragment(h, body);
      events := events + [Arrives(h, body)];
    }

    method AbsorbFragment(h: Header, body: seq<byte>) returns (status: Status)
      requires SlotsHold() && h.Fits() && |body| == h.fragLen
      modifies `incoming, `got
      ensures SlotsHold() && (status, View()) == ReadFragment(old(View()), epoch, maxLen, h, body)
    {
      if h.fragOff > h.msgLen || h.fragOff + h.fragLen > h.msgLen || h.msgLen > maxLen { return IllegalParameter; }
      if epoch == 1 && h.seqNum != readSeq { return UnexpectedMessage; }
      if h.seqNum < readSeq || h.seqNum > readSeq + FLIGHT { return Success; }
      status := GetIncoming(h);
      if !status.Success? { return; }
      ghost var found := View().slots;
      assert found[h.seqNum % FLIGHT].Held?;
      StoreFragment(h.seqNum % FLIGHT, h.fragOff, body);
      assert View().slots == old(View()).slots[h.seqNum % FLIGHT := Absorb(found[h.seqNum % FLIGHT], h.fragOff, body)];
    }

    /** dtls1_open_handshake, from the opened record on. */
    method OpenHandshake(kind: RecordType, encrypted: bool, record: seq<byte>) returns (r: OpenResult)
      requires Valid()
      modifies `incoming, `got, `events, `hasChangeCipherSpec
      ensures Valid()
      ensures r == old(Answer(View(), epoch, maxLen, kind, encrypted, record))
      ensures r == Discard <==> kind.ApplicationData? && encrypted
      ensures kind.ApplicationData? && !encrypted ==> r == Alert(UnexpectedMessage)
      ensures kind.ChangeCipherSpec? ==> r == if encrypted then Alert(UnexpectedMessage)
                                              else if record == [1] then Opened else Alert(IllegalParameter)
      ensures kind.OtherType? ==> r == Alert(UnexpectedMessage)
      ensures kind.HandshakeRecord? ==>
                var status := ReadRecord(old(View()), epoch, maxLen, record).0;
                r == if status.Success? then Opened else Alert(status)
      ensures events == old(events + Opening(View(), epoch, maxLen, kind, encrypted, record))
      ensures View() == if kind.HandshakeRecord? then ReadRecord(old(View()), epoch, maxLen, record).1 else old(View())
      ensures hasChangeCipherSpec <==> old(hasChangeCipherSpec) || (kind.ChangeCipherSpec? && r.Opened?)
    {
      match kind {
        case ApplicationData => return if encrypted then Discard else Alert(UnexpectedMessage);
        case ChangeCipherSpec =>
          if encrypted { return Alert(UnexpectedMessage); }
          if |record| != 1 || record[0] != 1 { return Alert(IllegalParameter); }
          RunMore(events, Flags, maxLen);
          hasChangeCipherSpec := true;
          events := events + [Flags];
          return Opened;
        case OtherType => return Alert(UnexpectedMessage);
        case HandshakeRecord => r := ReadFragments(record);
      }
    }

    /** The loop of dtls1_open_handshake. */
    method ReadFragments(record: seq<byte>) returns (r: OpenResult)
      requires Valid()
      modifies `incoming, `got, `events
      ensures Valid()
      ensures
        var res := ReadRecord(old(View()), epoch, maxLen, record);
        r == (if res.0.Success? then Opened else Alert(res.0)) && View() == res.1
      ensures events == old(events) + Arrivals(old(View()), epoch, maxLen, record)
    {
      ghost var whole := ReadRecord(View(), epoch, maxLen, record);
      ghost var all := events + Arrivals(View(), epoch, maxLen, record);
      var rest := record;
      while |rest| > 0
        invariant Valid()
        invariant ReadRecord(View(), epoch, maxLen, rest) == whole
        invariant events + Arrivals(View(), epoch, maxLen, rest) == all
        decreases |rest|
      {
        var parsed := ParseFragment(rest);
        if parsed.None? { return Alert(DecodeError); }
        var status := ReadFirst(rest, parsed.value, whole, all);
        if !status.Success? { return Alert(status); }
        rest := parsed.value.rest;
      }
      assert rest == [];
      return Opened;
    }

    /** One turn of that loop. `whole` and `all` are what reading all of the record
        comes to. */
    method ReadFirst(record: seq<byte>, p: Parsed, ghost whole: (Status, Ring), ghost all: seq<Event>)
      returns (status: Status)
      requires Valid() && record != [] && ParseFragment(record) == Some(p)
      requires whole == ReadRecord(View(), epoch, maxLen, record)
      requires all == events + Arrivals(View(), epoch, maxLen, record)
      modifies `incoming, `got, `events
      ensures Valid()
      ensures if status.Success? then whole == ReadRecord(View(), epoch, maxLen, p.rest)
                                      && all == events + Arrivals(View(), epoch, maxLen, p.rest)
              else whole == (status, View()) && all == events
    {
      ReadOne(View(), epoch, maxLen, record, p, ReadFragment(View(), epoch, maxLen, p.header, p.body), events);
      assert events + [Arrives(p.header, p.body)] + [] == events + [Arrives(p.header, p.body)];
      status := TakeFragment(p.header, p.body);
    }

    /** dtls1_get_message. */
    method GetMessage() returns (raw: Option<seq<byte>>)
      requires Valid()
      modifies `hasMessage, `events
      ensures Valid() && hasMessage == CurrentComplete(View()) && events == old(events) + [HandsOut]
      ensures raw == if CurrentComplete(View()) then Some(Current(View()).data) else None
    {
      RunMore(events, HandsOut, maxLen);
      events := events + [HandsOut];
      var f := incoming[readSeq % FLIGHT];
      assert View().slots[readSeq % FLIGHT] == ViewSlot(f, got[readSeq % FLIGHT]);
      if f.None? || !f.value.complete { return None; }
      hasMessage := true;
      return Some(f.value.data);
    }

    /** dtls1_next_message. The 16-bit message number is not allowed to wrap. */
    method TakeMessage()
      requires Valid() && hasMessage && readSeq < 0xffff
      modifies `incoming, `readSeq, `hasMessage, `delivered, `events
      ensures Valid() && View() == NextMessage(old(View())) && !hasMessage
      ensures delivered == old(delivered) + [Current(old(View())).data] && events == old(events) + [Takes]
    {
      RunTakes(events, maxLen, Now());
      events := events + [Takes];
      var data := DropCurrent();
      NumberedMore(delivered, data);
      delivered := delivered + [data];
      hasMessage := false;
    }

    method DropCurrent() returns (data: seq<byte>)
      requires SlotsHold() && CurrentComplete(View()) && readSeq < 0xffff
      modifies `incoming, `readSeq
      ensures SlotsHold() && View() == NextMessage(old(View())) && readSeq == old(readSeq) + 1
      ensures data == Current(old(View())).data && Numbered(data, old(readSeq))
    {
      var index := readSeq % FLIGHT;
      ghost var before := View();
      assert before.slots[index].seqNum == readSeq;
      HoldsNumber(incoming[index].value, got[index]);
      data := incoming[index].value.data;
      incoming := incoming[index := None];
      readSeq := readSeq + 1;
      assert View() == NextMessage(before);
    }

    /** dtls_has_unprocessed_handshake_data. */
    method HasUnprocessed() returns (b: bool)
      requires Valid()
      ensures b <==> !Now().Settled()
      ensures b <==> hasChangeCipherSpec
                     || exists i :: 0 <= i < FLIGHT && incoming[i].Some? && !(hasMessage && i == readSeq % FLIGHT)
    {
      if hasChangeCipherSpec { return true; }
      assert forall i :: 0 <= i < FLIGHT ==> View().slots[i].Held? == incoming[i].Some?;
      for i := 0 to FLIGHT
        invariant forall j :: 0 <= j < i && incoming[j].Some? ==> hasMessage && j == readSeq % FLIGHT
      {
        if hasMessage && i == readSeq % FLIGHT { continue; }
        if incoming[i].Some? { return true; }
      }
      return false;
    }

    /** dtls1_set_read_state: refused exactly while messages are left over. The epoch
        has 16 bits. */
    method SetReadState() returns (ok: bool)
      requires Valid()
      modifies `epoch, `switches, `events
      ensures Valid() && ok == old(Now().Settled()) && events == old(events) + [Switches]
      ensures ok <==> !hasChangeCipherSpec
                      && forall i :: 0 <= i < FLIGHT && incoming[i].Some? ==> hasMessage && i == readSeq % FLIGHT
      ensures if ok then epoch == (old(epoch) + 1) % 0x1_0000 && switches == old(switches) + 1
              else epoch == old(epoch) && switches == old(switches)
    {
      var left := HasUnprocessed();
      if left { KeepEpoch(); } else { NextEpoch(); }
      return !left;
    }

    method KeepEpoch()
      requires Valid() && !Now().Settled()
      modifies `events
      ensures Valid() && events == old(events) + [Switches]
    {
      RunSwitches(events, maxLen, Now());
      events := events + [Switches];
    }

    method NextEpoch()
      requires Valid() && Now().Settled()
      modifies `epoch, `switches, `events
      ensures Valid() && events == old(events) + [Switches]
      ensures epoch == (old(epoch) + 1) % 0x1_0000 && switches == old(switches) + 1
    {
      RunSwitches(events, maxLen, Now());
      EpochMoves(Now());
      events := events + [Switches];
      epoch := (epoch + 1) % 0x1_0000;
      switches := switches + 1;
    }

    /** dtls1_open_change_cipher_spec: takes a flagged ChangeCipherSpec, reading
        the record first if none is flagged. */
    method OpenChangeCipherSpec(kind: RecordType, encrypted: bool, record: seq<byte>) returns (r: OpenResult)
      requires Valid()
      modifies `incoming, `got, `events, `hasChangeCipherSpec
      ensures Valid() && !hasChangeCipherSpec
      ensures
        var answer := old(Answer(View(), epoch, maxLen, kind, encrypted, record));
        var opening := old(Opening(View(), epoch, maxLen, kind, encrypted, record));
        if old(hasChangeCipherSpec) then r == Opened && events == old(events) + [TakesFlag]
        else if kind.ChangeCipherSpec? && answer.Opened?
        then r == Opened && events == old(events) + opening + [TakesFlag]
        else r == (if answer.Opened? then Discard else answer) && events == old(events) + opening
      ensures View() == if !old(hasChangeCipherSpec) && kind.HandshakeRecord?
                        then ReadRecord(old(View()), epoch, maxLen, record).1 else old(View())
    {
      if !hasChangeCipherSpec {
        r := OpenHandshake(kind, encrypted, record);
        if !r.Opened? { return; }
      }
      if hasChangeCipherSpec {
        RunMore(events, TakesFlag, maxLen);
        hasChangeCipherSpec := false;
        events := events + [TakesFlag];
        return Opened;
      }
      return Discard;
    }
  }

  /** No message that a receiver hands on mixes fragments of two read epochs. */
  lemma {:induction false} DeliveredFromOneEpoch(x: Receiver, k: nat) returns (switches: nat)
    requires x.Valid() && k < x.readSeq
    ensures forall p :: 0 <= p < |x.delivered[k]| - HEADER_LEN ==> Brought(x.events, x.maxLen, k, p)
    ensures forall i :: 0 <= i < |x.events| && AddsAt(x.events, i, x.maxLen, k) ==>
              SwitchesAt(x.events, i, x.maxLen) == switches
  {
    switches := TakenFromOneEpoch(x.events, x.maxLen, k, x.Now());
  }
}
