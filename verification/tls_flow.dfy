/** Spans of a script: what of it is still to be received. */
module TlsScript {
  import opened TlsMessages

  /** One slot of a script: whose it is, whether it is sent, and the record. */
  datatype Entry = Entry(sender: Role, present: bool, record: Record)

  /** The records of the present slots from i up to j. */
  function Items(script: seq<Entry>, i: nat, j: nat): seq<Record>
    requires j <= |script|
    decreases j
  {
    if i >= j then [] else Items(script, i, j - 1) + When(script[j - 1].present, script[j - 1].record)
  }

  /** The first present slot from k on, or the end. */
  function NextPresent(script: seq<Entry>, k: nat): (n: nat)
    requires k <= |script|
    ensures k <= n <= |script|
    ensures n < |script| ==> script[n].present
    decreases |script| - k
  {
    if k == |script| || script[k].present then k else NextPresent(script, k + 1)
  }

  lemma {:induction false} ItemsSplit(script: seq<Entry>, i: nat, m: nat, j: nat)
    requires i <= m <= j <= |script|
    ensures Items(script, i, j) == Items(script, i, m) + Items(script, m, j)
    decreases j
  {
    if m < j { ItemsSplit(script, i, m, j - 1); }
  }

  /** Between i and j every present slot is this side's. */
  predicate OnlyFrom(script: seq<Entry>, i: nat, j: nat, side: Role)
    requires j <= |script|
  {
    forall k :: i <= k < j && script[k].present ==> script[k].sender == side
  }

  lemma {:induction false} NonePresent(script: seq<Entry>, i: nat, j: nat)
    requires j <= |script|
    requires OnlyFrom(script, i, j, Client) && OnlyFrom(script, i, j, Server)
    ensures Items(script, i, j) == []
    decreases j
  {
    if i < j {
      assert !script[j - 1].present;
      NonePresent(script, i, j - 1);
    }
  }

  /** The first record of a span is its first present slot. */
  lemma {:induction false} ItemsHead(script: seq<Entry>, i: nat, j: nat)
    requires i <= j <= |script| && Items(script, i, j) != []
    ensures
      var k := NextPresent(script, i);
      k < j && Items(script, i, j) == [script[k].record] + Items(script, k + 1, j)
    decreases j - i
  {
    ItemsSplit(script, i, i + 1, j);
    assert Items(script, i, i) == [];
    if script[i].present {
      assert Items(script, i, i + 1) == [script[i].record];
    } else {
      assert Items(script, i, j) == Items(script, i + 1, j);
      ItemsHead(script, i + 1, j);
    }
  }

  lemma {:induction false} EmptySpan(script: seq<Entry>, i: nat, j: nat)
    requires i <= j <= |script| && Items(script, i, j) == []
    ensures NextPresent(script, i) == NextPresent(script, j)
    decreases j - i
  {
    if i < j {
      ItemsSplit(script, i, i + 1, j);
      EmptySpan(script, i + 1, j);
    }
  }

  /** A ChangeCipherSpec is not a handshake message and is not hashed. */
  function Hashed(e: Entry): seq<Msg> {
    if e.present && e.record.Handshake? then [e.record.msg] else []
  }

  /** The handshake messages of the present slots before k. */
  function Transcript(script: seq<Entry>, k: nat): seq<Msg>
    requires k <= |script|
  {
    if k == 0 then [] else Transcript(script, k - 1) + Hashed(script[k - 1])
  }

  lemma {:induction false} TranscriptOfPrefix(script: seq<Entry>, more: seq<Entry>, k: nat)
    requires k <= |script|
    ensures Transcript(script + more, k) == Transcript(script, k)
  {
    if k > 0 { TranscriptOfPrefix(script, more, k - 1); }
  }

  /** What the script shows at slot k. */
  lemma {:induction false} Here(script: seq<Entry>, k: nat)
    requires k < |script|
    ensures Items(script, k, k) == []
    ensures Items(script, k, k + 1) == When(script[k].present, script[k].record)
    ensures script[k].present ==> NextPresent(script, k) == k
    ensures !script[k].present ==> NextPresent(script, k) == NextPresent(script, k + 1)
    ensures Transcript(script, k + 1) == Transcript(script, k) + Hashed(script[k])
  {
  }

  /** A flight and transcript that match the script up to slot k match it up to
      the next once the message of slot k, if any, is added. */
  lemma {:induction false} AddsMessage(script: seq<Entry>, at: nat, k: nat, base: seq<Record>, flight: seq<Record>,
        t: seq<Msg>, m: Msg)
    requires at <= k < |script| && script[k].record == Handshake(m)
    requires flight == base + Items(script, at, k) && t == Transcript(script, k)
    ensures flight + Wrap(When(script[k].present, m)) == base + Items(script, at, k + 1)
    ensures t + When(script[k].present, m) == Transcript(script, k + 1)
  {
    assert Wrap(When(script[k].present, m)) == When(script[k].present, Handshake(m));
    assert (base + Items(script, at, k)) + When(script[k].present, Handshake(m))
           == base + (Items(script, at, k) + When(script[k].present, Handshake(m)));
  }

  /** The same from the start of a flight. */
  lemma {:induction false} AddsFirst(script: seq<Entry>, at: nat, base: seq<Record>, t: seq<Msg>, m: Msg)
    requires at < |script| && script[at].record == Handshake(m) && t == Transcript(script, at)
    ensures base + Wrap(When(script[at].present, m)) == base + Items(script, at, at + 1)
    ensures t + When(script[at].present, m) == Transcript(script, at + 1)
  {
    Here(script, at);
    assert base + [] == base;
    AddsMessage(script, at, at, base, base, t, m);
  }

  /** The same of two slots. */
  lemma {:induction false} AddsTwo(script: seq<Entry>, at: nat, base: seq<Record>, t: seq<Msg>, m: Msg, n: Msg,
        first: seq<Msg>, second: seq<Msg>)
    requires at + 2 <= |script| && script[at].record == Handshake(m) && script[at + 1].record == Handshake(n)
    requires first == When(script[at].present, m) && second == When(script[at + 1].present, n)
    requires t == Transcript(script, at)
    ensures base + Wrap(first) + Wrap(second) == base + Items(script, at, at + 2)
    ensures t + first + second == Transcript(script, at + 2)
  {
    AddsFirst(script, at, base, t, m);
    AddsMessage(script, at, at + 1, base, base + Wrap(first), t + first, n);
  }

  lemma {:induction false} AddsChangeCipherSpec(script: seq<Entry>, at: nat, k: nat, base: seq<Record>,
        flight: seq<Record>, t: seq<Msg>)
    requires at <= k < |script| && script[k].record.ChangeCipherSpec? && script[k].present
    requires flight == base + Items(script, at, k) && t == Transcript(script, k)
    ensures flight + [ChangeCipherSpec] == base + Items(script, at, k + 1)
    ensures t == Transcript(script, k + 1)
  {
    assert Items(script, at, k + 1) == Items(script, at, k) + [ChangeCipherSpec];
  }

  /** What one side has sent and the other has not yet consumed: the messages the
      receiver holds, the records in flight, and the sender's unflushed flight
      are together the span of the script between the two positions. */
  predicate Link(script: seq<Entry>, side: Role, sent: nat, got: nat, inbox: seq<Msg>, channel: seq<Record>,
        pending: seq<Record>)
    requires sent <= |script| && got <= |script|
  {
    && Wrap(inbox) + channel + pending == Items(script, got, sent)
    && OnlyFrom(script, got, sent, side)
  }

  function Other(side: Role): Role { if side.Client? then Server else Client }

  /** Records that are sent lengthen the span by its own continuation. */
  lemma {:induction false} SpanGrows(script: seq<Entry>, at: nat, next: nat, peer: nat, inbox: seq<Record>,
        channel: seq<Record>, pending: seq<Record>)
    requires peer <= at <= next <= |script|
    requires inbox + channel + pending == Items(script, peer, at)
    ensures inbox + channel + (pending + Items(script, at, next)) == Items(script, peer, next)
  {
    ItemsSplit(script, peer, at, next);
    assert (inbox + channel + pending) + Items(script, at, next)
           == inbox + channel + (pending + Items(script, at, next));
  }

  /** Before the other side's position there was nothing left to send. */
  lemma {:induction false} SpanStarts(script: seq<Entry>, side: Role, at: nat, next: nat, peer: nat)
    requires at <= next <= |script| && at < peer <= |script|
    requires OnlyFrom(script, at, next, side) && OnlyFrom(script, at, peer, Other(side))
    ensures Items(script, at, next) == Items(script, peer, next)
    ensures Items(script, next, peer) == Items(script, at, peer)
  {
    var m := if next < peer then next else peer;
    NonePresent(script, at, m);
    ItemsSplit(script, at, m, next);
    ItemsSplit(script, at, m, peer);
  }

  /** Sending (or passing over) its own slots, a side extends what it owes the
      other and changes nothing of what the other owes it. */
  lemma {:induction false} LinkSent(script: seq<Entry>, side: Role, at: nat, next: nat, peer: nat, inbox: seq<Msg>,
        channel: seq<Record>, pending: seq<Record>, backInbox: seq<Msg>, backChannel: seq<Record>,
        backPending: seq<Record>)
    requires at <= next <= |script| && peer <= |script|
    requires Link(script, side, at, peer, inbox, channel, pending)
    requires Link(script, Other(side), peer, at, backInbox, backChannel, backPending)
    requires OnlyFrom(script, at, next, side)
    ensures Link(script, side, next, peer, inbox, channel, pending + Items(script, at, next))
    ensures Link(script, Other(side), peer, next, backInbox, backChannel, backPending)
  {
    if peer <= at { SpanGrows(script, at, next, peer, Wrap(inbox), channel, pending); }
    else { SpanStarts(script, side, at, next, peer); }
  }

  /** The first record a side owes is that of its first unconsumed slot; once it
      is taken, the queue is the rest of the span. */
  lemma {:induction false} LinkTake(script: seq<Entry>, side: Role, at: nat, peer: nat, queue: seq<Record>,
        outInbox: seq<Msg>, outChannel: seq<Record>, outPending: seq<Record>)
    requires at <= |script| && peer <= |script| && queue != []
    requires queue == Items(script, at, peer) && OnlyFrom(script, at, peer, Other(side))
    requires Link(script, side, at, peer, outInbox, outChannel, outPending)
    ensures
      var k := NextPresent(script, at);
      && k < peer && script[k] == Entry(Other(side), true, queue[0])
      && queue[1..] == Items(script, k + 1, peer) && OnlyFrom(script, k + 1, peer, Other(side))
      && Link(script, side, k + 1, peer, outInbox, outChannel, outPending)
  {
    ItemsHead(script, at, peer);
  }

  /** Consuming the message it holds, a side moves past the slot it came from. */
  lemma {:induction false} LinkRead(script: seq<Entry>, side: Role, at: nat, peer: nat, m: Msg, channel: seq<Record>,
        pending: seq<Record>, outInbox: seq<Msg>, outChannel: seq<Record>, outPending: seq<Record>)
    requires at <= |script| && peer <= |script|
    requires Link(script, Other(side), peer, at, [m], channel, pending)
    requires Link(script, side, at, peer, outInbox, outChannel, outPending)
    ensures
      var k := NextPresent(script, at);
      && k < peer && script[k] == Entry(Other(side), true, Handshake(m))
      && Link(script, Other(side), peer, k + 1, [], channel, pending)
      && Link(script, side, k + 1, peer, outInbox, outChannel, outPending)
  {
    var queue := Wrap([m]) + channel + pending;
    assert queue[0] == Handshake(m);
    LinkTake(script, side, at, peer, queue, outInbox, outChannel, outPending);
    assert queue[1..] == Wrap([]) + channel + pending;
  }

  /** Moving a record from the flight to the channel, or from the channel to the
      receiver, changes nothing of what is owed. */
  lemma {:induction false} LinkLeaves(script: seq<Entry>, side: Role, sent: nat, got: nat, inbox: seq<Msg>,
        channel: seq<Record>, pending: seq<Record>)
    requires sent <= |script| && got <= |script| && pending != []
    requires Link(script, side, sent, got, inbox, channel, pending)
    ensures Link(script, side, sent, got, inbox, channel + [pending[0]], pending[1..])
  {
    assert Wrap(inbox) + (channel + [pending[0]]) + pending[1..] == Wrap(inbox) + channel + pending;
  }

  lemma {:induction false} LinkArrives(script: seq<Entry>, side: Role, sent: nat, got: nat, channel: seq<Record>,
        pending: seq<Record>)
    requires sent <= |script| && got <= |script| && channel != [] && channel[0].Handshake?
    requires Link(script, side, sent, got, [], channel, pending)
    ensures Link(script, side, sent, got, [channel[0].msg], channel[1..], pending)
  {
    assert Wrap([channel[0].msg]) + channel[1..] + pending == Wrap([]) + channel + pending;
  }

  /** The record at the head of the channel, when the receiver holds nothing. */
  lemma {:induction false} LinkHead(script: seq<Entry>, side: Role, at: nat, peer: nat, channel: seq<Record>,
        pending: seq<Record>, outInbox: seq<Msg>, outChannel: seq<Record>, outPending: seq<Record>)
    requires at <= |script| && peer <= |script| && channel != []
    requires Link(script, Other(side), peer, at, [], channel, pending)
    requires Link(script, side, at, peer, outInbox, outChannel, outPending)
    ensures
      var k := NextPresent(script, at);
      && k < peer && script[k] == Entry(Other(side), true, channel[0])
      && Link(script, Other(side), peer, k + 1, [], channel[1..], pending)
      && Link(script, side, k + 1, peer, outInbox, outChannel, outPending)
  {
    var queue := Wrap([]) + channel + pending;
    LinkTake(script, side, at, peer, queue, outInbox, outChannel, outPending);
    assert queue[1..] == Wrap([]) + channel[1..] + pending;
  }
}

/** The message flow of section 7.3 of RFC 5246 (with the ticket of section 3.3 of
    RFC 5077), as numbered slots: 17 in a full handshake, 9 in a resumed one.
    Nothing here refers to a machine's state. */
module TlsFlow {
  import opened TlsMessages
  import opened TlsScript

  /** What fixes the flow: whether a session is offered, what the ServerHello
      settles, and which further optional messages are sent. */
  datatype Flow = Flow(offersSession: bool, hello: Params, keyExchange: bool, certRequest: bool, clientCert: bool)

  /** Constraints every negotiation meets. */
  predicate Consistent(f: Flow) {
    && (f.hello.resumes ==> f.offersSession)
    && (f.hello.status || f.certRequest ==> f.hello.cipher.certAuth && !f.hello.resumes)
    && (f.hello.cipher.RequiresServerKeyExchange() ==> f.keyExchange)
    && (f.keyExchange ==> !f.hello.cipher.kx.RSA?)
  }

  function End(f: Flow): nat { if f.hello.resumes then 9 else 17 }

  function From(side: Role, present: bool, m: Msg): Entry { Entry(side, present, Handshake(m)) }

  /** Slot k, given the transcript before it. */
  function EntryGiven(f: Flow, k: nat, t: seq<Msg>): Entry
    requires k < End(f)
  {
    if k == 0 then From(Client, true, ClientHello(f.offersSession))
    else if k == 1 then From(Server, true, ServerHello(f.hello))
    else if f.hello.resumes then
      if k == 2 then From(Server, f.hello.ticket, NewSessionTicket(false))
      else if k == 3 then Entry(Server, true, ChangeCipherSpec)
      else if k == 4 then From(Server, true, Finished(Server, t))
      else if k == 5 then Entry(Client, true, ChangeCipherSpec)
      else if k == 6 then From(Client, f.hello.npn, NextProto)
      else if k == 7 then From(Client, f.hello.channelId, ChannelId)
      else From(Client, true, Finished(Client, t))
    else if k == 2 then From(Server, f.hello.cipher.certAuth, Certificate(true))
    else if k == 3 then From(Server, f.hello.status, CertificateStatus)
    else if k == 4 then From(Server, f.keyExchange, ServerKeyExchange)
    else if k == 5 then From(Server, f.certRequest, CertificateRequest)
    else if k == 6 then From(Server, true, ServerHelloDone)
    else if k == 7 then From(Client, f.certRequest, Certificate(f.clientCert))
    else if k == 8 then From(Client, true, ClientKeyExchange)
    else if k == 9 then From(Client, f.certRequest && f.clientCert, CertificateVerify)
    else if k == 10 then Entry(Client, true, ChangeCipherSpec)
    else if k == 11 then From(Client, f.hello.npn, NextProto)
    else if k == 12 then From(Client, f.hello.channelId, ChannelId)
    else if k == 13 then From(Client, true, Finished(Client, t))
    else if k == 14 then From(Server, f.hello.ticket, NewSessionTicket(false))
    else if k == 15 then Entry(Server, true, ChangeCipherSpec)
    else From(Server, true, Finished(Server, t))
  }

  /** The first k slots. A Finished covers the messages before it. */
  function Prefix(f: Flow, k: nat): (script: seq<Entry>)
    requires k <= End(f)
    ensures |script| == k
  {
    if k == 0 then []
    else
      var before := Prefix(f, k - 1);
      before + [EntryGiven(f, k - 1, Transcript(before, k - 1))]
  }

  function Script(f: Flow): seq<Entry> { Prefix(f, End(f)) }

  /** Slot k of the script is what section 7.3 has there, given the transcript. */
  lemma {:induction false} SlotAt(f: Flow, k: nat, n: nat)
    requires k < n <= End(f)
    ensures Prefix(f, n)[k] == EntryGiven(f, k, Transcript(Prefix(f, n), k))
  {
    var before := Prefix(f, n - 1);
    var last := [EntryGiven(f, n - 1, Transcript(before, n - 1))];
    TranscriptOfPrefix(before, last, k);
    if k < n - 1 { SlotAt(f, k, n - 1); }
  }

  lemma {:induction false} Slot(f: Flow, k: nat)
    requires k < End(f)
    ensures Script(f)[k] == EntryGiven(f, k, Transcript(Script(f), k))
  {
    SlotAt(f, k, End(f));
  }

  /** The client's last flight: ChangeCipherSpec, two optional messages, Finished. */
  predicate ClientLastFlight(f: Flow, sc: seq<Entry>, at: nat)
    requires at + 4 <= |sc|
  {
    && sc[at] == Entry(Client, true, ChangeCipherSpec)
    && sc[at + 1] == From(Client, f.hello.npn, NextProto)
    && sc[at + 2] == From(Client, f.hello.channelId, ChannelId)
    && sc[at + 3] == From(Client, true, Finished(Client, Transcript(sc, at + 3)))
  }

  /** The server's last flight: an optional ticket, ChangeCipherSpec, Finished. */
  predicate ServerLastFlight(f: Flow, sc: seq<Entry>, at: nat)
    requires at + 3 <= |sc|
  {
    && sc[at] == From(Server, f.hello.ticket, NewSessionTicket(false))
    && sc[at + 1] == Entry(Server, true, ChangeCipherSpec)
    && sc[at + 2] == From(Server, true, Finished(Server, Transcript(sc, at + 2)))
  }

  /** A resumed handshake: the abbreviated flow of section 7.3. */
  predicate ResumedSlots(f: Flow, sc: seq<Entry>)
    requires |sc| == 9
  {
    && sc[0] == From(Client, true, ClientHello(f.offersSession))
    && sc[1] == From(Server, true, ServerHello(f.hello))
    && ServerLastFlight(f, sc, 2)
    && ClientLastFlight(f, sc, 5)
  }

  predicate FullSlots(f: Flow, sc: seq<Entry>)
    requires |sc| == 17
  {
    && sc[0] == From(Client, true, ClientHello(f.offersSession))
    && sc[1] == From(Server, true, ServerHello(f.hello))
    && sc[2] == From(Server, f.hello.cipher.certAuth, Certificate(true))
    && sc[3] == From(Server, f.hello.status, CertificateStatus)
    && sc[4] == From(Server, f.keyExchange, ServerKeyExchange)
    && sc[5] == From(Server, f.certRequest, CertificateRequest)
    && sc[6] == From(Server, true, ServerHelloDone)
    && sc[7] == From(Client, f.certRequest, Certificate(f.clientCert))
    && sc[8] == From(Client, true, ClientKeyExchange)
    && sc[9] == From(Client, f.certRequest && f.clientCert, CertificateVerify)
    && ClientLastFlight(f, sc, 10)
    && ServerLastFlight(f, sc, 14)
  }

  /** The script of a flow, slot by slot. */
  predicate IsScript(f: Flow, sc: seq<Entry>) {
    |sc| == End(f) && if f.hello.resumes then ResumedSlots(f, sc) else FullSlots(f, sc)
  }

  lemma {:induction false} ScriptIsScript(f: Flow)
    ensures IsScript(f, Script(f))
  {
    Slot(f, 0); Slot(f, 1); Slot(f, 2); Slot(f, 3); Slot(f, 4);
    Slot(f, 5); Slot(f, 6); Slot(f, 7); Slot(f, 8);
    if !f.hello.resumes {
      Slot(f, 9); Slot(f, 10); Slot(f, 11); Slot(f, 12);
      Slot(f, 13); Slot(f, 14); Slot(f, 15); Slot(f, 16);
    }
  }
}
