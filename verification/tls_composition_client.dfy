/** The client's side of the composition: which slot of the flow each of its
    states stands at, and that every step keeps it there. */
module TlsClientInFlow {
  import opened TlsMessages
  import opened TlsScript
  import opened TlsFlow
  import opened TlsClient

  /** How many slots of the flow the client has sent or consumed. */
  function Pos(f: Flow, c: ClientHs): nat {
    var r := f.hello.resumes;
    match c.state
    case StartConnect => 0
    case EnterEarlyData => 1
    case ReadServerHello => 1
    case ReadServerCertificate => 2
    case ReadCertificateStatus => 3
    case VerifyServerCertificate => 4
    case ReadServerKeyExchange => 4
    case ReadCertificateRequest => 5
    case ReadServerHelloDone => 6
    case SendClientCertificate => 7
    case SendClientKeyExchange => 8
    case SendClientCertificateVerify => 9
    case SendClientFinished => if r then 5 else 10
    case FinishFlight => if r then 9 else 14
    case ReadSessionTicket => if r then 2 else 14
    case ProcessChangeCipherSpec =>
      (if r then 3 else 15) + (if c.wait.ReadChangeCipherSpec? then 0 else 1)
    case ReadServerFinished => if r then 4 else 16
    case FinishClientHandshake => if r then 9 else 17
    case Done => if r then 9 else 17
  }

  /** States a resumed handshake skips. */
  predicate FullOnly(c: ClientHs) {
    || c.state.ReadServerCertificate? || c.state.ReadCertificateStatus? || c.state.VerifyServerCertificate?
    || c.state.ReadServerKeyExchange? || c.state.ReadCertificateRequest? || c.state.ReadServerHelloDone?
    || c.state.SendClientCertificate? || c.state.SendClientKeyExchange? || c.state.SendClientCertificateVerify?
  }

  predicate Collecting(c: ClientHs) {
    c.state.SendClientKeyExchange? || c.state.SendClientCertificateVerify? || c.state.SendClientFinished?
  }

  /** What the client knows agrees with what was negotiated. */
  predicate Knows(f: Flow, c: ClientHs, at: nat) {
    && c.config == ClientConfig(f.offersSession, f.clientCert)
    && (at >= 2 ==> c.hello == f.hello)
    && (FullOnly(c) ==> !f.hello.resumes)
    && c.certRequest == (f.certRequest && at >= 6)
  }

  predicate Reading(w: Wait) { w.ReadMessage? || w.ReadChangeCipherSpec? }

  /** The client waits only for a record the server owes it next. */
  predicate WaitsWell(sc: seq<Entry>, c: ClientHs, at: nat)
    requires at <= |sc|
  {
    && !c.wait.Error?
    && (Reading(c.wait) ==>
          && c.inbox == [] && c.pending == []
          && var n := NextPresent(sc, at);
             n < |sc| && sc[n].sender.Server? && sc[n].record.Handshake? == c.wait.ReadMessage?)
    && (c.wait.ReadChangeCipherSpec? ==> c.state.ProcessChangeCipherSpec?)
    && (c.wait.ReadMessage? ==> !c.state.ProcessChangeCipherSpec?)
    && (c.state.ProcessChangeCipherSpec? ==> c.inbox == [])
    && |c.inbox| <= 1
    && (c.pending != [] ==> c.wait.Flush? || Collecting(c))
  }

  predicate InvAt(f: Flow, sc: seq<Entry>, c: ClientHs, at: nat)
    requires at <= |sc|
  {
    Knows(f, c, at) && WaitsWell(sc, c, at) && c.transcript == Transcript(sc, at)
  }

  predicate Inv(f: Flow, sc: seq<Entry>, c: ClientHs) {
    Pos(f, c) <= |sc| && InvAt(f, sc, c, Pos(f, c))
  }

  /** The message the client holds is the one the flow has next. */
  predicate Holds(sc: seq<Entry>, c: ClientHs, at: nat)
    requires at <= |sc|
  {
    c.inbox != [] ==>
      var n := NextPresent(sc, at);
      n < |sc| && sc[n] == From(Server, true, c.inbox[0])
  }

  /** A step that sends the client's own slots, or passes over absent ones. */
  predicate Sends(sc: seq<Entry>, c: ClientHs, r: ClientHs, at: nat, next: nat)
    requires next <= |sc|
  {
    && r.inbox == c.inbox
    && at <= next
    && r.pending == c.pending + Items(sc, at, next)
    && OnlyFrom(sc, at, next, Client)
  }

  /** A step that consumes the message the client holds. */
  predicate Reads(sc: seq<Entry>, c: ClientHs, r: ClientHs, at: nat, next: nat)
    requires at <= |sc|
  {
    && |c.inbox| == 1 && r.inbox == [] && r.pending == c.pending
    && next == NextPresent(sc, at) + 1
  }

  predicate FollowsAt(f: Flow, sc: seq<Entry>, c: ClientHs, r: ClientHs, at: nat, next: nat)
    requires at <= |sc|
  {
    && next <= |sc|
    && InvAt(f, sc, r, next)
    && if |r.inbox| < |c.inbox| then Reads(sc, c, r, at, next) else Sends(sc, c, r, at, next)
  }

  predicate Follows(f: Flow, sc: seq<Entry>, c: ClientHs, r: ClientHs)
    requires Pos(f, c) <= |sc|
  {
    FollowsAt(f, sc, c, r, Pos(f, c), Pos(f, r))
  }

  predicate TurnsAt(f: Flow, sc: seq<Entry>, c: ClientHs, v: Verdict, at: nat)
    requires at <= |sc|
  {
    Consistent(f) && InvAt(f, sc, c, at) && c.wait.Ready? && Holds(sc, c, at) && !v.Fail?
  }

  predicate Turns(f: Flow, sc: seq<Entry>, c: ClientHs, v: Verdict) {
    Pos(f, c) <= |sc| && TurnsAt(f, sc, c, v, Pos(f, c))
  }

  /** Changing only the state, or pausing. */
  lemma {:induction false} StayFollows(f: Flow, sc: seq<Entry>, c: ClientHs, r: ClientHs, at: nat)
    requires at <= |sc| && InvAt(f, sc, c, at) && c.wait.Ready? && Knows(f, r, at)
    requires r.inbox == c.inbox && r.pending == c.pending && r.transcript == c.transcript
    requires r.wait.Ready? || r.wait.Paused?
    requires !r.state.ProcessChangeCipherSpec? && (Collecting(c) ==> Collecting(r))
    ensures FollowsAt(f, sc, c, r, at, at)
  {
    assert Items(sc, at, at) == [];
  }

  /** Passing over an absent slot. */
  lemma {:induction false} SkipFollows(f: Flow, sc: seq<Entry>, c: ClientHs, r: ClientHs, at: nat)
    requires at < |sc| && InvAt(f, sc, c, at) && c.wait.Ready? && Knows(f, r, at + 1)
    requires r.inbox == c.inbox && r.pending == c.pending && r.transcript == c.transcript
    requires !sc[at].present
    requires r.wait.Ready?
    requires !r.state.ProcessChangeCipherSpec? && (Collecting(c) ==> Collecting(r))
    ensures FollowsAt(f, sc, c, r, at, at + 1)
  {
    Here(sc, at);
  }

  /** Asking to read the message the server sends next. */
  lemma {:induction false} BlockFollows(f: Flow, sc: seq<Entry>, c: ClientHs, at: nat)
    requires at <= |sc| && InvAt(f, sc, c, at) && c.wait.Ready? && c.inbox == []
    requires !c.state.ProcessChangeCipherSpec? && !Collecting(c)
    requires NextPresent(sc, at) < |sc|
    requires sc[NextPresent(sc, at)].sender.Server? && sc[NextPresent(sc, at)].record.Handshake?
    ensures FollowsAt(f, sc, c, c.(wait := ReadMessage), at, at)
  {
    assert Items(sc, at, at) == [];
  }

  /** Consuming the message of the slot the client stands at. */
  lemma {:induction false} ReadFollows(f: Flow, sc: seq<Entry>, c: ClientHs, r: ClientHs, at: nat)
    requires at < |sc| && InvAt(f, sc, c, at) && c.wait.Ready? && Holds(sc, c, at) && Knows(f, r, at + 1)
    requires c.inbox != [] && r.inbox == [] && r.pending == c.pending && !Collecting(c)
    requires r.transcript == c.transcript + [c.inbox[0]]
    requires sc[at].present
    requires r.wait.Ready? && !r.state.ProcessChangeCipherSpec?
    ensures FollowsAt(f, sc, c, r, at, at + 1)
  {
    Here(sc, at);
  }

  /** Sending the message of the slot the client stands at. */
  lemma {:induction false} SendFollows(f: Flow, sc: seq<Entry>, c: ClientHs, r: ClientHs, at: nat, m: Msg)
    requires at < |sc| && InvAt(f, sc, c, at) && c.wait.Ready? && Knows(f, r, at + 1)
    requires r.inbox == c.inbox && r.pending == c.pending + Wrap([m]) && r.transcript == c.transcript + [m]
    requires sc[at] == From(Client, true, m)
    requires r.wait.Flush? || (r.wait.Ready? && Collecting(r))
    requires !r.state.ProcessChangeCipherSpec?
    ensures FollowsAt(f, sc, c, r, at, at + 1)
  {
    Here(sc, at);
    assert Wrap([m]) == [Handshake(m)];
  }

  lemma {:induction false} StartConnectFollows(f: Flow, sc: seq<Entry>, c: ClientHs, v: Verdict, at: nat)
    requires at == 0
    requires at == Pos(f, c) <= |sc| && TurnsAt(f, sc, c, v, at) && c.state.StartConnect? && |sc| == End(f)
    requires sc[at] == From(Client, true, ClientHello(f.offersSession))
    ensures Follows(f, sc, c, DoStartConnect(c, v))
  {
    var r := DoStartConnect(c, v);
    SendFollows(f, sc, c, r, at, ClientHello(f.offersSession));
  }

  lemma {:induction false} ReadServerHelloFollows(f: Flow, sc: seq<Entry>, c: ClientHs, v: Verdict, at: nat)
    requires at == 1
    requires at == Pos(f, c) <= |sc| && TurnsAt(f, sc, c, v, at) && c.state.ReadServerHello? && |sc| == End(f)
    requires sc[at] == From(Server, true, ServerHello(f.hello))
    ensures Follows(f, sc, c, DoReadServerHello(c, v))
  {
    var r := DoReadServerHello(c, v);
    Here(sc, at);
    if c.inbox == [] { BlockFollows(f, sc, c, at); } else { ReadFollows(f, sc, c, r, at); }
  }

  lemma {:induction false} ReadServerCertificateFollows(f: Flow, sc: seq<Entry>, c: ClientHs, v: Verdict, at: nat)
    requires at == 2
    requires at == Pos(f, c) <= |sc| && TurnsAt(f, sc, c, v, at) && c.state.ReadServerCertificate? && |sc| == 17
    requires sc[at] == From(Server, f.hello.cipher.certAuth, Certificate(true))
    ensures Follows(f, sc, c, DoReadServerCertificate(c, v))
  {
    var r := DoReadServerCertificate(c, v);
    Here(sc, at);
    if !f.hello.cipher.certAuth { SkipFollows(f, sc, c, r, at); }
    else if c.inbox == [] { BlockFollows(f, sc, c, at); }
    else { ReadFollows(f, sc, c, r, at); }
  }

  lemma {:induction false} ReadCertificateStatusFollows(f: Flow, sc: seq<Entry>, c: ClientHs, v: Verdict, at: nat)
    requires at == 3
    requires at == Pos(f, c) <= |sc| && TurnsAt(f, sc, c, v, at) && c.state.ReadCertificateStatus? && |sc| == 17
    requires sc[at] == From(Server, f.hello.status, CertificateStatus)
    ensures Follows(f, sc, c, DoReadCertificateStatus(c, v))
  {
    var r := DoReadCertificateStatus(c, v);
    Here(sc, at);
    if !f.hello.status { SkipFollows(f, sc, c, r, at); }
    else if c.inbox == [] { BlockFollows(f, sc, c, at); }
    else { ReadFollows(f, sc, c, r, at); }
  }

  lemma {:induction false} VerifyServerCertificateFollows(f: Flow, sc: seq<Entry>, c: ClientHs, v: Verdict, at: nat)
    requires at == 4
    requires at == Pos(f, c) <= |sc| && TurnsAt(f, sc, c, v, at) && c.state.VerifyServerCertificate? && |sc| == 17
    ensures Follows(f, sc, c, DoVerifyServerCertificate(c, v))
  {
    var r := DoVerifyServerCertificate(c, v);
    StayFollows(f, sc, c, r, at);
  }

  /** After the certificate the server owes a key exchange, a certificate request
      or its ServerHelloDone. */
  lemma {:induction false} AfterCertificate(f: Flow, sc: seq<Entry>, at: nat)
    requires at == 4 && |sc| == 17
    requires sc[at] == From(Server, f.keyExchange, ServerKeyExchange)
    requires sc[at + 1] == From(Server, f.certRequest, CertificateRequest)
    requires sc[at + 2] == From(Server, true, ServerHelloDone)
    ensures NextPresent(sc, at) == if f.keyExchange then at else if f.certRequest then at + 1 else at + 2
    ensures NextPresent(sc, at + 1) == if f.certRequest then at + 1 else at + 2
  {
    Here(sc, at);
    Here(sc, at + 1);
    Here(sc, at + 2);
  }

  lemma {:induction false} ReadServerKeyExchangeFollows(f: Flow, sc: seq<Entry>, c: ClientHs, v: Verdict, at: nat)
    requires at == 4
    requires at == Pos(f, c) <= |sc| && TurnsAt(f, sc, c, v, at) && c.state.ReadServerKeyExchange? && |sc| == 17
    requires sc[at] == From(Server, f.keyExchange, ServerKeyExchange)
    requires sc[at + 1] == From(Server, f.certRequest, CertificateRequest)
    requires sc[at + 2] == From(Server, true, ServerHelloDone)
    ensures Follows(f, sc, c, DoReadServerKeyExchange(c, v))
  {
    var r := DoReadServerKeyExchange(c, v);
    AfterCertificate(f, sc, at);
    if c.inbox == [] { BlockFollows(f, sc, c, at); }
    else if f.keyExchange { ReadFollows(f, sc, c, r, at); }
    else { SkipFollows(f, sc, c, r, at); }
  }

  lemma {:induction false} ReadCertificateRequestFollows(f: Flow, sc: seq<Entry>, c: ClientHs, v: Verdict, at: nat)
    requires at == 5
    requires at == Pos(f, c) <= |sc| && TurnsAt(f, sc, c, v, at) && c.state.ReadCertificateRequest? && |sc| == 17
    requires sc[at - 1] == From(Server, f.keyExchange, ServerKeyExchange)
    requires sc[at] == From(Server, f.certRequest, CertificateRequest)
    requires sc[at + 1] == From(Server, true, ServerHelloDone)
    ensures Follows(f, sc, c, DoReadCertificateRequest(c, v))
  {
    var r := DoReadCertificateRequest(c, v);
    AfterCertificate(f, sc, at - 1);
    if !f.hello.cipher.certAuth { SkipFollows(f, sc, c, r, at); }
    else if c.inbox == [] { BlockFollows(f, sc, c, at); }
    else if f.certRequest { ReadFollows(f, sc, c, r, at); }
    else { SkipFollows(f, sc, c, r, at); }
  }

  lemma {:induction false} ReadServerHelloDoneFollows(f: Flow, sc: seq<Entry>, c: ClientHs, v: Verdict, at: nat)
    requires at == 6
    requires at == Pos(f, c) <= |sc| && TurnsAt(f, sc, c, v, at) && c.state.ReadServerHelloDone? && |sc| == 17
    requires sc[at] == From(Server, true, ServerHelloDone)
    ensures Follows(f, sc, c, DoReadServerHelloDone(c, v))
  {
    var r := DoReadServerHelloDone(c, v);
    Here(sc, at);
    if c.inbox == [] { BlockFollows(f, sc, c, at); } else { ReadFollows(f, sc, c, r, at); }
  }

  /** Sending an optional message, pausing, or going on without it. */
  lemma {:induction false} OptionalSend(f: Flow, sc: seq<Entry>, c: ClientHs, r: ClientHs, v: Verdict, at: nat,
        next: ClientState, m: Msg)
    requires at < |sc| && TurnsAt(f, sc, c, v, at) && at == Pos(f, c) && FullOnly(c)
    requires next.SendClientKeyExchange? || next.SendClientFinished?
    requires sc[at] == From(Client, sc[at].present, m)
    requires Knows(f, Go(c, next, Ready), at + 1) && Pos(f, Go(c, next, Ready)) == at + 1
    requires r == if !sc[at].present then Go(c, next, Ready)
                  else if v.Proceed? then Go(Send(c, [m]), next, Ready)
                  else c.(wait := Paused)
    ensures Follows(f, sc, c, r)
  {
    if !sc[at].present { SkipFollows(f, sc, c, r, at); }
    else if v.Proceed? { SendFollows(f, sc, c, r, at, m); }
    else { StayFollows(f, sc, c, r, at); }
  }

  lemma {:induction false} SendClientCertificateFollows(f: Flow, sc: seq<Entry>, c: ClientHs, v: Verdict, at: nat)
    requires at == 7
    requires at == Pos(f, c) <= |sc| && TurnsAt(f, sc, c, v, at) && c.state.SendClientCertificate? && |sc| == 17
    requires sc[at] == From(Client, f.certRequest, Certificate(f.clientCert))
    ensures Follows(f, sc, c, DoSendClientCertificate(c, v))
  {
    var r := DoSendClientCertificate(c, v);
    OptionalSend(f, sc, c, r, v, at, SendClientKeyExchange, Certificate(f.clientCert));
  }

  lemma {:induction false} SendClientKeyExchangeFollows(f: Flow, sc: seq<Entry>, c: ClientHs, v: Verdict, at: nat)
    requires at == 8
    requires at == Pos(f, c) <= |sc| && TurnsAt(f, sc, c, v, at) && c.state.SendClientKeyExchange? && |sc| == 17
    requires sc[at] == From(Client, true, ClientKeyExchange)
    ensures Follows(f, sc, c, DoSendClientKeyExchange(c, v))
  {
    var r := DoSendClientKeyExchange(c, v);
    SendFollows(f, sc, c, r, at, ClientKeyExchange);
  }

  lemma {:induction false} SendClientCertificateVerifyFollows(f: Flow, sc: seq<Entry>, c: ClientHs, v: Verdict, at: nat)
    requires at == 9
    requires at == Pos(f, c) <= |sc| && TurnsAt(f, sc, c, v, at) && c.state.SendClientCertificateVerify? && |sc| == 17
    requires sc[at] == From(Client, f.certRequest && f.clientCert, CertificateVerify)
    ensures Follows(f, sc, c, DoSendClientCertificateVerify(c, v))
  {
    var r := DoSendClientCertificateVerify(c, v);
    OptionalSend(f, sc, c, r, v, at, SendClientFinished, CertificateVerify);
  }

  /** What the state sends: a ChangeCipherSpec, two optional messages, and its
      Finished. */
  lemma {:induction false} LastFlight(c: ClientHs, r: ClientHs, v: Verdict, first: seq<Msg>, second: seq<Msg>,
        t: seq<Msg>)
    requires c.state.SendClientFinished? && r == DoSendClientFinished(c, v) && r.state.FinishFlight?
    requires first == When(c.hello.npn, NextProto) && second == When(c.hello.channelId, ChannelId)
    requires t == c.transcript + first + second
    ensures r.pending == c.pending + [ChangeCipherSpec] + Wrap(first) + Wrap(second) + Wrap([Finished(Client, t)])
    ensures r.transcript == t + [Finished(Client, t)]
    ensures r == Go(c.(pending := r.pending, transcript := r.transcript), FinishFlight, Flush)
  {
  }

  lemma {:induction false} LastFlightOrPause(c: ClientHs, r: ClientHs, v: Verdict)
    requires c.state.SendClientFinished? && r == DoSendClientFinished(c, v) && !v.Fail?
    ensures r == c.(wait := Paused) || r.state.FinishFlight?
  {
  }

  lemma {:induction false} BeforeFinished(sc: seq<Entry>, at: nat, base: seq<Record>, t0: seq<Msg>, npn: bool,
        channelId: bool)
    requires at + 3 <= |sc| && t0 == Transcript(sc, at) && sc[at] == Entry(Client, true, ChangeCipherSpec)
    requires sc[at + 1] == From(Client, npn, NextProto) && sc[at + 2] == From(Client, channelId, ChannelId)
    ensures base + [ChangeCipherSpec] + Wrap(When(npn, NextProto)) + Wrap(When(channelId, ChannelId))
            == base + Items(sc, at, at + 3)
    ensures t0 + When(npn, NextProto) + When(channelId, ChannelId) == Transcript(sc, at + 3)
  {
    assert Items(sc, at, at) == [] && base + [] == base;
    AddsChangeCipherSpec(sc, at, at, base, base, t0);
    AddsMessage(sc, at, at + 1, base, base + Items(sc, at, at + 1), t0, NextProto);
    AddsMessage(sc, at, at + 2, base, base + Items(sc, at, at + 2), t0 + When(npn, NextProto), ChannelId);
  }

  lemma {:induction false} LastFlightSent(f: Flow, sc: seq<Entry>, c: ClientHs, r: ClientHs, v: Verdict, at: nat)
    requires at + 4 <= |sc| && ClientLastFlight(f, sc, at)
    requires c.state.SendClientFinished? && c.hello == f.hello && c.transcript == Transcript(sc, at)
    requires r == DoSendClientFinished(c, v) && r.state.FinishFlight?
    ensures r.pending == c.pending + Items(sc, at, at + 4) && r.transcript == Transcript(sc, at + 4)
    ensures r == Go(c.(pending := r.pending, transcript := r.transcript), FinishFlight, Flush)
  {
    var first, second := When(c.hello.npn, NextProto), When(c.hello.channelId, ChannelId);
    var t := c.transcript + first + second;
    LastFlight(c, r, v, first, second, t);
    BeforeFinished(sc, at, c.pending, c.transcript, c.hello.npn, c.hello.channelId);
    AddsMessage(sc, at, at + 3, c.pending, c.pending + Items(sc, at, at + 3), t, Finished(Client, t));
  }

  lemma {:induction false} SendClientFinishedFollows(f: Flow, sc: seq<Entry>, c: ClientHs, v: Verdict, at: nat)
    requires at == Pos(f, c) <= |sc| == End(f) && TurnsAt(f, sc, c, v, at) && c.state.SendClientFinished?
    requires ClientLastFlight(f, sc, at)
    ensures Follows(f, sc, c, DoSendClientFinished(c, v))
  {
    var r := DoSendClientFinished(c, v);
    LastFlightOrPause(c, r, v);
    if r.state.FinishFlight? {
      LastFlightSent(f, sc, c, r, v, at);
      LastFlightFollows(f, sc, c, r, v, at);
    } else {
      StayFollows(f, sc, c, r, at);
    }
  }

  lemma {:induction false} LastFlightFollows(f: Flow, sc: seq<Entry>, c: ClientHs, r: ClientHs, v: Verdict, at: nat)
    requires at + 4 <= |sc| && ClientLastFlight(f, sc, at) && TurnsAt(f, sc, c, v, at) && c.state.SendClientFinished?
    requires r.pending == c.pending + Items(sc, at, at + 4) && r.transcript == Transcript(sc, at + 4)
    requires r == Go(c.(pending := r.pending, transcript := r.transcript), FinishFlight, Flush)
    requires 2 <= at == Pos(f, c) && Pos(f, r) == at + 4 && (f.certRequest ==> at >= 6)
    ensures Follows(f, sc, c, r)
  {
  }

  lemma {:induction false} FinishFlightFollows(f: Flow, sc: seq<Entry>, c: ClientHs, v: Verdict)
    requires Turns(f, sc, c, v) && c.state.FinishFlight? && |sc| == End(f)
    ensures Follows(f, sc, c, DoFinishFlight(c, v))
  {
    StayFollows(f, sc, c, DoFinishFlight(c, v), Pos(f, c));
  }

  /** Going on to wait for the ChangeCipherSpec of the next slot. */
  lemma {:induction false} AwaitFollows(f: Flow, sc: seq<Entry>, c: ClientHs, r: ClientHs, at: nat)
    requires at + 1 < |sc| && InvAt(f, sc, c, at) && c.wait.Ready? && Holds(sc, c, at) && Knows(f, r, at + 1)
    requires sc[at + 1] == Entry(Server, true, ChangeCipherSpec)
    requires r.wait.ReadChangeCipherSpec? && r.state.ProcessChangeCipherSpec?
    requires r.inbox == [] && r.pending == c.pending && !Collecting(c)
    requires if c.inbox == [] then r.transcript == c.transcript && !sc[at].present
             else r.transcript == c.transcript + [c.inbox[0]] && sc[at].present
    ensures FollowsAt(f, sc, c, r, at, at + 1)
  {
    Here(sc, at);
    Here(sc, at + 1);
  }

  /** The client holds nothing while the next present slot is not a message. */
  lemma {:induction false} HoldsNothing(sc: seq<Entry>, c: ClientHs, at: nat)
    requires at + 1 < |sc| && Holds(sc, c, at) && !sc[at].present
    requires sc[at + 1] == Entry(Server, true, ChangeCipherSpec)
    ensures c.inbox == []
  {
    Here(sc, at);
    Here(sc, at + 1);
  }

  lemma {:induction false} TakesTicket(f: Flow, sc: seq<Entry>, c: ClientHs, v: Verdict, at: nat)
    requires at < |sc| && c.state.ReadSessionTicket? && !v.Fail? && c.hello == f.hello && f.hello.ticket
    requires Holds(sc, c, at) && |c.inbox| == 1
    requires sc[at] == From(Server, true, NewSessionTicket(false))
    ensures
      var r := DoReadSessionTicket(c, v);
      r == Go(Consume(c), ProcessChangeCipherSpec, ReadChangeCipherSpec)
  {
    Here(sc, at);
    assert c.inbox[0] == NewSessionTicket(false);
    assert c.hello == c.hello.(ticket := true);
  }

  lemma {:induction false} AwaitPos(f: Flow, c: ClientHs, r: ClientHs)
    requires c.state.ReadSessionTicket? && r.state.ProcessChangeCipherSpec? && r.wait.ReadChangeCipherSpec?
    ensures Pos(f, r) == Pos(f, c) + 1
  {
  }

  lemma {:induction false} WithTicketFollows(f: Flow, sc: seq<Entry>, c: ClientHs, v: Verdict, at: nat)
    requires at == Pos(f, c) <= |sc| && TurnsAt(f, sc, c, v, at) && c.state.ReadSessionTicket? && |sc| == End(f)
    requires at == Pos(f, c)
    requires f.hello.ticket && c.inbox != []
    requires sc[at] == From(Server, true, NewSessionTicket(false))
    requires sc[at + 1] == Entry(Server, true, ChangeCipherSpec)
    ensures Follows(f, sc, c, DoReadSessionTicket(c, v))
  {
    var r := Go(Consume(c), ProcessChangeCipherSpec, ReadChangeCipherSpec);
    TakesTicket(f, sc, c, v, at);
    AwaitPos(f, c, r);
    AwaitFollows(f, sc, c, r, at);
  }

  lemma {:induction false} WithoutTicketFollows(f: Flow, sc: seq<Entry>, c: ClientHs, v: Verdict, at: nat)
    requires at == Pos(f, c) <= |sc| && TurnsAt(f, sc, c, v, at) && c.state.ReadSessionTicket? && |sc| == End(f)
    requires at == Pos(f, c)
    requires !f.hello.ticket && !sc[at].present
    requires sc[at + 1] == Entry(Server, true, ChangeCipherSpec)
    ensures Follows(f, sc, c, DoReadSessionTicket(c, v))
  {
    var r := Go(c, ProcessChangeCipherSpec, ReadChangeCipherSpec);
    HoldsNothing(sc, c, at);
    AwaitPos(f, c, r);
    AwaitFollows(f, sc, c, r, at);
  }

  lemma {:induction false} ReadSessionTicketFollows(f: Flow, sc: seq<Entry>, c: ClientHs, v: Verdict, at: nat)
    requires at == Pos(f, c) <= |sc| && TurnsAt(f, sc, c, v, at) && c.state.ReadSessionTicket? && |sc| == End(f)
    requires at == Pos(f, c)
    requires sc[at] == From(Server, f.hello.ticket, NewSessionTicket(false))
    requires sc[at + 1] == Entry(Server, true, ChangeCipherSpec)
    ensures Follows(f, sc, c, DoReadSessionTicket(c, v))
  {
    if !f.hello.ticket {
      WithoutTicketFollows(f, sc, c, v, at);
    } else if c.inbox != [] {
      WithTicketFollows(f, sc, c, v, at);
    } else {
      Here(sc, at);
      BlockFollows(f, sc, c, at);
    }
  }

  lemma {:induction false} ProcessChangeCipherSpecFollows(f: Flow, sc: seq<Entry>, c: ClientHs, v: Verdict)
    requires Turns(f, sc, c, v) && c.state.ProcessChangeCipherSpec? && |sc| == End(f)
    ensures Follows(f, sc, c, DoProcessChangeCipherSpec(c, v))
  {
    StayFollows(f, sc, c, DoProcessChangeCipherSpec(c, v), Pos(f, c));
  }

  lemma {:induction false} ReadServerFinishedFollows(f: Flow, sc: seq<Entry>, c: ClientHs, v: Verdict, at: nat)
    requires at == Pos(f, c) <= |sc| && TurnsAt(f, sc, c, v, at) && c.state.ReadServerFinished? && |sc| == End(f)
    requires at == Pos(f, c)
    requires sc[at] == From(Server, true, Finished(Server, Transcript(sc, at)))
    ensures Follows(f, sc, c, DoReadServerFinished(c, v))
  {
    var r := DoReadServerFinished(c, v);
    Here(sc, at);
    if c.inbox == [] { BlockFollows(f, sc, c, at); } else { ReadFollows(f, sc, c, r, at); }
  }

  lemma {:induction false} QuietFollows(f: Flow, sc: seq<Entry>, c: ClientHs, v: Verdict)
    requires Turns(f, sc, c, v) && |sc| == End(f)
    requires c.state.EnterEarlyData? || c.state.FinishClientHandshake? || c.state.Done?
    ensures Follows(f, sc, c, Step(c, v))
  {
    StayFollows(f, sc, c, Step(c, v), Pos(f, c));
  }

  lemma {:induction false} FullStepFollows(f: Flow, sc: seq<Entry>, c: ClientHs, v: Verdict)
    requires IsScript(f, sc) && Turns(f, sc, c, v) && FullOnly(c)
    ensures Follows(f, sc, c, Step(c, v))
  {
    match c.state
    case ReadServerCertificate => ReadServerCertificateFollows(f, sc, c, v, Pos(f, c));
    case ReadCertificateStatus => ReadCertificateStatusFollows(f, sc, c, v, Pos(f, c));
    case VerifyServerCertificate => VerifyServerCertificateFollows(f, sc, c, v, Pos(f, c));
    case ReadServerKeyExchange => ReadServerKeyExchangeFollows(f, sc, c, v, Pos(f, c));
    case ReadCertificateRequest => ReadCertificateRequestFollows(f, sc, c, v, Pos(f, c));
    case ReadServerHelloDone => ReadServerHelloDoneFollows(f, sc, c, v, Pos(f, c));
    case SendClientCertificate => SendClientCertificateFollows(f, sc, c, v, Pos(f, c));
    case SendClientKeyExchange => SendClientKeyExchangeFollows(f, sc, c, v, Pos(f, c));
    case SendClientCertificateVerify => SendClientCertificateVerifyFollows(f, sc, c, v, Pos(f, c));
  }

  lemma {:induction false} SendClientFinishedInScript(f: Flow, sc: seq<Entry>, c: ClientHs, v: Verdict)
    requires IsScript(f, sc) && Turns(f, sc, c, v) && c.state.SendClientFinished?
    ensures Follows(f, sc, c, Step(c, v))
  {
    SendClientFinishedFollows(f, sc, c, v, Pos(f, c));
  }

  lemma {:induction false} ReadSessionTicketInScript(f: Flow, sc: seq<Entry>, c: ClientHs, v: Verdict)
    requires IsScript(f, sc) && Turns(f, sc, c, v) && c.state.ReadSessionTicket?
    ensures Follows(f, sc, c, Step(c, v))
  {
    ReadSessionTicketFollows(f, sc, c, v, Pos(f, c));
  }

  lemma {:induction false} ReadServerFinishedInScript(f: Flow, sc: seq<Entry>, c: ClientHs, v: Verdict)
    requires IsScript(f, sc) && Turns(f, sc, c, v) && c.state.ReadServerFinished?
    ensures Follows(f, sc, c, Step(c, v))
  {
    ReadServerFinishedFollows(f, sc, c, v, Pos(f, c));
  }

  /** Every turn of the client's switch keeps it on the script. */
  lemma {:induction false} StepFollows(f: Flow, sc: seq<Entry>, c: ClientHs, v: Verdict)
    requires IsScript(f, sc) && Turns(f, sc, c, v)
    ensures Follows(f, sc, c, Step(c, v))
  {
    match c.state
    case StartConnect => StartConnectFollows(f, sc, c, v, Pos(f, c));
    case ReadServerHello => ReadServerHelloFollows(f, sc, c, v, Pos(f, c));
    case SendClientFinished => SendClientFinishedInScript(f, sc, c, v);
    case FinishFlight => FinishFlightFollows(f, sc, c, v);
    case ReadSessionTicket => ReadSessionTicketInScript(f, sc, c, v);
    case ProcessChangeCipherSpec => ProcessChangeCipherSpecFollows(f, sc, c, v);
    case ReadServerFinished => ReadServerFinishedInScript(f, sc, c, v);
    case EnterEarlyData | FinishClientHandshake | Done => QuietFollows(f, sc, c, v);
    case _ => FullStepFollows(f, sc, c, v);
  }

  lemma {:induction false} LeaveKeeps(f: Flow, sc: seq<Entry>, c: ClientHs, at: nat)
    requires at <= |sc| && InvAt(f, sc, c, at) && c.wait.Flush? && c.pending != []
    ensures InvAt(f, sc, c.(pending := c.pending[1..]), at)
  {
  }

  /** The flight is out, or the callback it paused for is ready. */
  lemma {:induction false} WakeKeeps(f: Flow, sc: seq<Entry>, c: ClientHs, at: nat)
    requires at <= |sc| && InvAt(f, sc, c, at)
    requires (c.wait.Flush? && c.pending == []) || c.wait.Paused?
    ensures InvAt(f, sc, c.(wait := Ready), at)
  {
  }

  lemma {:induction false} ArriveKeeps(f: Flow, sc: seq<Entry>, c: ClientHs, at: nat, m: Msg)
    requires at <= |sc| && InvAt(f, sc, c, at) && c.wait.ReadMessage?
    ensures InvAt(f, sc, c.(inbox := [m], wait := Ready), at)
  {
  }

  /** A record that completes no message only ends the wait. */
  lemma {:induction false} PartKeeps(f: Flow, sc: seq<Entry>, c: ClientHs, at: nat)
    requires at <= |sc| && InvAt(f, sc, c, at) && c.wait.ReadMessage?
    ensures React(c, Arrive(Packed([]))) == c.(wait := Ready) && InvAt(f, sc, c.(wait := Ready), at)
  {
    assert c.inbox + [] == c.inbox;
  }

  lemma {:induction false} SwitchKeeps(f: Flow, sc: seq<Entry>, c: ClientHs, at: nat)
    requires 2 <= at < |sc| && InvAt(f, sc, c, at) && c.wait.ReadChangeCipherSpec? && (f.certRequest ==> at >= 6)
    requires sc[at] == Entry(Server, true, ChangeCipherSpec)
    ensures InvAt(f, sc, c.(wait := Ready), at + 1)
  {
    Here(sc, at);
  }
}
