/** The server's side of the composition, mirroring the client's. */
module TlsServerInFlow {
  import opened TlsMessages
  import opened TlsScript
  import opened TlsFlow
  import opened TlsServer
  import C = TlsClient
  import P = TlsParties

  /** How many slots of the client's last flight the server has consumed. */
  function Late(s: ServerHs): nat {
    match s.state
    case ProcessChangeCipherSpec => if s.wait.ReadChangeCipherSpec? then 0 else 1
    case ReadNextProto => 1
    case ReadChannelId => 2
    case ReadClientFinished => 3
    case _ => 0
  }

  predicate IsLate(s: ServerHs) {
    || s.state.AwaitChangeCipherSpec? || s.state.ProcessChangeCipherSpec? || s.state.ReadNextProto?
    || s.state.ReadChannelId? || s.state.ReadClientFinished?
  }

  /** How many slots of the flow the server has sent or consumed. */
  function Pos(f: Flow, s: ServerHs): nat {
    var r := f.hello.resumes;
    match s.state
    case StartAccept => 0
    case ReadClientHello => 0
    case SelectCertificate => 0
    case SelectParameters => 0
    case SendServerHello => 1
    case SendServerCertificate => 2
    case SendServerKeyExchange => 4
    case SendServerHelloDone => 5
    case ReadClientCertificate => 7
    case VerifyClientCertificate => 8
    case ReadClientKeyExchange => 8
    case ReadClientCertificateVerify => 9
    case SendServerFinished => if r then 2 else 14
    case AwaitChangeCipherSpec => (if r then 5 else 10) + Late(s)
    case ProcessChangeCipherSpec => (if r then 5 else 10) + Late(s)
    case ReadNextProto => (if r then 5 else 10) + Late(s)
    case ReadChannelId => (if r then 5 else 10) + Late(s)
    case ReadClientFinished => (if r then 5 else 10) + Late(s)
    case FinishServerHandshake => if r then 9 else 17
    case Done => if r then 9 else 17
  }

  predicate FullOnly(s: ServerHs) {
    || s.state.SendServerCertificate? || s.state.SendServerKeyExchange? || s.state.SendServerHelloDone?
    || s.state.ReadClientCertificate? || s.state.VerifyClientCertificate? || s.state.ReadClientKeyExchange?
    || s.state.ReadClientCertificateVerify?
  }

  predicate Collecting(s: ServerHs) {
    || s.state.SendServerCertificate? || s.state.SendServerKeyExchange? || s.state.SendServerHelloDone?
    || s.state.SendServerFinished?
  }

  predicate AfterCertificate(s: ServerHs) {
    s.state.VerifyClientCertificate? || s.state.ReadClientKeyExchange? || s.state.ReadClientCertificateVerify?
  }

  /** The configuration leads to this flow with some client. */
  predicate LeadsTo(config: ServerConfig, f: Flow) {
    && P.ValidCipher(config.cipher)
    && f == P.FlowOf(C.ClientConfig(f.offersSession, f.clientCert), config)
  }

  /** What the server knows agrees with what was negotiated. */
  predicate Knows(f: Flow, s: ServerHs, at: nat) {
    && s.config.cipher == f.hello.cipher
    && (at == 1 ==> s.hello == SelectedParams(s.config, f.offersSession))
    && (at >= 2 ==> s.hello == f.hello)
    && (FullOnly(s) ==> !f.hello.resumes)
    && s.choices.certRequest == (f.certRequest && at >= 1)
    && (s.choices.peerKey ==> f.certRequest && f.clientCert)
    && (AfterCertificate(s) && f.certRequest && f.clientCert ==> s.choices.peerKey)
    && (s.state.SendServerKeyExchange? ==> s.choices.serverParams == f.keyExchange)
  }

  predicate Reading(w: Wait) { w.ReadMessage? || w.ReadChangeCipherSpec? }

  /** The server waits only for a record the client owes it next. */
  predicate WaitsWell(sc: seq<Entry>, s: ServerHs, at: nat)
    requires at <= |sc|
  {
    && !s.wait.Error?
    && (Reading(s.wait) ==>
          && s.inbox == [] && s.pending == []
          && var n := NextPresent(sc, at);
             n < |sc| && sc[n].sender.Client? && sc[n].record.Handshake? == s.wait.ReadMessage?)
    && (s.wait.ReadChangeCipherSpec? ==> s.state.ProcessChangeCipherSpec?)
    && (s.wait.ReadMessage? ==> !s.state.ProcessChangeCipherSpec?)
    && (s.state.ProcessChangeCipherSpec? ==> s.inbox == [])
    && |s.inbox| <= 1
    && (s.pending != [] ==> s.wait.Flush? || Collecting(s))
  }

  predicate InvAt(f: Flow, sc: seq<Entry>, s: ServerHs, at: nat)
    requires at <= |sc|
  {
    Knows(f, s, at) && WaitsWell(sc, s, at) && s.transcript == Transcript(sc, at)
  }

  predicate Inv(f: Flow, sc: seq<Entry>, s: ServerHs) {
    Pos(f, s) <= |sc| && InvAt(f, sc, s, Pos(f, s))
  }

  /** The message the server holds is the one the flow has next. */
  predicate Holds(sc: seq<Entry>, s: ServerHs, at: nat)
    requires at <= |sc|
  {
    s.inbox != [] ==>
      var n := NextPresent(sc, at);
      n < |sc| && sc[n] == From(Client, true, s.inbox[0])
  }

  predicate Sends(sc: seq<Entry>, s: ServerHs, r: ServerHs, at: nat, next: nat)
    requires next <= |sc|
  {
    && r.inbox == s.inbox
    && at <= next
    && r.pending == s.pending + Items(sc, at, next)
    && OnlyFrom(sc, at, next, Server)
  }

  predicate Reads(sc: seq<Entry>, s: ServerHs, r: ServerHs, at: nat, next: nat)
    requires at <= |sc|
  {
    && |s.inbox| == 1 && r.inbox == [] && r.pending == s.pending
    && next == NextPresent(sc, at) + 1
  }

  predicate FollowsAt(f: Flow, sc: seq<Entry>, s: ServerHs, r: ServerHs, at: nat, next: nat)
    requires at <= |sc|
  {
    && next <= |sc|
    && InvAt(f, sc, r, next)
    && if |r.inbox| < |s.inbox| then Reads(sc, s, r, at, next) else Sends(sc, s, r, at, next)
  }

  predicate Follows(f: Flow, sc: seq<Entry>, s: ServerHs, r: ServerHs)
    requires Pos(f, s) <= |sc|
  {
    FollowsAt(f, sc, s, r, Pos(f, s), Pos(f, r))
  }

  predicate TurnsAt(f: Flow, sc: seq<Entry>, s: ServerHs, v: Verdict, at: nat)
    requires at <= |sc|
  {
    InvAt(f, sc, s, at) && s.wait.Ready? && Holds(sc, s, at) && !v.Fail?
  }

  predicate Turns(f: Flow, sc: seq<Entry>, s: ServerHs, v: Verdict) {
    Pos(f, s) <= |sc| && TurnsAt(f, sc, s, v, Pos(f, s))
  }

  lemma {:induction false} StayFollows(f: Flow, sc: seq<Entry>, s: ServerHs, r: ServerHs, at: nat)
    requires at <= |sc| && InvAt(f, sc, s, at) && s.wait.Ready? && Knows(f, r, at)
    requires r.inbox == s.inbox && r.pending == s.pending && r.transcript == s.transcript
    requires r.wait.Ready? || r.wait.Paused?
    requires !r.state.ProcessChangeCipherSpec? && (Collecting(s) ==> Collecting(r))
    requires Pos(f, s) == at && Pos(f, r) == at
    ensures Follows(f, sc, s, r)
  {
    assert Items(sc, at, at) == [];
  }

  lemma {:induction false} SkipFollows(f: Flow, sc: seq<Entry>, s: ServerHs, r: ServerHs, at: nat)
    requires at < |sc| && InvAt(f, sc, s, at) && s.wait.Ready? && Knows(f, r, at + 1)
    requires r.inbox == s.inbox && r.pending == s.pending && r.transcript == s.transcript
    requires !sc[at].present
    requires r.wait.Ready?
    requires !r.state.ProcessChangeCipherSpec? && (Collecting(s) ==> Collecting(r))
    requires Pos(f, s) == at && Pos(f, r) == at + 1
    ensures Follows(f, sc, s, r)
  {
    Here(sc, at);
  }

  lemma {:induction false} BlockFollows(f: Flow, sc: seq<Entry>, s: ServerHs, at: nat)
    requires at <= |sc| && InvAt(f, sc, s, at) && s.wait.Ready? && s.inbox == []
    requires !s.state.ProcessChangeCipherSpec? && !Collecting(s)
    requires NextPresent(sc, at) < |sc|
    requires sc[NextPresent(sc, at)].sender.Client? && sc[NextPresent(sc, at)].record.Handshake?
    requires Pos(f, s) == at && Pos(f, s.(wait := ReadMessage)) == at
    ensures Follows(f, sc, s, s.(wait := ReadMessage))
  {
    assert Items(sc, at, at) == [];
  }

  lemma {:induction false} ReadFollows(f: Flow, sc: seq<Entry>, s: ServerHs, r: ServerHs, at: nat)
    requires at < |sc| && InvAt(f, sc, s, at) && s.wait.Ready? && Holds(sc, s, at) && Knows(f, r, at + 1)
    requires s.inbox != [] && r.inbox == [] && r.pending == s.pending && !Collecting(s)
    requires r.transcript == s.transcript + [s.inbox[0]]
    requires sc[at].present
    requires r.wait.Ready? && !r.state.ProcessChangeCipherSpec?
    requires Pos(f, s) == at && Pos(f, r) == at + 1
    ensures Follows(f, sc, s, r)
  {
    Here(sc, at);
  }

  /** Sending the messages of the server's slots up to `next`. */
  lemma {:induction false} SendFollows(f: Flow, sc: seq<Entry>, s: ServerHs, r: ServerHs, at: nat, next: nat)
    requires at <= next <= |sc| && InvAt(f, sc, s, at) && s.wait.Ready? && Knows(f, r, next)
    requires r.inbox == s.inbox && r.pending == s.pending + Items(sc, at, next) && r.transcript == Transcript(sc, next)
    requires OnlyFrom(sc, at, next, Server)
    requires r.wait.Flush? || (r.wait.Ready? && Collecting(r))
    requires !r.state.ProcessChangeCipherSpec?
    requires Pos(f, s) == at && Pos(f, r) == next
    ensures Follows(f, sc, s, r)
  {
  }

  lemma {:induction false} HoldsHere(sc: seq<Entry>, s: ServerHs, at: nat)
    requires at < |sc| && sc[at].present && Holds(sc, s, at)
    ensures s.inbox != [] ==> sc[at] == From(Client, true, s.inbox[0])
  {
    Here(sc, at);
  }

  /** Reading an optional message, or going on without it. */
  lemma {:induction false} OptionalStep(f: Flow, sc: seq<Entry>, s: ServerHs, r: ServerHs, at: nat, next: ServerState)
    requires at < |sc| && InvAt(f, sc, s, at) && s.wait.Ready? && Holds(sc, s, at) && at == Pos(f, s)
    requires sc[at].sender.Client? && sc[at].record.Handshake?
    requires !s.state.ProcessChangeCipherSpec? && !Collecting(s)
    requires next.ReadChannelId? || next.ReadClientFinished? || next.AwaitChangeCipherSpec?
    requires Knows(f, Go(s, next, Ready), at + 1) && Pos(f, Go(s, next, Ready)) == at + 1
    requires r == if !sc[at].present then Go(s, next, Ready)
                  else if s.inbox == [] then s.(wait := ReadMessage)
                  else Go(Consume(s), next, Ready)
    ensures Follows(f, sc, s, r)
  {
    Here(sc, at);
    if !sc[at].present { SkipFollows(f, sc, s, r, at); }
    else if s.inbox == [] { BlockFollows(f, sc, s, at); }
    else { ReadFollows(f, sc, s, r, at); }
  }

  lemma {:induction false} ReadClientHelloFollows(f: Flow, sc: seq<Entry>, s: ServerHs, v: Verdict, at: nat)
    requires at == 0
    requires at == Pos(f, s) <= |sc| && TurnsAt(f, sc, s, v, at) && |sc| == End(f)
    requires s.state.ReadClientHello? || s.state.SelectCertificate?
    requires sc[at] == From(Client, true, ClientHello(f.offersSession))
    ensures Follows(f, sc, s, Step(s, v))
  {
    var r := Step(s, v);
    Here(sc, at);
    if s.inbox == [] { BlockFollows(f, sc, s, at); } else { StayFollows(f, sc, s, r, at); }
  }

  lemma {:induction false} SelectParametersFollows(f: Flow, sc: seq<Entry>, s: ServerHs, v: Verdict, at: nat)
    requires at == 0
    requires at == Pos(f, s) <= |sc| && TurnsAt(f, sc, s, v, at) && s.state.SelectParameters? && |sc| == End(f)
    requires sc[at] == From(Client, true, ClientHello(f.offersSession))
    requires LeadsTo(s.config, f)
    ensures Follows(f, sc, s, DoSelectParameters(s, v))
  {
    var r := DoSelectParameters(s, v);
    Here(sc, at);
    if s.inbox == [] { BlockFollows(f, sc, s, at); }
    else if v.Retry? { StayFollows(f, sc, s, r, at); }
    else { ReadFollows(f, sc, s, r, at); }
  }

  lemma {:induction false} SendServerHelloFollows(f: Flow, sc: seq<Entry>, s: ServerHs, v: Verdict, at: nat)
    requires at == 1
    requires at == Pos(f, s) <= |sc| && TurnsAt(f, sc, s, v, at) && s.state.SendServerHello? && |sc| == End(f)
    requires sc[at] == From(Server, true, ServerHello(f.hello))
    requires LeadsTo(s.config, f)
    ensures Follows(f, sc, s, DoSendServerHello(s, v))
  {
    var r := DoSendServerHello(s, v);
    Here(sc, at);
    AddsMessage(sc, at, at, s.pending, s.pending, s.transcript, ServerHello(f.hello));
    SendFollows(f, sc, s, r, at, at + 1);
  }

  /** What the state sends: its certificate and a status, if there are any. */
  lemma {:induction false} Certificates(s: ServerHs, r: ServerHs, v: Verdict, first: seq<Msg>, second: seq<Msg>)
    requires s.state.SendServerCertificate? && !v.Fail? && r == DoSendServerCertificate(s, v)
    requires first == When(s.config.cipher.certAuth, Certificate(true))
    requires second == When(s.config.cipher.certAuth && s.hello.status, CertificateStatus)
    ensures r.pending == s.pending + Wrap(first) + Wrap(second) && r.transcript == s.transcript + first + second
    ensures r == Go(s.(pending := r.pending, transcript := r.transcript,
                       choices := s.choices.(serverParams := AssemblesParams(s.config))), SendServerKeyExchange, Ready)
  {
  }

  lemma {:induction false} CertificatesSent(f: Flow, sc: seq<Entry>, s: ServerHs, r: ServerHs, v: Verdict, at: nat)
    requires at + 2 <= |sc| && s.transcript == Transcript(sc, at)
    requires sc[at] == From(Server, f.hello.cipher.certAuth, Certificate(true))
    requires sc[at + 1] == From(Server, f.hello.status, CertificateStatus)
    requires s.state.SendServerCertificate? && !v.Fail? && r == DoSendServerCertificate(s, v)
    requires s.hello == f.hello && LeadsTo(s.config, f) && s.config.cipher == f.hello.cipher
    ensures r.pending == s.pending + Items(sc, at, at + 2) && r.transcript == Transcript(sc, at + 2)
    ensures r == Go(s.(pending := r.pending, transcript := r.transcript,
                       choices := s.choices.(serverParams := f.keyExchange)), SendServerKeyExchange, Ready)
  {
    var first, second := When(f.hello.cipher.certAuth, Certificate(true)), When(f.hello.status, CertificateStatus);
    Certificates(s, r, v, first, second);
    AddsTwo(sc, at, s.pending, s.transcript, Certificate(true), CertificateStatus, first, second);
  }

  lemma {:induction false} CertificatesFollow(f: Flow, sc: seq<Entry>, s: ServerHs, r: ServerHs, v: Verdict, at: nat)
    requires at == 2 && |sc| == 17 && TurnsAt(f, sc, s, v, at) && s.state.SendServerCertificate?
    requires r.pending == s.pending + Items(sc, at, at + 2) && r.transcript == Transcript(sc, at + 2)
    requires r == Go(s.(pending := r.pending, transcript := r.transcript,
                        choices := s.choices.(serverParams := f.keyExchange)), SendServerKeyExchange, Ready)
    requires sc[at].sender.Server? && sc[at + 1].sender.Server?
    ensures Follows(f, sc, s, r)
  {
    SendFollows(f, sc, s, r, at, at + 2);
  }

  lemma {:induction false} SendServerCertificateFollows(f: Flow, sc: seq<Entry>, s: ServerHs, v: Verdict, at: nat)
    requires at == 2
    requires at == Pos(f, s) <= |sc| && TurnsAt(f, sc, s, v, at) && s.state.SendServerCertificate? && |sc| == 17
    requires sc[at] == From(Server, f.hello.cipher.certAuth, Certificate(true))
    requires sc[at + 1] == From(Server, f.hello.status, CertificateStatus)
    requires LeadsTo(s.config, f)
    ensures Follows(f, sc, s, DoSendServerCertificate(s, v))
  {
    var r := DoSendServerCertificate(s, v);
    CertificatesSent(f, sc, s, r, v, at);
    CertificatesFollow(f, sc, s, r, v, at);
  }

  lemma {:induction false} SendServerKeyExchangeFollows(f: Flow, sc: seq<Entry>, s: ServerHs, v: Verdict, at: nat)
    requires at == 4
    requires at == Pos(f, s) <= |sc| && TurnsAt(f, sc, s, v, at) && s.state.SendServerKeyExchange? && |sc| == 17
    requires sc[at] == From(Server, f.keyExchange, ServerKeyExchange)
    ensures Follows(f, sc, s, DoSendServerKeyExchange(s, v))
  {
    var r := DoSendServerKeyExchange(s, v);
    if r.wait.Paused? { StayFollows(f, sc, s, r, at); }
    else if !f.keyExchange { SkipFollows(f, sc, s, r, at); }
    else {
      Here(sc, at);
      AddsMessage(sc, at, at, s.pending, s.pending, s.transcript, ServerKeyExchange);
      SendFollows(f, sc, s, r, at, at + 1);
    }
  }

  lemma {:induction false} SendServerHelloDoneFollows(f: Flow, sc: seq<Entry>, s: ServerHs, v: Verdict, at: nat)
    requires at == 5
    requires at == Pos(f, s) <= |sc| && TurnsAt(f, sc, s, v, at) && s.state.SendServerHelloDone? && |sc| == 17
    requires sc[at] == From(Server, f.certRequest, CertificateRequest)
    requires sc[at + 1] == From(Server, true, ServerHelloDone)
    ensures Follows(f, sc, s, DoSendServerHelloDone(s, v))
  {
    var r := DoSendServerHelloDone(s, v);
    Here(sc, at);
    AddsMessage(sc, at, at, s.pending, s.pending, s.transcript, CertificateRequest);
    var s1 := Send(s, When(s.choices.certRequest, CertificateRequest));
    AddsMessage(sc, at, at + 1, s.pending, s1.pending, s1.transcript, ServerHelloDone);
    SendFollows(f, sc, s, r, at, at + 2);
  }

  lemma {:induction false} ReadClientCertificateFollows(f: Flow, sc: seq<Entry>, s: ServerHs, v: Verdict, at: nat)
    requires at == 7
    requires at == Pos(f, s) <= |sc| && TurnsAt(f, sc, s, v, at) && s.state.ReadClientCertificate? && |sc| == 17
    requires sc[at] == From(Client, f.certRequest, Certificate(f.clientCert))
    ensures Follows(f, sc, s, DoReadClientCertificate(s, v))
  {
    var r := DoReadClientCertificate(s, v);
    Here(sc, at);
    if !f.certRequest { SkipFollows(f, sc, s, r, at); }
    else if s.inbox == [] { BlockFollows(f, sc, s, at); }
    else { ReadFollows(f, sc, s, r, at); }
  }

  lemma {:induction false} VerifyClientCertificateFollows(f: Flow, sc: seq<Entry>, s: ServerHs, v: Verdict, at: nat)
    requires at == 8
    requires at == Pos(f, s) <= |sc| && TurnsAt(f, sc, s, v, at) && s.state.VerifyClientCertificate? && |sc| == 17
    ensures Follows(f, sc, s, DoVerifyClientCertificate(s, v))
  {
    StayFollows(f, sc, s, DoVerifyClientCertificate(s, v), at);
  }

  lemma {:induction false} ReadClientKeyExchangeFollows(f: Flow, sc: seq<Entry>, s: ServerHs, v: Verdict, at: nat)
    requires at == 8
    requires at == Pos(f, s) <= |sc| && TurnsAt(f, sc, s, v, at) && s.state.ReadClientKeyExchange? && |sc| == 17
    requires sc[at] == From(Client, true, ClientKeyExchange)
    ensures Follows(f, sc, s, DoReadClientKeyExchange(s, v))
  {
    var r := DoReadClientKeyExchange(s, v);
    Here(sc, at);
    if s.inbox == [] { BlockFollows(f, sc, s, at); }
    else if v.Retry? { StayFollows(f, sc, s, r, at); }
    else { ReadFollows(f, sc, s, r, at); }
  }

  lemma {:induction false} ReadClientCertificateVerifyFollows(f: Flow, sc: seq<Entry>, s: ServerHs, v: Verdict, at: nat)
    requires at == 9 == Pos(f, s) && |sc| == 17
    requires TurnsAt(f, sc, s, v, at) && s.state.ReadClientCertificateVerify?
    requires sc[at] == From(Client, f.certRequest && f.clientCert, CertificateVerify)
    ensures Follows(f, sc, s, DoReadClientCertificateVerify(s, v))
  {
    if sc[at].present { HoldsHere(sc, s, at); }
    var r := DoReadClientCertificateVerify(s, v);
    assert s.choices.peerKey == sc[at].present;
    OptionalStep(f, sc, s, r, at, AwaitChangeCipherSpec);
  }

  lemma {:induction false} AwaitChangeCipherSpecFollows(f: Flow, sc: seq<Entry>, s: ServerHs, v: Verdict, at: nat)
    requires at == Pos(f, s) <= |sc| && TurnsAt(f, sc, s, v, at) && s.state.AwaitChangeCipherSpec?
    requires |sc| == End(f)
    requires sc[at] == Entry(Client, true, ChangeCipherSpec)
    ensures Follows(f, sc, s, Go(s, ProcessChangeCipherSpec, ReadChangeCipherSpec))
  {
    Here(sc, at);
  }

  lemma {:induction false} ProcessChangeCipherSpecFollows(f: Flow, sc: seq<Entry>, s: ServerHs, v: Verdict, at: nat)
    requires at == Pos(f, s) <= |sc| && TurnsAt(f, sc, s, v, at) && s.state.ProcessChangeCipherSpec?
    requires |sc| == End(f)
    ensures Follows(f, sc, s, DoProcessChangeCipherSpec(s, v))
  {
    StayFollows(f, sc, s, DoProcessChangeCipherSpec(s, v), at);
  }

  lemma {:induction false} ReadNextProtoFollows(f: Flow, sc: seq<Entry>, s: ServerHs, v: Verdict, at: nat)
    requires 2 <= at < |sc| && at == Pos(f, s) && TurnsAt(f, sc, s, v, at) && s.state.ReadNextProto?
    requires sc[at] == From(Client, f.hello.npn, NextProto)
    ensures Follows(f, sc, s, DoReadNextProto(s, v))
  {
    if sc[at].present { HoldsHere(sc, s, at); }
    var r := DoReadNextProto(s, v);
    OptionalStep(f, sc, s, r, at, ReadChannelId);
  }

  lemma {:induction false} ReadChannelIdFollows(f: Flow, sc: seq<Entry>, s: ServerHs, v: Verdict, at: nat)
    requires 2 <= at < |sc| && at == Pos(f, s) && TurnsAt(f, sc, s, v, at) && s.state.ReadChannelId?
    requires sc[at] == From(Client, f.hello.channelId, ChannelId)
    ensures Follows(f, sc, s, DoReadChannelId(s, v))
  {
    if sc[at].present { HoldsHere(sc, s, at); }
    var r := DoReadChannelId(s, v);
    OptionalStep(f, sc, s, r, at, ReadClientFinished);
  }

  lemma {:induction false} ReadClientFinishedFollows(f: Flow, sc: seq<Entry>, s: ServerHs, v: Verdict, at: nat)
    requires at == Pos(f, s) <= |sc| && TurnsAt(f, sc, s, v, at) && s.state.ReadClientFinished? && |sc| == End(f)
    requires at == Pos(f, s)
    requires sc[at] == From(Client, true, Finished(Client, Transcript(sc, at)))
    ensures Follows(f, sc, s, DoReadClientFinished(s, v))
  {
    var r := DoReadClientFinished(s, v);
    Here(sc, at);
    if s.inbox == [] { BlockFollows(f, sc, s, at); } else { ReadFollows(f, sc, s, r, at); }
  }

  /** What the state sends in its last flight: an optional ticket, a
      ChangeCipherSpec and its Finished. */
  lemma {:induction false} LastFlight(s: ServerHs, r: ServerHs, v: Verdict, first: seq<Msg>, t: seq<Msg>)
    requires s.state.SendServerFinished? && !v.Fail? && r == DoSendServerFinished(s, v)
    requires first == When(s.hello.ticket, NewSessionTicket(false)) && t == s.transcript + first
    ensures r.pending == s.pending + Wrap(first) + [ChangeCipherSpec] + Wrap([Finished(Server, t)])
    ensures r.transcript == t + [Finished(Server, t)]
    ensures r == Go(s.(pending := r.pending, transcript := r.transcript),
                    if s.hello.resumes then AwaitChangeCipherSpec else FinishServerHandshake, Flush)
  {
  }

  lemma {:induction false} LastFlightSent(f: Flow, sc: seq<Entry>, s: ServerHs, r: ServerHs, v: Verdict, at: nat)
    requires at + 3 <= |sc| && ServerLastFlight(f, sc, at) && s.hello == f.hello
    requires s.state.SendServerFinished? && !v.Fail? && r == DoSendServerFinished(s, v)
    requires s.transcript == Transcript(sc, at)
    ensures r.pending == s.pending + Items(sc, at, at + 3) && r.transcript == Transcript(sc, at + 3)
    ensures r == Go(s.(pending := r.pending, transcript := r.transcript),
                    if f.hello.resumes then AwaitChangeCipherSpec else FinishServerHandshake, Flush)
  {
    var first := When(s.hello.ticket, NewSessionTicket(false));
    var t := s.transcript + first;
    LastFlight(s, r, v, first, t);
    Here(sc, at);
    AddsMessage(sc, at, at, s.pending, s.pending, s.transcript, NewSessionTicket(false));
    var p := s.pending + Wrap(first);
    AddsChangeCipherSpec(sc, at, at + 1, s.pending, p, t);
    AddsMessage(sc, at, at + 2, s.pending, p + [ChangeCipherSpec], t, Finished(Server, t));
  }

  lemma {:induction false} SendServerFinishedFollows(f: Flow, sc: seq<Entry>, s: ServerHs, r: ServerHs, v: Verdict,
        at: nat)
    requires 2 <= at && at + 3 <= |sc| && TurnsAt(f, sc, s, v, at) && ServerLastFlight(f, sc, at)
    requires r.pending == s.pending + Items(sc, at, at + 3) && r.transcript == Transcript(sc, at + 3)
    requires r == Go(s.(pending := r.pending, transcript := r.transcript), r.state, Flush)
    requires r.state.AwaitChangeCipherSpec? || r.state.FinishServerHandshake?
    requires Pos(f, s) == at && Pos(f, r) == at + 3
    ensures Follows(f, sc, s, r)
  {
    SendFollows(f, sc, s, r, at, at + 3);
  }

  lemma {:induction false} QuietFollows(f: Flow, sc: seq<Entry>, s: ServerHs, v: Verdict)
    requires Turns(f, sc, s, v) && |sc| == End(f)
    requires s.state.StartAccept? || s.state.FinishServerHandshake? || s.state.Done?
    ensures Follows(f, sc, s, Step(s, v))
  {
    StayFollows(f, sc, s, Step(s, v), Pos(f, s));
  }

  lemma {:induction false} FullStepFollows(f: Flow, sc: seq<Entry>, s: ServerHs, v: Verdict, at: nat)
    requires IsScript(f, sc) && Turns(f, sc, s, v) && FullOnly(s) && LeadsTo(s.config, f) && at == Pos(f, s)
    ensures Follows(f, sc, s, Step(s, v))
  {
    match s.state
    case SendServerCertificate => SendServerCertificateFollows(f, sc, s, v, at);
    case SendServerKeyExchange => SendServerKeyExchangeFollows(f, sc, s, v, at);
    case SendServerHelloDone => SendServerHelloDoneFollows(f, sc, s, v, at);
    case ReadClientCertificate => ReadClientCertificateFollows(f, sc, s, v, at);
    case VerifyClientCertificate => VerifyClientCertificateFollows(f, sc, s, v, at);
    case ReadClientKeyExchange => ReadClientKeyExchangeFollows(f, sc, s, v, at);
    case ReadClientCertificateVerify => ReadClientCertificateVerifyFollows(f, sc, s, v, at);
  }

  lemma {:induction false} LateStepFollows(f: Flow, sc: seq<Entry>, s: ServerHs, v: Verdict, first: nat)
    requires |sc| == End(f) && first == (if f.hello.resumes then 5 else 10) && ClientLastFlight(f, sc, first)
    requires Turns(f, sc, s, v) && IsLate(s)
    ensures Follows(f, sc, s, Step(s, v))
  {
    match s.state
    case AwaitChangeCipherSpec => AwaitChangeCipherSpecFollows(f, sc, s, v, first);
    case ProcessChangeCipherSpec => ProcessChangeCipherSpecFollows(f, sc, s, v, first + 1);
    case ReadNextProto => ReadNextProtoFollows(f, sc, s, v, first + 1);
    case ReadChannelId => ReadChannelIdFollows(f, sc, s, v, first + 2);
    case ReadClientFinished => ReadClientFinishedFollows(f, sc, s, v, first + 3);
  }

  lemma {:induction false} LastStepFollows(f: Flow, sc: seq<Entry>, s: ServerHs, v: Verdict, at: nat)
    requires |sc| == End(f) && at == (if f.hello.resumes then 2 else 14) && ServerLastFlight(f, sc, at)
    requires at == Pos(f, s) && TurnsAt(f, sc, s, v, at) && s.state.SendServerFinished?
    ensures Follows(f, sc, s, DoSendServerFinished(s, v))
  {
    var r := DoSendServerFinished(s, v);
    LastFlightSent(f, sc, s, r, v, at);
    LastPos(f, s, r);
    SendServerFinishedFollows(f, sc, s, r, v, at);
  }

  lemma {:induction false} LastPos(f: Flow, s: ServerHs, r: ServerHs)
    requires s.state.SendServerFinished?
    requires r.state == if f.hello.resumes then AwaitChangeCipherSpec else FinishServerHandshake
    ensures Pos(f, r) == Pos(f, s) + 3
  {
  }

  lemma {:induction false} EarlyStepFollows(f: Flow, sc: seq<Entry>, s: ServerHs, v: Verdict)
    requires IsScript(f, sc) && Turns(f, sc, s, v) && LeadsTo(s.config, f)
    requires !FullOnly(s) && !IsLate(s) && !s.state.SendServerFinished?
    ensures Follows(f, sc, s, Step(s, v))
  {
    match s.state
    case ReadClientHello | SelectCertificate => ReadClientHelloFollows(f, sc, s, v, 0);
    case SelectParameters => SelectParametersFollows(f, sc, s, v, 0);
    case SendServerHello => SendServerHelloFollows(f, sc, s, v, 1);
    case StartAccept | FinishServerHandshake | Done => QuietFollows(f, sc, s, v);
  }

  /** Every turn of the server's switch keeps it on the script. */
  lemma {:induction false} StepFollows(f: Flow, sc: seq<Entry>, s: ServerHs, v: Verdict)
    requires IsScript(f, sc) && Turns(f, sc, s, v) && LeadsTo(s.config, f)
    ensures Follows(f, sc, s, Step(s, v))
  {
    if FullOnly(s) {
      FullStepFollows(f, sc, s, v, Pos(f, s));
    } else if IsLate(s) {
      LateStepFollows(f, sc, s, v, if f.hello.resumes then 5 else 10);
    } else if s.state.SendServerFinished? {
      LastStepFollows(f, sc, s, v, Pos(f, s));
    } else {
      EarlyStepFollows(f, sc, s, v);
    }
  }

  lemma {:induction false} LeaveKeeps(f: Flow, sc: seq<Entry>, s: ServerHs, at: nat)
    requires at <= |sc| && InvAt(f, sc, s, at) && s.wait.Flush? && s.pending != []
    ensures InvAt(f, sc, s.(pending := s.pending[1..]), at)
  {
  }

  /** The flight is out, or the callback it paused for is ready. */
  lemma {:induction false} WakeKeeps(f: Flow, sc: seq<Entry>, s: ServerHs, at: nat)
    requires at <= |sc| && InvAt(f, sc, s, at)
    requires (s.wait.Flush? && s.pending == []) || s.wait.Paused?
    ensures InvAt(f, sc, s.(wait := Ready), at)
  {
  }

  lemma {:induction false} ArriveKeeps(f: Flow, sc: seq<Entry>, s: ServerHs, at: nat, m: Msg)
    requires at <= |sc| && InvAt(f, sc, s, at) && s.wait.ReadMessage?
    ensures InvAt(f, sc, s.(inbox := [m], wait := Ready), at)
  {
  }

  /** A record that completes no message only ends the wait. */
  lemma {:induction false} PartKeeps(f: Flow, sc: seq<Entry>, s: ServerHs, at: nat)
    requires at <= |sc| && InvAt(f, sc, s, at) && s.wait.ReadMessage?
    ensures React(s, Arrive(Packed([]))) == s.(wait := Ready) && InvAt(f, sc, s.(wait := Ready), at)
  {
    assert s.inbox + [] == s.inbox;
  }

  lemma {:induction false} SwitchKeeps(f: Flow, sc: seq<Entry>, s: ServerHs, at: nat)
    requires 2 <= at < |sc| && InvAt(f, sc, s, at) && s.wait.ReadChangeCipherSpec?
    requires sc[at] == Entry(Client, true, ChangeCipherSpec)
    ensures InvAt(f, sc, s.(wait := Ready), at + 1)
  {
    Here(sc, at);
  }
}
