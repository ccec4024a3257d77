/** What a client that finishes has read and checked, whatever its peer sent. */
module TlsClientSafety {
  import opened TlsMessages
  import opened TlsClient

  /** What a peer has chosen so far: the parameters of its hello, which optional
      messages it sent, and whether its ticket was empty. */
  datatype Peer = Peer(params: Params, status: bool, keyExchange: bool, certRequest: bool, empty: bool)

  /** The messages of a handshake with such a peer, in the order of section 7.3 of
      RFC 5246, up to and including an optional one. */
  function Hellos(config: ClientConfig, g: Peer): seq<Msg> {
    [ClientHello(config.offersSession), ServerHello(g.params)]
  }

  function ToCertificate(config: ClientConfig, g: Peer): seq<Msg> {
    Hellos(config, g) + When(g.params.cipher.certAuth, Certificate(true))
  }

  function ToStatus(config: ClientConfig, g: Peer): seq<Msg> {
    ToCertificate(config, g) + When(g.status, CertificateStatus)
  }

  function ToKeyExchange(config: ClientConfig, g: Peer): seq<Msg> {
    ToStatus(config, g) + When(g.keyExchange, ServerKeyExchange)
  }

  function ToRequest(config: ClientConfig, g: Peer): seq<Msg> {
    ToKeyExchange(config, g) + When(g.certRequest, CertificateRequest)
  }

  function ToHelloDone(config: ClientConfig, g: Peer): seq<Msg> { ToRequest(config, g) + [ServerHelloDone] }

  function ToOwnCertificate(config: ClientConfig, g: Peer): seq<Msg> {
    ToHelloDone(config, g) + When(g.certRequest, Certificate(config.hasCertificate))
  }

  function ToOwnKeyExchange(config: ClientConfig, g: Peer): seq<Msg> {
    ToOwnCertificate(config, g) + [ClientKeyExchange]
  }

  function ToVerify(config: ClientConfig, g: Peer): seq<Msg> {
    ToOwnKeyExchange(config, g) + When(g.certRequest && config.hasCertificate, CertificateVerify)
  }

  /** A side's last messages: each Finished covers all before it. */
  function Ticketed(t: seq<Msg>, g: Peer): seq<Msg> { t + When(g.params.ticket, NewSessionTicket(g.empty)) }

  function ServerFinishes(t: seq<Msg>): seq<Msg> { t + [Finished(Server, t)] }

  function ClientFinishes(t: seq<Msg>, g: Peer): seq<Msg> {
    var u := t + When(g.params.npn, NextProto) + When(g.params.channelId, ChannelId);
    u + [Finished(Client, u)]
  }

  predicate Resumed(config: ClientConfig, g: Peer) { config.offersSession && g.params.resumes }

  /** The whole handshake, resumed or full. */
  function Messages(config: ClientConfig, g: Peer): seq<Msg> {
    if Resumed(config, g) then ClientFinishes(ServerFinishes(Ticketed(Hellos(config, g), g)), g)
    else ServerFinishes(Ticketed(ClientFinishes(ToVerify(config, g), g), g))
  }

  /** What a peer may choose. */
  predicate Allowed(g: Peer) {
    && (g.status ==> g.params.status)
    && (g.keyExchange ==> !g.params.cipher.kx.RSA?)
    && (g.certRequest ==> g.params.cipher.certAuth)
  }

  function BeforeTicket(config: ClientConfig, resumed: bool, g: Peer): seq<Msg> {
    if resumed then Hellos(config, g) else ClientFinishes(ToVerify(config, g), g)
  }

  /** What has been hashed in each state. */
  function Expected(c: ClientHs, g: Peer): seq<Msg> {
    var resumed := c.hello.resumes;
    match c.state
    case StartConnect => []
    case EnterEarlyData | ReadServerHello => [ClientHello(c.config.offersSession)]
    case ReadServerCertificate => Hellos(c.config, g)
    case ReadCertificateStatus => ToCertificate(c.config, g)
    case VerifyServerCertificate | ReadServerKeyExchange => ToStatus(c.config, g)
    case ReadCertificateRequest => ToKeyExchange(c.config, g)
    case ReadServerHelloDone => ToRequest(c.config, g)
    case SendClientCertificate => ToHelloDone(c.config, g)
    case SendClientKeyExchange => ToOwnCertificate(c.config, g)
    case SendClientCertificateVerify => ToOwnKeyExchange(c.config, g)
    case SendClientFinished =>
      if resumed then ServerFinishes(Ticketed(Hellos(c.config, g), g)) else ToVerify(c.config, g)
    case FinishFlight =>
      if resumed then Messages(c.config, g) else ClientFinishes(ToVerify(c.config, g), g)
    case ReadSessionTicket => BeforeTicket(c.config, resumed, g)
    case ProcessChangeCipherSpec | ReadServerFinished => Ticketed(BeforeTicket(c.config, resumed, g), g)
    case FinishClientHandshake | Done => Messages(c.config, g)
  }

  /** What the client knows of its peer. */
  predicate Knows(c: ClientHs, g: Peer) {
    && Allowed(g) && c.certRequest == g.certRequest && SkipsFullStates(c)
    && (Rank(c) <= 17 ==> c.hello == g.params.(resumes := Resumed(c.config, g), ticket := c.hello.ticket))
    && (6 <= Rank(c) <= 17 ==> c.hello.ticket == g.params.ticket)
    && (Rank(c) <= 13 && !c.hello.resumes && g.params.cipher.kx.ECDHE? ==> g.keyExchange)
    && (Rank(c) > 12 ==> !g.certRequest)
    && (c.hello.resumes ==> !g.keyExchange && !g.status && !g.certRequest)
  }

  /** A resumed handshake skips the states between ServerHello and the ticket. */
  predicate SkipsFullStates(c: ClientHs) { c.hello.resumes ==> Rank(c) <= 6 }

  predicate On(c: ClientHs, g: Peer) { Knows(c, g) && c.transcript == Expected(c, g) }

  const Nobody := Peer(Params(false, Cipher(RSA, true), false, false, false, false), false, false, false, false)

  /** A step that reads a message that the client awaits in any case, or waits for it. */
  lemma {:induction false} ServerHelloOn(c: ClientHs, v: Verdict, g: Peer) returns (h: Peer)
    requires On(c, g) && c.state.ReadServerHello?
    ensures On(DoReadServerHello(c, v), h)
  {
    h := if DoReadServerHello(c, v).state == c.state then g else Nobody.(params := c.inbox[0].params);
  }

  lemma {:induction false} CertificateOn(c: ClientHs, v: Verdict, g: Peer)
    requires On(c, g) && c.state.ReadServerCertificate?
    ensures On(DoReadServerCertificate(c, v), g)
  {
  }

  /** A step that may read an optional message. */
  lemma {:induction false} StatusOn(c: ClientHs, v: Verdict, g: Peer) returns (h: Peer)
    requires On(c, g) && c.state.ReadCertificateStatus?
    ensures On(DoReadCertificateStatus(c, v), h)
  {
    var r := DoReadCertificateStatus(c, v);
    h := if r.state == c.state then g else g.(status := |r.inbox| < |c.inbox|);
  }

  lemma {:induction false} KeyExchangeOn(c: ClientHs, v: Verdict, g: Peer) returns (h: Peer)
    requires On(c, g) && c.state.ReadServerKeyExchange?
    ensures On(DoReadServerKeyExchange(c, v), h)
  {
    var r := DoReadServerKeyExchange(c, v);
    h := if r.state == c.state then g else g.(keyExchange := |r.inbox| < |c.inbox|);
  }

  lemma {:induction false} RequestOn(c: ClientHs, v: Verdict, g: Peer) returns (h: Peer)
    requires On(c, g) && c.state.ReadCertificateRequest?
    ensures On(DoReadCertificateRequest(c, v), h)
  {
    h := g.(certRequest := DoReadCertificateRequest(c, v).certRequest);
  }

  /** Whether the ticket is empty matters only to the ticket. */
  lemma {:induction false} EmptyLater(config: ClientConfig, resumed: bool, g: Peer, h: Peer)
    requires h == g.(empty := h.empty)
    ensures BeforeTicket(config, resumed, h) == BeforeTicket(config, resumed, g)
  {
    assert ToHelloDone(config, h) == ToHelloDone(config, g);
  }

  lemma {:induction false} TicketHashed(c: ClientHs, v: Verdict, g: Peer, h: Peer, before: seq<Msg>)
    requires c.state.ReadSessionTicket? && Knows(c, g) && c.transcript == before
    requires h == if c.hello.ticket && c.inbox != [] && c.inbox[0].NewSessionTicket?
                  then g.(empty := c.inbox[0].empty) else g
    ensures
      var r := DoReadSessionTicket(c, v);
      && Knows(r, h) && r.hello.resumes == c.hello.resumes && r.config == c.config
      && (r.state.ReadSessionTicket? || r.state.ProcessChangeCipherSpec?)
      && r.transcript == if r.state == c.state then before else Ticketed(before, h)
  {
  }

  lemma {:induction false} TicketExpected(r: ClientHs, h: Peer, before: seq<Msg>)
    requires r.state.ReadSessionTicket? || r.state.ProcessChangeCipherSpec?
    requires before == BeforeTicket(r.config, r.hello.resumes, h)
    requires r.transcript == if r.state.ReadSessionTicket? then before else Ticketed(before, h)
    ensures r.transcript == Expected(r, h)
  {
  }

  lemma {:induction false} TicketOn(c: ClientHs, v: Verdict, g: Peer) returns (h: Peer)
    requires On(c, g) && c.state.ReadSessionTicket?
    ensures On(DoReadSessionTicket(c, v), h)
  {
    h := if c.hello.ticket && c.inbox != [] && c.inbox[0].NewSessionTicket? then g.(empty := c.inbox[0].empty) else g;
    EmptyLater(c.config, c.hello.resumes, g, h);
    TicketHashed(c, v, g, h, c.transcript);
    TicketExpected(DoReadSessionTicket(c, v), h, c.transcript);
  }

  lemma {:induction false} PeerFinishedOn(c: ClientHs, v: Verdict, g: Peer)
    requires On(c, g) && c.state.ReadServerFinished?
    ensures On(DoReadServerFinished(c, v), g)
  {
  }

  lemma {:induction false} OwnFinishedOn(c: ClientHs, v: Verdict, g: Peer)
    requires On(c, g) && c.state.SendClientFinished?
    ensures On(DoSendClientFinished(c, v), g)
  {
  }

  /** A step that sends, and whose message the state decides. */
  lemma {:induction false} SendOn(c: ClientHs, v: Verdict, g: Peer)
    requires On(c, g)
    requires c.state.SendClientCertificate? || c.state.SendClientKeyExchange? || c.state.SendClientCertificateVerify?
    ensures On(Step(c, v), g)
  {
  }

  lemma {:induction false} StartOn(c: ClientHs, v: Verdict, g: Peer)
    requires On(c, g) && (c.state.StartConnect? || c.state.EnterEarlyData? || c.state.ReadServerHelloDone?)
    ensures On(Step(c, v), g)
  {
  }

  lemma {:induction false} VerifyOn(c: ClientHs, v: Verdict, g: Peer)
    requires On(c, g) && c.state.VerifyServerCertificate?
    ensures On(DoVerifyServerCertificate(c, v), g)
  {
    assert Expected(DoVerifyServerCertificate(c, v), g) == Expected(c, g);
  }

  lemma {:induction false} SwitchOn(c: ClientHs, v: Verdict, g: Peer)
    requires On(c, g) && c.state.ProcessChangeCipherSpec?
    ensures On(DoProcessChangeCipherSpec(c, v), g)
  {
    assert Expected(DoProcessChangeCipherSpec(c, v), g) == Expected(c, g);
  }

  lemma {:induction false} EndOn(c: ClientHs, v: Verdict, g: Peer)
    requires On(c, g) && (c.state.FinishFlight? || c.state.FinishClientHandshake? || c.state.Done?)
    ensures On(Step(c, v), g)
  {
  }

  /** Every turn of the switch keeps the client on a handshake with some peer. */
  lemma {:induction false} StepOn(c: ClientHs, v: Verdict, g: Peer) returns (h: Peer)
    requires On(c, g) && c.wait.Ready?
    ensures On(Step(c, v), h)
  {
    h := g;
    match c.state
    case ReadServerHello => h := ServerHelloOn(c, v, g);
    case ReadServerCertificate => CertificateOn(c, v, g);
    case ReadCertificateStatus => h := StatusOn(c, v, g);
    case ReadServerKeyExchange => h := KeyExchangeOn(c, v, g);
    case ReadCertificateRequest => h := RequestOn(c, v, g);
    case ReadSessionTicket => h := TicketOn(c, v, g);
    case ReadServerFinished => PeerFinishedOn(c, v, g);
    case SendClientFinished => OwnFinishedOn(c, v, g);
    case SendClientCertificate | SendClientKeyExchange | SendClientCertificateVerify => SendOn(c, v, g);
    case StartConnect | EnterEarlyData | ReadServerHelloDone => StartOn(c, v, g);
    case VerifyServerCertificate => VerifyOn(c, v, g);
    case ProcessChangeCipherSpec => SwitchOn(c, v, g);
    case FinishFlight | FinishClientHandshake | Done => EndOn(c, v, g);
  }

  /** The step asks something of code that is not part of the machine: for what it
      sends, or for the message that it awaits. */
  predicate Asks(c: ClientHs) {
    match c.state
    case StartConnect | SendClientKeyExchange | SendClientFinished => true
    case ProcessChangeCipherSpec | FinishClientHandshake => true
    case EnterEarlyData | ReadServerFinished | Done => false
    case ReadServerHello => c.inbox != [] && c.inbox[0].ServerHello?
    case ReadServerCertificate => c.hello.cipher.certAuth && c.inbox != [] && c.inbox[0].Certificate?
    case ReadCertificateStatus => c.hello.status && c.inbox != [] && c.inbox[0].CertificateStatus?
    case VerifyServerCertificate => c.hello.cipher.certAuth
    case ReadServerKeyExchange => c.inbox != [] && c.inbox[0].ServerKeyExchange?
    case ReadCertificateRequest => c.hello.cipher.certAuth && c.inbox != [] && c.inbox[0].CertificateRequest?
    case ReadServerHelloDone => c.inbox != [] && c.inbox[0].ServerHelloDone?
    case SendClientCertificate => c.certRequest
    case SendClientCertificateVerify => c.certRequest && c.config.hasCertificate
    case FinishFlight => !c.hello.resumes
    case ReadSessionTicket => c.hello.ticket && c.inbox != [] && c.inbox[0].NewSessionTicket?
  }

  /** A check that fails ends the handshake; one that asks to wait pauses it, and no
      message is sent or consumed. A message that is left over when the keys change is
      fatal. */
  lemma {:induction false} ChecksDecide(c: ClientHs, v: Verdict)
    requires c.wait.Ready?
    ensures Asks(c) ==> Step(c, Fail) == c.(wait := Error)
    ensures MayPause(c) ==> Step(c, Retry) == c.(wait := Paused)
    ensures !Asks(c) ==> Step(c, Fail) == Step(c, Proceed)
    ensures !MayPause(c) && !ReturnsEarly(c) ==> Step(c, Retry) == Step(c, Proceed)
    ensures ReturnsEarly(c) ==> Step(c, Retry) == Step(c, Proceed).(wait := Paused)
    ensures c.state.ProcessChangeCipherSpec? && c.inbox != [] ==> Step(c, v) == c.(wait := Error)
  {
  }

  /** The caller may have the connection before the handshake is over (False Start). */
  predicate ReturnsEarly(c: ClientHs) { c.state.FinishFlight? && !c.hello.resumes }

  predicate MayPause(c: ClientHs) {
    || (c.state.VerifyServerCertificate? && c.hello.cipher.certAuth)
    || (c.state.SendClientCertificate? && c.certRequest)
    || (c.state.SendClientCertificateVerify? && c.certRequest && c.config.hasCertificate)
    || (c.state.SendClientFinished? && c.hello.channelId)
  }

  /** What resolves a wait touches only the queues and the wait. */
  lemma {:induction false} WaitOn(c: ClientHs, e: Event, g: Peer)
    requires On(c, g) && !(c.wait.Ready? && e.Turn?)
    ensures On(React(c, e), g)
  {
    var r := React(c, e);
    assert r.state == c.state && r.transcript == c.transcript && r.hello == c.hello && r.config == c.config;
  }

  /** Against any peer, what a client has hashed is the beginning of a handshake. */
  lemma {:induction false} RunOn(config: ClientConfig, events: seq<Event>) returns (g: Peer)
    ensures On(Run(Init(config), events), g) && Run(Init(config), events).config == config
    decreases |events|
  {
    if events == [] {
      g := Nobody;
    } else {
      var c := Run(Init(config), events[..|events| - 1]);
      var e := events[|events| - 1];
      g := RunOn(config, events[..|events| - 1]);
      if c.wait.Ready? && e.Turn? { g := StepOn(c, e.v, g); } else { WaitOn(c, e, g); }
      ConfigStays(c, e);
    }
  }

  lemma {:induction false} ConfigStays(c: ClientHs, e: Event)
    ensures React(c, e).config == c.config
  {
  }

  predicate NoServerFinished(t: seq<Msg>) { forall m <- t :: !(m.Finished? && m.sender.Server?) }

  /** Until it reads the server's Finished, the client has hashed none. */
  predicate NotYetFinished(c: ClientHs) { Rank(c) > 3 ==> NoServerFinished(c.transcript) }

  /** The message that a step hashes, but for the two Finished messages. */
  lemma {:induction false} StepHashes(c: ClientHs, v: Verdict)
    requires !c.state.SendClientFinished? && !c.state.ReadServerFinished?
    ensures
      var t := Step(c, v).transcript;
      t == c.transcript
      || (t != [] && t == c.transcript + [t[|t| - 1]] && !(t[|t| - 1].Finished? && t[|t| - 1].sender.Server?))
  {
  }

  /** A step that hashes a message it received hashes no Finished of the server. */
  lemma {:induction false} ReadNotYet(c: ClientHs, v: Verdict)
    requires NotYetFinished(c) && !c.state.SendClientFinished?
    ensures NotYetFinished(Step(c, v))
  {
    if !c.state.ReadServerFinished? { StepHashes(c, v); }
  }

  lemma {:induction false} SendNotYet(c: ClientHs, v: Verdict)
    requires NotYetFinished(c) && c.state.SendClientFinished?
    ensures NotYetFinished(DoSendClientFinished(c, v))
  {
  }

  lemma {:induction false} StepNotYet(c: ClientHs, v: Verdict)
    requires NotYetFinished(c)
    ensures NotYetFinished(Step(c, v))
  {
    if c.state.SendClientFinished? { SendNotYet(c, v); } else { ReadNotYet(c, v); }
  }

  lemma {:induction false} ReactNotYet(c: ClientHs, e: Event)
    requires NotYetFinished(c)
    ensures NotYetFinished(React(c, e))
  {
    if c.wait.Ready? && e.Turn? { StepNotYet(c, e.v); }
  }

  lemma {:induction false} RunNotYet(config: ClientConfig, events: seq<Event>)
    ensures NotYetFinished(Run(Init(config), events))
  {
    if events != [] {
      RunNotYet(config, events[..|events| - 1]);
      ReactNotYet(Run(Init(config), events[..|events| - 1]), events[|events| - 1]);
    }
  }

  /** Event i resolved the wait for a ChangeCipherSpec, at a time when no Finished of
      the server had been hashed. */
  predicate Switched(config: ClientConfig, events: seq<Event>, i: nat) {
    && i < |events| && events[i] == Arrive(ChangeCipherSpec)
    && var c := Run(Init(config), events[..i]);
       c.wait.ReadChangeCipherSpec? && NoServerFinished(c.transcript)
  }

  /** The ChangeCipherSpec is behind it. */
  predicate PastSwitch(c: ClientHs) {
    Rank(c) <= 4 || (c.state.ProcessChangeCipherSpec? && !c.wait.ReadChangeCipherSpec? && !c.wait.Error?)
  }

  /** No step before the server's ticket reaches the ChangeCipherSpec. */
  lemma {:induction false} FarFromSwitch(c: ClientHs, v: Verdict)
    requires SkipsFullStates(c) && Rank(c) > 12
    ensures Rank(Step(c, v)) >= 6
  {
  }

  lemma {:induction false} NearSwitch(c: ClientHs, v: Verdict)
    requires SkipsFullStates(c) && 6 < Rank(c) <= 12
    ensures !PastSwitch(Step(c, v))
  {
  }

  lemma {:induction false} StepSwitches(c: ClientHs, v: Verdict)
    requires SkipsFullStates(c) && c.wait.Ready? && !PastSwitch(c)
    ensures !PastSwitch(Step(c, v))
  {
    if Rank(c) > 12 { FarFromSwitch(c, v); } else if Rank(c) > 6 { NearSwitch(c, v); }
  }

  lemma {:induction false} ReactSwitches(c: ClientHs, e: Event)
    requires SkipsFullStates(c) && !PastSwitch(c) && PastSwitch(React(c, e))
    ensures e == Arrive(ChangeCipherSpec) && c.wait.ReadChangeCipherSpec? && c.state.ProcessChangeCipherSpec?
  {
    if c.wait.Ready? && e.Turn? { StepSwitches(c, e.v); } else { assert Rank(React(c, e)) == Rank(c); }
  }

  lemma {:induction false} LastEvent(config: ClientConfig, events: seq<Event>, n: nat)
    requires |events| == n + 1
    ensures Run(Init(config), events) == React(Run(Init(config), events[..n]), events[n])
  {
  }

  lemma {:induction false} SwitchedBefore(config: ClientConfig, events: seq<Event>) returns (i: nat)
    requires PastSwitch(Run(Init(config), events))
    ensures Switched(config, events, i)
    decreases |events|
  {
    var n := |events| - 1;
    LastEvent(config, events, n);
    var c := Run(Init(config), events[..n]);
    if PastSwitch(c) {
      i := SwitchedBefore(config, events[..n]);
      assert events[..n][..i] == events[..i];
    } else {
      var g := RunOn(config, events[..n]);
      ReactSwitches(c, events[n]);
      RunNotYet(config, events[..n]);
      i := n;
    }
  }

  /** Event i is the verdict that accepted the server's certificate. */
  predicate Verified(config: ClientConfig, events: seq<Event>, i: nat) {
    && i < |events| && events[i] == Turn(Proceed)
    && var c := Run(Init(config), events[..i]); c.wait.Ready? && c.state.VerifyServerCertificate?
  }

  /** Event i accepted the server's signed key exchange. */
  predicate Signed(config: ClientConfig, events: seq<Event>, i: nat) {
    && i < |events| && events[i].Turn? && !events[i].v.Fail?
    && var c := Run(Init(config), events[..i]);
       c.wait.Ready? && c.state.ReadServerKeyExchange? && c.inbox != [] && c.inbox[0].ServerKeyExchange?
  }

  /** A full handshake with a certificate cipher is past the verification. */
  predicate PastVerify(c: ClientHs) { !c.hello.resumes && c.hello.cipher.certAuth && Rank(c) <= 14 }

  lemma {:induction false} ReactVerifies(c: ClientHs, e: Event)
    requires SkipsFullStates(c) && !PastVerify(c) && PastVerify(React(c, e))
    ensures e == Turn(Proceed) && c.wait.Ready? && c.state.VerifyServerCertificate?
  {
  }

  lemma {:induction false} VerifiedBefore(config: ClientConfig, events: seq<Event>) returns (i: nat)
    requires PastVerify(Run(Init(config), events))
    ensures Verified(config, events, i)
    decreases |events|
  {
    var n := |events| - 1;
    LastEvent(config, events, n);
    var c := Run(Init(config), events[..n]);
    if PastVerify(c) {
      i := VerifiedBefore(config, events[..n]);
      assert events[..n][..i] == events[..i];
    } else {
      var g := RunOn(config, events[..n]);
      ReactVerifies(c, events[n]);
      i := n;
    }
  }

  /** Such a handshake, with a cipher that has a signed key exchange, is past that. */
  predicate PastSignature(c: ClientHs) {
    !c.hello.resumes && c.hello.cipher.certAuth && c.hello.cipher.kx.ECDHE? && Rank(c) <= 13
  }

  lemma {:induction false} ReactSigned(c: ClientHs, e: Event)
    requires SkipsFullStates(c) && !PastSignature(c) && PastSignature(React(c, e))
    ensures e.Turn? && !e.v.Fail? && c.wait.Ready? && c.state.ReadServerKeyExchange?
    ensures c.inbox != [] && c.inbox[0].ServerKeyExchange?
  {
  }

  lemma {:induction false} SignedBefore(config: ClientConfig, events: seq<Event>) returns (i: nat)
    requires PastSignature(Run(Init(config), events))
    ensures Signed(config, events, i)
    decreases |events|
  {
    var n := |events| - 1;
    LastEvent(config, events, n);
    var c := Run(Init(config), events[..n]);
    if PastSignature(c) {
      i := SignedBefore(config, events[..n]);
      assert events[..n][..i] == events[..i];
    } else {
      var g := RunOn(config, events[..n]);
      ReactSigned(c, events[n]);
      i := n;
    }
  }

  /** All of this peer's choices belong to one handshake. */
  predicate Complete(config: ClientConfig, g: Peer) {
    && Allowed(g)
    && if Resumed(config, g) then !g.keyExchange && !g.status && !g.certRequest
       else g.params.cipher.kx.ECDHE? ==> g.keyExchange
  }

  /** What a run that is done has established. */
  predicate EstablishedWith(config: ClientConfig, events: seq<Event>, g: Peer) {
    Complete(config, g) && Run(Init(config), events).transcript == Messages(config, g)
  }

  ghost predicate Established(config: ClientConfig, events: seq<Event>) {
    && (exists g :: EstablishedWith(config, events, g))
    && (exists i :: Switched(config, events, i))
    && var hello := Run(Init(config), events).hello;
       !hello.resumes && hello.cipher.certAuth ==>
         && (exists i :: Verified(config, events, i))
         && (hello.cipher.kx.ECDHE? ==> exists i :: Signed(config, events, i))
  }

  /** Against any peer and any sequence of verdicts and pauses, a client is done
      only if it has hashed exactly the message list of a resumed or a full handshake,
      with both Finished messages over all before them and a key exchange exactly where
      its cipher has one; it read a ChangeCipherSpec before it hashed any Finished of
      the server; and, for a full handshake with a certificate cipher, a verdict
      accepted the certificate, and one the signed key exchange that it requires. */
  lemma {:induction false} DoneOnlyIfEstablished(config: ClientConfig, events: seq<Event>)
    requires Run(Init(config), events).state.Done?
    ensures Established(config, events)
  {
    var g := RunOn(config, events);
    assert EstablishedWith(config, events, g);
    var i := SwitchedBefore(config, events);
    var c := Run(Init(config), events);
    if PastVerify(c) { var j := VerifiedBefore(config, events); }
    if PastSignature(c) { var k := SignedBefore(config, events); }
  }
}
