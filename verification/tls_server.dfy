/** The server's handshake machine below TLS 1.3, in the style of the client's. */
module TlsServer {
  import opened TlsMessages

  datatype ServerState =
    | StartAccept
    | ReadClientHello
    | SelectCertificate
    | SelectParameters
    | SendServerHello
    | SendServerCertificate
    | SendServerKeyExchange
    | SendServerHelloDone
    | ReadClientCertificate
    | VerifyClientCertificate
    | ReadClientKeyExchange
    | ReadClientCertificateVerify
    | AwaitChangeCipherSpec
    | ProcessChangeCipherSpec
    | ReadNextProto
    | ReadChannelId
    | ReadClientFinished
    | SendServerFinished
    | FinishServerHandshake
    | Done

  /** How the server will answer: the cipher it chooses, whether it finds the
      offered session and renews its ticket, and the extensions it negotiates.
      `pskHint` is a configured PSK identity hint, `originalHash` whether the
      resumed session recorded its handshake hash. */
  datatype ServerConfig = ServerConfig(
    cipher: Cipher, resumes: bool, renewsTicket: bool, tickets: bool, originalHash: bool,
    requestsCertificate: bool, extensions: Extensions)

  datatype Extensions = Extensions(staples: bool, pskHint: bool, npn: bool, channelId: bool)

  /** What the run has decided: the request for a client certificate, the client
      key it holds, and whether ServerKeyExchange parameters are assembled. */
  datatype Choices = Choices(certRequest: bool, peerKey: bool, serverParams: bool)

  datatype ServerHs = ServerHs(
    state: ServerState,
    wait: Wait,
    inbox: seq<Msg>,
    pending: seq<Record>,
    transcript: seq<Msg>,
    config: ServerConfig,
    hello: Params,
    choices: Choices
  )

  function Init(config: ServerConfig): ServerHs {
    ServerHs(StartAccept, Ready, [], [], [], config,
             Params(false, config.cipher, false, false, false, false), Choices(false, false, false))
  }

  /** Steps left before Done; it depends on resumption around the two Finished
      messages. */
  function Rank(s: ServerHs): nat {
    match s.state
    case StartAccept => 20
    case ReadClientHello => 19
    case SelectCertificate => 18
    case SelectParameters => 17
    case SendServerHello => 16
    case SendServerCertificate => 15
    case SendServerKeyExchange => 14
    case SendServerHelloDone => 13
    case ReadClientCertificate => 12
    case VerifyClientCertificate => 11
    case ReadClientKeyExchange => 10
    case ReadClientCertificateVerify => 9
    case AwaitChangeCipherSpec => 8
    case ProcessChangeCipherSpec => 7
    case ReadNextProto => 6
    case ReadChannelId => 5
    case ReadClientFinished => 4
    case SendServerFinished => if s.hello.resumes then 11 else 3
    case FinishServerHandshake => 1
    case Done => 0
  }

  /** A step either advances the state, lowering the rank, or stops the loop. */
  predicate Advances(s: ServerHs, r: ServerHs) {
    Rank(r) < Rank(s) || (!r.wait.Ready? && Rank(r) == Rank(s))
  }

  function Go(s: ServerHs, next: ServerState, wait: Wait): ServerHs {
    s.(state := next, wait := wait)
  }

  function Fatal(s: ServerHs): ServerHs { s.(wait := Error) }

  function Send(s: ServerHs, msgs: seq<Msg>): ServerHs {
    s.(pending := s.pending + Wrap(msgs), transcript := s.transcript + msgs)
  }

  function Consume(s: ServerHs): ServerHs
    requires s.inbox != []
  {
    s.(transcript := s.transcript + [s.inbox[0]], inbox := s.inbox[1..])
  }

  function DoReadClientHello(s: ServerHs, v: Verdict): (r: ServerHs)
    requires s.state.ReadClientHello?
    ensures Advances(s, r)
  {
    if s.inbox == [] then s.(wait := ReadMessage)
    else if !s.inbox[0].ClientHello? then Fatal(s)
    else match v
      case Proceed => Go(s, SelectCertificate, Ready)
      case Retry => s.(wait := Paused)
      case Fail => Fatal(s)
  }

  function DoSelectCertificate(s: ServerHs, v: Verdict): (r: ServerHs)
    requires s.state.SelectCertificate?
    ensures Advances(s, r)
  {
    if s.inbox == [] then s.(wait := ReadMessage)
    else match v
      case Proceed => Go(s, SelectParameters, Ready)
      case Retry => s.(wait := Paused)
      case Fail => Fatal(s)
  }

  /** The session is resumed if the client offered one and it is found and
      usable; only a full handshake with a certificate cipher may ask for a
      client certificate. */
  function SelectedParams(config: ServerConfig, offersSession: bool): Params {
    var resumes := config.resumes && offersSession;
    Params(resumes, config.cipher, false,
           if resumes then config.renewsTicket else config.tickets,
           config.extensions.npn, config.extensions.channelId)
  }

  function RequestsCertificate(config: ServerConfig, hello: Params): bool {
    !hello.resumes && config.requestsCertificate && config.cipher.certAuth
  }

  function DoSelectParameters(s: ServerHs, v: Verdict): (r: ServerHs)
    requires s.state.SelectParameters?
    ensures Advances(s, r)
  {
    if s.inbox == [] then s.(wait := ReadMessage)
    else if !s.inbox[0].ClientHello? then Fatal(s)
    else match v
      case Proceed =>
        var hello := SelectedParams(s.config, s.inbox[0].offersSession);
        Go(Consume(s).(hello := hello,
                       choices := s.choices.(certRequest := RequestsCertificate(s.config, hello))),
           SendServerHello, Ready)
      case Retry => s.(wait := Paused)
      case Fail => Fatal(s)
  }

  /** Channel ID needs an ECDHE cipher and, on resumption, a recorded hash; a
      status response needs a full handshake with a certificate cipher. */
  function HelloParams(config: ServerConfig, hello: Params): Params {
    hello.(channelId := hello.channelId && config.cipher.kx.ECDHE? && (!hello.resumes || config.originalHash),
           status := config.extensions.staples && !hello.resumes && config.cipher.certAuth)
  }

  function DoSendServerHello(s: ServerHs, v: Verdict): (r: ServerHs)
    requires s.state.SendServerHello?
    ensures Advances(s, r)
  {
    if v.Fail? then Fatal(s)
    else
      var hello := HelloParams(s.config, s.hello);
      Go(Send(s.(hello := hello), [ServerHello(hello)]),
         if hello.resumes then SendServerFinished else SendServerCertificate, Ready)
  }

  predicate AssemblesParams(config: ServerConfig) {
    config.cipher.RequiresServerKeyExchange() || (!config.cipher.certAuth && config.extensions.pskHint)
  }

  function DoSendServerCertificate(s: ServerHs, v: Verdict): (r: ServerHs)
    requires s.state.SendServerCertificate?
    ensures Advances(s, r)
  {
    if v.Fail? then Fatal(s)
    else
      var s1 := Send(s, When(s.config.cipher.certAuth, Certificate(true)));
      var s2 := Send(s1, When(s.config.cipher.certAuth && s.hello.status, CertificateStatus));
      Go(s2.(choices := s.choices.(serverParams := AssemblesParams(s.config))), SendServerKeyExchange, Ready)
  }

  function DoSendServerKeyExchange(s: ServerHs, v: Verdict): (r: ServerHs)
    requires s.state.SendServerKeyExchange?
    ensures Advances(s, r)
  {
    if !s.choices.serverParams then Go(s, SendServerHelloDone, Ready)
    else if v.Fail? then Fatal(s)
    else if v.Retry? && s.config.cipher.certAuth then s.(wait := Paused)
    else Go(Send(s, [ServerKeyExchange]).(choices := s.choices.(serverParams := false)), SendServerHelloDone, Ready)
  }

  function DoSendServerHelloDone(s: ServerHs, v: Verdict): (r: ServerHs)
    requires s.state.SendServerHelloDone?
    ensures Advances(s, r)
  {
    if v.Fail? then Fatal(s)
    else
      var s1 := Send(s, When(s.choices.certRequest, CertificateRequest));
      Go(Send(s1, [ServerHelloDone]), ReadClientCertificate, Flush)
  }

  function DoReadClientCertificate(s: ServerHs, v: Verdict): (r: ServerHs)
    requires s.state.ReadClientCertificate?
    ensures Advances(s, r)
  {
    if !s.choices.certRequest then Go(s, VerifyClientCertificate, Ready)
    else if s.inbox == [] then s.(wait := ReadMessage)
    else if !s.inbox[0].Certificate? || v.Fail? then Fatal(s)
    else Go(Consume(s).(choices := s.choices.(peerKey := s.inbox[0].nonempty)), VerifyClientCertificate, Ready)
  }

  function DoVerifyClientCertificate(s: ServerHs, v: Verdict): (r: ServerHs)
    requires s.state.VerifyClientCertificate?
    ensures Advances(s, r)
  {
    if !s.choices.peerKey then Go(s, ReadClientKeyExchange, Ready)
    else match v
      case Proceed => Go(s, ReadClientKeyExchange, Ready)
      case Retry => s.(wait := Paused)
      case Fail => Fatal(s)
  }

  function DoReadClientKeyExchange(s: ServerHs, v: Verdict): (r: ServerHs)
    requires s.state.ReadClientKeyExchange?
    ensures Advances(s, r)
  {
    if s.inbox == [] then s.(wait := ReadMessage)
    else if !s.inbox[0].ClientKeyExchange? then Fatal(s)
    else match v
      case Proceed => Go(Consume(s), ReadClientCertificateVerify, Ready)
      case Retry => s.(wait := Paused)
      case Fail => Fatal(s)
  }

  function DoReadClientCertificateVerify(s: ServerHs, v: Verdict): (r: ServerHs)
    requires s.state.ReadClientCertificateVerify?
    ensures Advances(s, r)
  {
    if !s.choices.peerKey then Go(s, AwaitChangeCipherSpec, Ready)
    else if s.inbox == [] then s.(wait := ReadMessage)
    else if !s.inbox[0].CertificateVerify? || v.Fail? then Fatal(s)
    else Go(Consume(s), AwaitChangeCipherSpec, Ready)
  }

  function DoProcessChangeCipherSpec(s: ServerHs, v: Verdict): (r: ServerHs)
    requires s.state.ProcessChangeCipherSpec?
    ensures Advances(s, r)
  {
    if s.inbox != [] || v.Fail? then Fatal(s) else Go(s, ReadNextProto, Ready)
  }

  function DoReadNextProto(s: ServerHs, v: Verdict): (r: ServerHs)
    requires s.state.ReadNextProto?
    ensures Advances(s, r)
  {
    if !s.hello.npn then Go(s, ReadChannelId, Ready)
    else if s.inbox == [] then s.(wait := ReadMessage)
    else if !s.inbox[0].NextProto? || v.Fail? then Fatal(s)
    else Go(Consume(s), ReadChannelId, Ready)
  }

  function DoReadChannelId(s: ServerHs, v: Verdict): (r: ServerHs)
    requires s.state.ReadChannelId?
    ensures Advances(s, r)
  {
    if !s.hello.channelId then Go(s, ReadClientFinished, Ready)
    else if s.inbox == [] then s.(wait := ReadMessage)
    else if !s.inbox[0].ChannelId? || v.Fail? then Fatal(s)
    else Go(Consume(s), ReadClientFinished, Ready)
  }

  function DoReadClientFinished(s: ServerHs, v: Verdict): (r: ServerHs)
    requires s.state.ReadClientFinished?
    ensures Advances(s, r)
  {
    if s.inbox == [] then s.(wait := ReadMessage)
    else if !(s.inbox[0].Finished? && s.inbox[0].sender.Client? && s.inbox[0].mac == s.transcript) || v.Fail?
    then Fatal(s)
    else Go(Consume(s), if s.hello.resumes then FinishServerHandshake else SendServerFinished, Ready)
  }

  function DoSendServerFinished(s: ServerHs, v: Verdict): (r: ServerHs)
    requires s.state.SendServerFinished?
    ensures Advances(s, r)
  {
    if v.Fail? then Fatal(s)
    else
      var s1 := Send(s, When(s.hello.ticket, NewSessionTicket(false)));
      var s2 := s1.(pending := s1.pending + [ChangeCipherSpec]);
      Go(Send(s2, [Finished(Server, s2.transcript)]),
         if s.hello.resumes then AwaitChangeCipherSpec else FinishServerHandshake, Flush)
  }

  /** One turn of the source's switch. */
  function Step(s: ServerHs, v: Verdict): (r: ServerHs)
    ensures !s.state.Done? ==> Advances(s, r)
    ensures r.config == s.config
  {
    match s.state
    case StartAccept => Go(s, ReadClientHello, Ready)
    case ReadClientHello => DoReadClientHello(s, v)
    case SelectCertificate => DoSelectCertificate(s, v)
    case SelectParameters => DoSelectParameters(s, v)
    case SendServerHello => DoSendServerHello(s, v)
    case SendServerCertificate => DoSendServerCertificate(s, v)
    case SendServerKeyExchange => DoSendServerKeyExchange(s, v)
    case SendServerHelloDone => DoSendServerHelloDone(s, v)
    case ReadClientCertificate => DoReadClientCertificate(s, v)
    case VerifyClientCertificate => DoVerifyClientCertificate(s, v)
    case ReadClientKeyExchange => DoReadClientKeyExchange(s, v)
    case ReadClientCertificateVerify => DoReadClientCertificateVerify(s, v)
    case AwaitChangeCipherSpec => Go(s, ProcessChangeCipherSpec, ReadChangeCipherSpec)
    case ProcessChangeCipherSpec => DoProcessChangeCipherSpec(s, v)
    case ReadNextProto => DoReadNextProto(s, v)
    case ReadChannelId => DoReadChannelId(s, v)
    case ReadClientFinished => DoReadClientFinished(s, v)
    case SendServerFinished => DoSendServerFinished(s, v)
    case FinishServerHandshake => Go(s, Done, Ready)
    case Done => s
  }

  /** ssl_run_handshake, one resolution or one turn at a time. */
  function React(s: ServerHs, e: Event): ServerHs {
    match s.wait
    case Ready => if e.Turn? then Step(s, e.v) else s
    case Flush =>
      if e.Leave? && s.pending != [] then s.(pending := s.pending[1..])
      else if e.Flushed? && s.pending == [] then s.(wait := Ready)
      else s
    case ReadMessage =>
      if !e.Arrive? then s
      else if Completed(e.record).Some? then s.(inbox := s.inbox + Completed(e.record).value, wait := Ready)
      else Fatal(s)
    case ReadChangeCipherSpec =>
      if !e.Arrive? then s
      else if e.record.ChangeCipherSpec? then s.(wait := Ready)
      else Fatal(s)
    case Paused => if e.Resume? then s.(wait := Ready) else s
    case Error => s
  }

  function Run(s: ServerHs, events: seq<Event>): ServerHs
    decreases |events|
  {
    if events == [] then s else React(Run(s, events[..|events| - 1]), events[|events| - 1])
  }
}
