/** The client's handshake machine below TLS 1.3: one function per step of the
    source's switch, each from the handshake state and one outside verdict to
    the new handshake state. */
module TlsClient {
  import opened TlsMessages

  datatype ClientState =
    | StartConnect
    | EnterEarlyData
    | ReadServerHello
    | ReadServerCertificate
    | ReadCertificateStatus
    | VerifyServerCertificate
    | ReadServerKeyExchange
    | ReadCertificateRequest
    | ReadServerHelloDone
    | SendClientCertificate
    | SendClientKeyExchange
    | SendClientCertificateVerify
    | SendClientFinished
    | FinishFlight
    | ReadSessionTicket
    | ProcessChangeCipherSpec
    | ReadServerFinished
    | FinishClientHandshake
    | Done

  datatype ClientConfig = ClientConfig(offersSession: bool, hasCertificate: bool)

  /** The client's SSL_HANDSHAKE. `inbox` holds received messages not yet
      consumed, `pending` the flight not yet flushed, `hello` what the
      ServerHello settled (with `resumes` cleared if no session was offered). */
  datatype ClientHs = ClientHs(
    state: ClientState,
    wait: Wait,
    inbox: seq<Msg>,
    pending: seq<Record>,
    transcript: seq<Msg>,
    config: ClientConfig,
    hello: Params,
    certRequest: bool
  )

  function Init(config: ClientConfig): ClientHs {
    ClientHs(StartConnect, Ready, [], [], [], config,
             Params(false, Cipher(RSA, true), false, false, false, false), false)
  }

  /** Steps left before Done. Resumption reverses the order of the two Finished
      messages, so the rank of the states around them depends on it. */
  function Rank(c: ClientHs): nat {
    match c.state
    case StartConnect => 20
    case EnterEarlyData => 19
    case ReadServerHello => 18
    case ReadServerCertificate => 17
    case ReadCertificateStatus => 16
    case VerifyServerCertificate => 15
    case ReadServerKeyExchange => 14
    case ReadCertificateRequest => 13
    case ReadServerHelloDone => 12
    case SendClientCertificate => 11
    case SendClientKeyExchange => 10
    case SendClientCertificateVerify => 9
    case SendClientFinished => if c.hello.resumes then 3 else 8
    case FinishFlight => if c.hello.resumes then 2 else 7
    case ReadSessionTicket => 6
    case ProcessChangeCipherSpec => 5
    case ReadServerFinished => 4
    case FinishClientHandshake => 1
    case Done => 0
  }

  /** A step either advances the state, lowering the rank, or stops the loop. */
  predicate Advances(c: ClientHs, r: ClientHs) {
    Rank(r) < Rank(c) || (!r.wait.Ready? && Rank(r) == Rank(c))
  }

  function Go(c: ClientHs, next: ClientState, wait: Wait): ClientHs {
    c.(state := next, wait := wait)
  }

  function Fatal(c: ClientHs): ClientHs { c.(wait := Error) }

  /** add_message: the message joins the pending flight and the transcript. */
  function Send(c: ClientHs, msgs: seq<Msg>): ClientHs {
    c.(pending := c.pending + Wrap(msgs), transcript := c.transcript + msgs)
  }

  /** ssl_hash_message followed by next_message. */
  function Consume(c: ClientHs): ClientHs
    requires c.inbox != []
  {
    c.(transcript := c.transcript + [c.inbox[0]], inbox := c.inbox[1..])
  }

  function DoStartConnect(c: ClientHs, v: Verdict): (r: ClientHs)
    requires c.state.StartConnect?
    ensures Advances(c, r)
  {
    if v.Fail? then Fatal(c)
    else Go(Send(c.(hello := c.hello.(resumes := false)), [ClientHello(c.config.offersSession)]), EnterEarlyData, Flush)
  }

  function DoReadServerHello(c: ClientHs, v: Verdict): (r: ClientHs)
    requires c.state.ReadServerHello?
    ensures Advances(c, r)
  {
    if c.inbox == [] then c.(wait := ReadMessage)
    else if !c.inbox[0].ServerHello? || v.Fail? then Fatal(c)
    else
      var hello := c.inbox[0].params;
      var c' := Consume(c).(hello := hello.(resumes := c.config.offersSession && hello.resumes));
      Go(c', if c'.hello.resumes then ReadSessionTicket else ReadServerCertificate, Ready)
  }

  function DoReadServerCertificate(c: ClientHs, v: Verdict): (r: ClientHs)
    requires c.state.ReadServerCertificate?
    ensures Advances(c, r)
  {
    if !c.hello.cipher.certAuth then Go(c, ReadCertificateStatus, Ready)
    else if c.inbox == [] then c.(wait := ReadMessage)
    else if !c.inbox[0].Certificate? || v.Fail? || !c.inbox[0].nonempty then Fatal(c)
    else Go(Consume(c), ReadCertificateStatus, Ready)
  }

  function DoReadCertificateStatus(c: ClientHs, v: Verdict): (r: ClientHs)
    requires c.state.ReadCertificateStatus?
    ensures Advances(c, r)
  {
    if !c.hello.status then Go(c, VerifyServerCertificate, Ready)
    else if c.inbox == [] then c.(wait := ReadMessage)
    else if !c.inbox[0].CertificateStatus? then Go(c, VerifyServerCertificate, Ready)
    else if v.Fail? then Fatal(c)
    else Go(Consume(c), VerifyServerCertificate, Ready)
  }

  function DoVerifyServerCertificate(c: ClientHs, v: Verdict): (r: ClientHs)
    requires c.state.VerifyServerCertificate?
    ensures Advances(c, r)
  {
    if !c.hello.cipher.certAuth then Go(c, ReadServerKeyExchange, Ready)
    else match v
      case Proceed => Go(c, ReadServerKeyExchange, Ready)
      case Retry => c.(wait := Paused)
      case Fail => Fatal(c)
  }

  function DoReadServerKeyExchange(c: ClientHs, v: Verdict): (r: ClientHs)
    requires c.state.ReadServerKeyExchange?
    ensures Advances(c, r)
  {
    if c.inbox == [] then c.(wait := ReadMessage)
    else if !c.inbox[0].ServerKeyExchange? then
      if c.hello.cipher.RequiresServerKeyExchange() then Fatal(c) else Go(c, ReadCertificateRequest, Ready)
    else if c.hello.cipher.kx.RSA? || v.Fail? then Fatal(c)
    else Go(Consume(c), ReadCertificateRequest, Ready)
  }

  function DoReadCertificateRequest(c: ClientHs, v: Verdict): (r: ClientHs)
    requires c.state.ReadCertificateRequest?
    ensures Advances(c, r)
  {
    if !c.hello.cipher.certAuth then Go(c, ReadServerHelloDone, Ready)
    else if c.inbox == [] then c.(wait := ReadMessage)
    else if c.inbox[0].ServerHelloDone? then Go(c, ReadServerHelloDone, Ready)
    else if !c.inbox[0].CertificateRequest? || v.Fail? then Fatal(c)
    else Go(Consume(c).(certRequest := true), ReadServerHelloDone, Ready)
  }

  function DoReadServerHelloDone(c: ClientHs, v: Verdict): (r: ClientHs)
    requires c.state.ReadServerHelloDone?
    ensures Advances(c, r)
  {
    if c.inbox == [] then c.(wait := ReadMessage)
    else if !c.inbox[0].ServerHelloDone? || v.Fail? then Fatal(c)
    else Go(Consume(c), SendClientCertificate, Ready)
  }

  function DoSendClientCertificate(c: ClientHs, v: Verdict): (r: ClientHs)
    requires c.state.SendClientCertificate?
    ensures Advances(c, r)
  {
    if !c.certRequest then Go(c, SendClientKeyExchange, Ready)
    else match v
      case Proceed => Go(Send(c, [Certificate(c.config.hasCertificate)]), SendClientKeyExchange, Ready)
      case Retry => c.(wait := Paused)
      case Fail => Fatal(c)
  }

  function DoSendClientKeyExchange(c: ClientHs, v: Verdict): (r: ClientHs)
    requires c.state.SendClientKeyExchange?
    ensures Advances(c, r)
  {
    if v.Fail? then Fatal(c)
    else Go(Send(c, [ClientKeyExchange]), SendClientCertificateVerify, Ready)
  }

  function DoSendClientCertificateVerify(c: ClientHs, v: Verdict): (r: ClientHs)
    requires c.state.SendClientCertificateVerify?
    ensures Advances(c, r)
  {
    if !c.certRequest || !c.config.hasCertificate then Go(c, SendClientFinished, Ready)
    else match v
      case Proceed => Go(Send(c, [CertificateVerify]), SendClientFinished, Ready)
      case Retry => c.(wait := Paused)
      case Fail => Fatal(c)
  }

  /** ssl_send_finished: the MAC covers the transcript before the message. */
  function SendFinished(c: ClientHs): ClientHs {
    Send(c, [Finished(Client, c.transcript)])
  }

  function DoSendClientFinished(c: ClientHs, v: Verdict): (r: ClientHs)
    requires c.state.SendClientFinished?
    ensures Advances(c, r)
  {
    if c.hello.channelId && v.Retry? then c.(wait := Paused)
    else if v.Fail? then Fatal(c)
    else
      var c1 := c.(pending := c.pending + [ChangeCipherSpec]);
      var c2 := Send(c1, When(c.hello.npn, NextProto));
      var c3 := Send(c2, When(c.hello.channelId, ChannelId));
      Go(SendFinished(c3), FinishFlight, Flush)
  }

  /** The verdict Retry stands for returning early to the caller (False Start). */
  function DoFinishFlight(c: ClientHs, v: Verdict): (r: ClientHs)
    requires c.state.FinishFlight?
    ensures Advances(c, r)
  {
    if c.hello.resumes then Go(c, FinishClientHandshake, Ready)
    else match v
      case Proceed => Go(c, ReadSessionTicket, Ready)
      case Retry => Go(c, ReadSessionTicket, Paused)
      case Fail => Fatal(c)
  }

  function DoReadSessionTicket(c: ClientHs, v: Verdict): (r: ClientHs)
    requires c.state.ReadSessionTicket?
    ensures Advances(c, r)
  {
    if !c.hello.ticket then Go(c, ProcessChangeCipherSpec, ReadChangeCipherSpec)
    else if c.inbox == [] then c.(wait := ReadMessage)
    else if !c.inbox[0].NewSessionTicket? || v.Fail? then Fatal(c)
    else Go(Consume(c).(hello := c.hello.(ticket := !c.inbox[0].empty)), ProcessChangeCipherSpec, ReadChangeCipherSpec)
  }

  /** Cipher changes are forbidden while received messages are unprocessed. */
  function DoProcessChangeCipherSpec(c: ClientHs, v: Verdict): (r: ClientHs)
    requires c.state.ProcessChangeCipherSpec?
    ensures Advances(c, r)
  {
    if c.inbox != [] || v.Fail? then Fatal(c)
    else Go(c, ReadServerFinished, Ready)
  }

  function DoReadServerFinished(c: ClientHs, v: Verdict): (r: ClientHs)
    requires c.state.ReadServerFinished?
    ensures Advances(c, r)
  {
    if c.inbox == [] then c.(wait := ReadMessage)
    else if !(c.inbox[0].Finished? && c.inbox[0].sender.Server? && c.inbox[0].mac == c.transcript) then Fatal(c)
    else Go(Consume(c), if c.hello.resumes then SendClientFinished else FinishClientHandshake, Ready)
  }

  function DoFinishClientHandshake(c: ClientHs, v: Verdict): (r: ClientHs)
    requires c.state.FinishClientHandshake?
    ensures Advances(c, r)
  {
    if v.Fail? then Fatal(c) else Go(c, Done, Ready)
  }

  /** One turn of the source's switch. */
  function Step(c: ClientHs, v: Verdict): (r: ClientHs)
    ensures !c.state.Done? ==> Advances(c, r)
  {
    match c.state
    case StartConnect => DoStartConnect(c, v)
    case EnterEarlyData => Go(c, ReadServerHello, Ready)
    case ReadServerHello => DoReadServerHello(c, v)
    case ReadServerCertificate => DoReadServerCertificate(c, v)
    case ReadCertificateStatus => DoReadCertificateStatus(c, v)
    case VerifyServerCertificate => DoVerifyServerCertificate(c, v)
    case ReadServerKeyExchange => DoReadServerKeyExchange(c, v)
    case ReadCertificateRequest => DoReadCertificateRequest(c, v)
    case ReadServerHelloDone => DoReadServerHelloDone(c, v)
    case SendClientCertificate => DoSendClientCertificate(c, v)
    case SendClientKeyExchange => DoSendClientKeyExchange(c, v)
    case SendClientCertificateVerify => DoSendClientCertificateVerify(c, v)
    case SendClientFinished => DoSendClientFinished(c, v)
    case FinishFlight => DoFinishFlight(c, v)
    case ReadSessionTicket => DoReadSessionTicket(c, v)
    case ProcessChangeCipherSpec => DoProcessChangeCipherSpec(c, v)
    case ReadServerFinished => DoReadServerFinished(c, v)
    case FinishClientHandshake => DoFinishClientHandshake(c, v)
    case Done => c
  }

  /** ssl_run_handshake, one resolution or one turn at a time. An event the
      machine is not waiting for changes nothing. */
  function React(c: ClientHs, e: Event): ClientHs {
    match c.wait
    case Ready => if e.Turn? then Step(c, e.v) else c
    case Flush =>
      if e.Leave? && c.pending != [] then c.(pending := c.pending[1..])
      else if e.Flushed? && c.pending == [] then c.(wait := Ready)
      else c
    case ReadMessage =>
      if !e.Arrive? then c
      else if Completed(e.record).Some? then c.(inbox := c.inbox + Completed(e.record).value, wait := Ready)
      else Fatal(c)
    case ReadChangeCipherSpec =>
      if !e.Arrive? then c
      else if e.record.ChangeCipherSpec?
      then c.(wait := Ready)
      else Fatal(c)
    case Paused => if e.Resume? then c.(wait := Ready) else c
    case Error => c
  }

  function Run(c: ClientHs, events: seq<Event>): ClientHs
    decreases |events|
  {
    if events == [] then c else React(Run(c, events[..|events| - 1]), events[|events| - 1])
  }
}
