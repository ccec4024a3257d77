/** What a server that finishes has read and checked, whatever its peer sent. */
module TlsServerSafety {
  import opened TlsMessages
  import opened TlsScript
  import opened TlsFlow
  import opened TlsServer
  import C = TlsClient
  import P = TlsParties
  import F = TlsServerInFlow
  import A = TlsAgreement

  function Offers(t: seq<Msg>): bool { t != [] && t[0].ClientHello? && t[0].offersSession }

  /** The flow that the server is in, by what its peer has sent so far: whether it
      offered a session, and whether it sent a certificate. */
  function FlowIn(s: ServerHs): (f: Flow)
    requires P.ValidCipher(s.config.cipher)
    ensures Consistent(f)
  {
    P.FlowOf(C.ClientConfig(Offers(s.transcript), s.choices.peerKey), s.config)
  }

  predicate OnAt(f: Flow, sc: seq<Entry>, s: ServerHs, at: nat) {
    && at <= |sc| && F.Knows(f, s, at) && s.transcript == Transcript(sc, at)
    && (s.choices.peerKey ==> s.choices.certRequest)
  }

  /** What the server has hashed is exactly the beginning of its flow. */
  predicate On(s: ServerHs)
    requires P.ValidCipher(s.config.cipher)
  {
    var f := FlowIn(s);
    OnAt(f, Script(f), s, F.Pos(f, s))
  }

  lemma {:induction false} StartsWithHello(f: Flow, sc: seq<Entry>, at: nat)
    requires IsScript(f, sc) && 0 < at <= |sc|
    ensures Transcript(sc, at) != [] && Transcript(sc, at)[0] == ClientHello(f.offersSession)
    decreases at
  {
    if at == 1 { Here(sc, 0); } else { StartsWithHello(f, sc, at - 1); }
  }

  /** What the flow of a state depends on stays the same. */
  predicate SameChoice(s: ServerHs, r: ServerHs) {
    r.config == s.config && r.choices.peerKey == s.choices.peerKey && Offers(r.transcript) == Offers(s.transcript)
  }

  /** Scripts that agree on the first k slots. */
  lemma {:induction false} SameStart(f: Flow, g: Flow, n: nat)
    requires n <= End(f) && n <= End(g)
    requires forall k, t :: 0 <= k < n ==> EntryGiven(f, k, t) == EntryGiven(g, k, t)
    ensures Prefix(f, n) == Prefix(g, n)
    decreases n
  {
    if n > 0 { SameStart(f, g, n - 1); }
  }

  lemma {:induction false} StartOfScript(f: Flow, k: nat, n: nat)
    requires k <= n <= End(f)
    ensures Transcript(Prefix(f, n), k) == Transcript(Prefix(f, k), k)
    decreases n
  {
    if k < n {
      var before := Prefix(f, n - 1);
      TranscriptOfPrefix(before, [EntryGiven(f, n - 1, Transcript(before, n - 1))], k);
      StartOfScript(f, k, n - 1);
    }
  }

  predicate KeepsFlow(f: Flow, sc: seq<Entry>, s: ServerHs, r: ServerHs) {
    SameChoice(s, r) && OnAt(f, sc, r, F.Pos(f, r))
  }

  /** A step that hashes what the flow has from its position to the next one. */
  lemma {:induction false} Goes(f: Flow, sc: seq<Entry>, s: ServerHs, r: ServerHs, at: nat, next: nat, more: seq<Msg>)
    requires Turning(f, sc, s, at)
    requires r.transcript == s.transcript + more && r.config == s.config
    requires r.choices.peerKey == s.choices.peerKey && r.choices.certRequest == s.choices.certRequest
    requires next <= |sc| && Transcript(sc, next) == Transcript(sc, at) + more
    requires F.Knows(f, r, next) && F.Pos(f, r) == next
    ensures KeepsFlow(f, sc, s, r)
  {
  }

  lemma {:induction false} Stays(f: Flow, sc: seq<Entry>, s: ServerHs, r: ServerHs, at: nat)
    requires Turning(f, sc, s, at)
    requires r.transcript == s.transcript && r.config == s.config
    requires r.choices.peerKey == s.choices.peerKey && r.choices.certRequest == s.choices.certRequest
    requires F.Knows(f, r, at) && F.Pos(f, r) == at
    ensures KeepsFlow(f, sc, s, r)
  {
  }

  /** A turn at slot `at` of the flow, after the hello. */
  predicate Turning(f: Flow, sc: seq<Entry>, s: ServerHs, at: nat) {
    OnAt(f, sc, s, at) && s.transcript != [] && s.wait.Ready?
  }

  lemma {:induction false} SendServerHelloOn(f: Flow, sc: seq<Entry>, s: ServerHs, v: Verdict, at: nat)
    requires Turning(f, sc, s, at) && at == 1 < |sc| && s.state.SendServerHello?
    requires sc[at] == From(Server, true, ServerHello(f.hello)) && f.hello == HelloParams(s.config, s.hello)
    ensures KeepsFlow(f, sc, s, DoSendServerHello(s, v))
  {
    var r := DoSendServerHello(s, v);
    Here(sc, at);
    if v.Fail? { Stays(f, sc, s, r, at); } else { Goes(f, sc, s, r, at, at + 1, [ServerHello(f.hello)]); }
  }

  /** What the server sends between its hello and ServerHelloDone. */
  lemma {:induction false} SendsOn(f: Flow, sc: seq<Entry>, s: ServerHs, r: ServerHs, at: nat, next: nat,
        more: seq<Msg>)
    requires Turning(f, sc, s, at) && 2 <= at < next <= |sc| && Transcript(sc, next) == Transcript(sc, at) + more
    requires r.transcript == s.transcript + more && r.hello == s.hello && r.config == s.config
    requires r.choices == s.choices.(serverParams := r.choices.serverParams)
    requires if at == 2 then r.state.SendServerKeyExchange? && next == 4 && r.choices.serverParams == f.keyExchange
             else at == 4 && r.state.SendServerHelloDone? && next == 5
    requires F.FullOnly(s)
    ensures KeepsFlow(f, sc, s, r)
  {
    Goes(f, sc, s, r, at, next, more);
  }

  lemma {:induction false} SendServerCertificateOn(f: Flow, sc: seq<Entry>, s: ServerHs, v: Verdict, at: nat)
    requires Turning(f, sc, s, at) && at == 2 < |sc| - 1 && s.state.SendServerCertificate?
    requires sc[at] == From(Server, f.hello.cipher.certAuth, Certificate(true))
    requires sc[at + 1] == From(Server, f.hello.status, CertificateStatus)
    requires f.keyExchange == AssemblesParams(s.config) && Consistent(f)
    ensures KeepsFlow(f, sc, s, DoSendServerCertificate(s, v))
  {
    var r := DoSendServerCertificate(s, v);
    if v.Fail? {
      Stays(f, sc, s, r, at);
    } else {
      var first, second := When(f.hello.cipher.certAuth, Certificate(true)), When(f.hello.status, CertificateStatus);
      Here(sc, at);
      Here(sc, at + 1);
      F.Certificates(s, r, v, first, second);
      assert (s.transcript + first) + second == s.transcript + (first + second);
      SendsOn(f, sc, s, r, at, at + 2, first + second);
    }
  }

  lemma {:induction false} SendServerKeyExchangeOn(f: Flow, sc: seq<Entry>, s: ServerHs, v: Verdict, at: nat)
    requires Turning(f, sc, s, at) && at == 4 < |sc| && s.state.SendServerKeyExchange?
    requires sc[at] == From(Server, f.keyExchange, ServerKeyExchange)
    ensures KeepsFlow(f, sc, s, DoSendServerKeyExchange(s, v))
  {
    var r := DoSendServerKeyExchange(s, v);
    if r.state.SendServerHelloDone? {
      Here(sc, at);
      SendsOn(f, sc, s, r, at, at + 1, When(f.keyExchange, ServerKeyExchange));
    } else {
      Stays(f, sc, s, r, at);
    }
  }

  lemma {:induction false} SendServerHelloDoneOn(f: Flow, sc: seq<Entry>, s: ServerHs, v: Verdict, at: nat)
    requires Turning(f, sc, s, at) && at == 5 < |sc| - 1 && s.state.SendServerHelloDone?
    requires sc[at] == From(Server, f.certRequest, CertificateRequest)
    requires sc[at + 1] == From(Server, true, ServerHelloDone)
    ensures KeepsFlow(f, sc, s, DoSendServerHelloDone(s, v))
  {
    var r := DoSendServerHelloDone(s, v);
    if v.Fail? {
      Stays(f, sc, s, r, at);
    } else {
      Here(sc, at);
      Here(sc, at + 1);
      var request := When(f.certRequest, CertificateRequest);
      assert (s.transcript + request) + [ServerHelloDone] == s.transcript + (request + [ServerHelloDone]);
      Goes(f, sc, s, r, at, at + 2, request + [ServerHelloDone]);
    }
  }

  lemma {:induction false} VerifyClientCertificateOn(f: Flow, sc: seq<Entry>, s: ServerHs, v: Verdict, at: nat)
    requires Turning(f, sc, s, at) && at == 8 && s.state.VerifyClientCertificate?
    ensures KeepsFlow(f, sc, s, DoVerifyClientCertificate(s, v))
  {
    Stays(f, sc, s, DoVerifyClientCertificate(s, v), at);
  }

  lemma {:induction false} ReadClientKeyExchangeOn(f: Flow, sc: seq<Entry>, s: ServerHs, v: Verdict, at: nat)
    requires Turning(f, sc, s, at) && at == 8 < |sc| && s.state.ReadClientKeyExchange?
    requires sc[at] == From(Client, true, ClientKeyExchange)
    ensures KeepsFlow(f, sc, s, DoReadClientKeyExchange(s, v))
  {
    var r := DoReadClientKeyExchange(s, v);
    Here(sc, at);
    if r.state == s.state { Stays(f, sc, s, r, at); } else { Goes(f, sc, s, r, at, at + 1, [ClientKeyExchange]); }
  }

  lemma {:induction false} ReadClientCertificateVerifyOn(f: Flow, sc: seq<Entry>, s: ServerHs, v: Verdict, at: nat)
    requires Turning(f, sc, s, at) && at == 9 < |sc| && s.state.ReadClientCertificateVerify?
    requires sc[at] == From(Client, f.certRequest && f.clientCert, CertificateVerify)
    ensures KeepsFlow(f, sc, s, DoReadClientCertificateVerify(s, v))
  {
    var r := DoReadClientCertificateVerify(s, v);
    Here(sc, at);
    if r.state == s.state { Stays(f, sc, s, r, at); }
    else { Goes(f, sc, s, r, at, at + 1, When(f.certRequest && f.clientCert, CertificateVerify)); }
  }

  /** Before and after the ChangeCipherSpec, which is not hashed. */
  lemma {:induction false} ChangeCipherSpecOn(f: Flow, sc: seq<Entry>, s: ServerHs, v: Verdict, at: nat)
    requires Turning(f, sc, s, at) && at == F.Pos(f, s)
    requires s.state.AwaitChangeCipherSpec? || s.state.ProcessChangeCipherSpec?
    ensures KeepsFlow(f, sc, s, Step(s, v))
  {
    Stays(f, sc, s, Step(s, v), at);
  }

  /** Reading one of the last messages, or going on without it. */
  lemma {:induction false} LastReadOn(f: Flow, sc: seq<Entry>, s: ServerHs, r: ServerHs, at: nat, m: Msg)
    requires Turning(f, sc, s, at) && at == F.Pos(f, s) && 2 <= at < |sc| && sc[at].record == Handshake(m)
    requires F.IsLate(s) && (r.state == s.state || r.state.ReadChannelId? || r.state.ReadClientFinished?
                             || r.state.FinishServerHandshake? || r.state.SendServerFinished?)
    requires r.hello == s.hello && r.choices == s.choices && r.config == s.config
    requires if r.state == s.state then r.transcript == s.transcript && F.Pos(f, r) == at
             else r.transcript == s.transcript + When(sc[at].present, m) && F.Pos(f, r) == at + 1
    ensures KeepsFlow(f, sc, s, r)
  {
    Here(sc, at);
    if r.state == s.state { Stays(f, sc, s, r, at); } else { Goes(f, sc, s, r, at, at + 1, When(sc[at].present, m)); }
  }

  lemma {:induction false} ReadNextProtoOn(f: Flow, sc: seq<Entry>, s: ServerHs, v: Verdict, at: nat)
    requires Turning(f, sc, s, at) && at == F.Pos(f, s) && s.state.ReadNextProto?
    requires 2 <= at < |sc| && sc[at] == From(Client, f.hello.npn, NextProto)
    ensures KeepsFlow(f, sc, s, DoReadNextProto(s, v))
  {
    var r := DoReadNextProto(s, v);
    assert F.Pos(f, r) == if r.state == s.state then at else at + 1;
    LastReadOn(f, sc, s, r, at, NextProto);
  }

  lemma {:induction false} ReadChannelIdOn(f: Flow, sc: seq<Entry>, s: ServerHs, v: Verdict, at: nat)
    requires Turning(f, sc, s, at) && at == F.Pos(f, s) && s.state.ReadChannelId?
    requires 2 <= at < |sc| && sc[at] == From(Client, f.hello.channelId, ChannelId)
    ensures KeepsFlow(f, sc, s, DoReadChannelId(s, v))
  {
    var r := DoReadChannelId(s, v);
    assert F.Pos(f, r) == if r.state == s.state then at else at + 1;
    LastReadOn(f, sc, s, r, at, ChannelId);
  }

  lemma {:induction false} ReadClientFinishedOn(f: Flow, sc: seq<Entry>, s: ServerHs, v: Verdict, at: nat)
    requires Turning(f, sc, s, at) && at == F.Pos(f, s) && s.state.ReadClientFinished?
    requires 2 <= at < |sc| && sc[at] == From(Client, true, Finished(Client, Transcript(sc, at)))
    ensures KeepsFlow(f, sc, s, DoReadClientFinished(s, v))
  {
    var r := DoReadClientFinished(s, v);
    assert F.Pos(f, r) == if r.state == s.state then at else at + 1;
    LastReadOn(f, sc, s, r, at, Finished(Client, Transcript(sc, at)));
  }

  lemma {:induction false} LateOn(f: Flow, sc: seq<Entry>, s: ServerHs, v: Verdict, first: nat)
    requires Turning(f, sc, s, F.Pos(f, s)) && F.IsLate(s)
    requires first == (if f.hello.resumes then 5 else 10) && first + 4 <= |sc| && ClientLastFlight(f, sc, first)
    ensures KeepsFlow(f, sc, s, Step(s, v))
  {
    var at := F.Pos(f, s);
    match s.state
    case AwaitChangeCipherSpec => ChangeCipherSpecOn(f, sc, s, v, at);
    case ProcessChangeCipherSpec => ChangeCipherSpecOn(f, sc, s, v, at);
    case ReadNextProto => ReadNextProtoOn(f, sc, s, v, at);
    case ReadChannelId => ReadChannelIdOn(f, sc, s, v, at);
    case ReadClientFinished => ReadClientFinishedOn(f, sc, s, v, at);
  }

  lemma {:induction false} SendServerFinishedOn(f: Flow, sc: seq<Entry>, s: ServerHs, v: Verdict, at: nat)
    requires Turning(f, sc, s, at) && s.state.SendServerFinished? && at == F.Pos(f, s)
    requires 2 <= at && at + 3 <= |sc| && ServerLastFlight(f, sc, at)
    ensures KeepsFlow(f, sc, s, DoSendServerFinished(s, v))
  {
    var r := DoSendServerFinished(s, v);
    if v.Fail? {
      Stays(f, sc, s, r, at);
    } else {
      F.LastFlightSent(f, sc, s, r, v, at);
      F.LastPos(f, s, r);
      A.TranscriptGrows(sc, at, at + 3);
      var more := Transcript(sc, at + 3)[|s.transcript|..];
      assert Transcript(sc, at + 3) == s.transcript + more;
      Goes(f, sc, s, r, at, at + 3, more);
    }
  }

  /** Reading the hello settles the flow up to the client's certificate. */
  lemma {:induction false} SelectParametersOn(s: ServerHs, r: ServerHs, g: Flow, sc: seq<Entry>)
    requires P.ValidCipher(s.config.cipher) && s.transcript == [] && s.inbox != [] && s.inbox[0].ClientHello?
    requires s.state.SelectParameters? && !s.choices.peerKey && r == DoSelectParameters(s, Proceed)
    requires g == FlowIn(r) && IsScript(g, sc)
    ensures OnAt(g, sc, r, 1)
  {
    Here(sc, 0);
    assert r.transcript == [ClientHello(g.offersSession)];
  }

  /** Two flows that differ only in the client's certificate begin alike. */
  lemma {:induction false} SameUntilCertificate(f: Flow, g: Flow, at: nat)
    requires at == 7 && !f.hello.resumes && g == f.(clientCert := g.clientCert)
    ensures Transcript(Script(g), at) == Transcript(Script(f), at)
  {
    SameStart(f, g, at);
    StartOfScript(f, at, End(f));
    StartOfScript(g, at, End(g));
  }

  /** What a state's flow becomes when it reads a client's certificate. */
  lemma {:induction false} OnlyCertificateDiffers(f: Flow, s: ServerHs, r: ServerHs, g: Flow)
    requires P.ValidCipher(s.config.cipher) && f == FlowIn(s) && r.config == s.config && g == FlowIn(r)
    requires s.transcript != [] && s.transcript <= r.transcript
    ensures g == f.(clientCert := r.choices.peerKey)
  {
  }

  lemma {:induction false} CertificateRead(f: Flow, s: ServerHs, r: ServerHs, g: Flow, sc: seq<Entry>, at: nat)
    requires at == 7 < |sc| && F.Knows(f, s, at) && !f.hello.resumes && g == f.(clientCert := r.choices.peerKey)
    requires s.transcript == Transcript(sc, at) && sc[at] == From(Client, g.certRequest, Certificate(g.clientCert))
    requires s.inbox != [] && s.inbox[0].Certificate? && s.choices.certRequest && s.state.ReadClientCertificate?
    requires r == DoReadClientCertificate(s, Proceed)
    ensures OnAt(g, sc, r, at + 1)
  {
    Here(sc, at);
  }

  /** Reading the client's certificate settles the rest. */
  lemma {:induction false} ReadClientCertificateOn(f: Flow, s: ServerHs, r: ServerHs, g: Flow, at: nat)
    requires at == 7 && P.ValidCipher(s.config.cipher) && f == FlowIn(s) && !f.hello.resumes
    requires OnAt(f, Script(f), s, at)
    requires s.inbox != [] && s.inbox[0].Certificate? && s.choices.certRequest && s.state.ReadClientCertificate?
    requires r == DoReadClientCertificate(s, Proceed) && g == FlowIn(r)
    ensures OnAt(g, Script(g), r, at + 1)
  {
    ScriptIsScript(f);
    StartsWithHello(f, Script(f), at);
    OnlyCertificateDiffers(f, s, r, g);
    SameUntilCertificate(f, g, at);
    ScriptIsScript(g);
    CertificateRead(f, s, r, g, Script(g), at);
  }

  /** Nothing that the flow depends on changes. */
  lemma {:induction false} QuietOn(s: ServerHs, r: ServerHs)
    requires P.ValidCipher(s.config.cipher) && On(s) && r.config == s.config
    requires r.transcript == s.transcript && r.hello == s.hello && r.choices == s.choices
    requires F.Pos(FlowIn(s), r) == F.Pos(FlowIn(s), s)
    requires r.state == s.state || !(F.FullOnly(r) || r.state.SendServerKeyExchange?)
    ensures On(r)
  {
  }

  /** A step that keeps the flow stays on it. */
  lemma {:induction false} KeepsOn(f: Flow, sc: seq<Entry>, s: ServerHs, r: ServerHs)
    requires P.ValidCipher(s.config.cipher) && f == FlowIn(s) && sc == Script(f) && KeepsFlow(f, sc, s, r)
    ensures On(r)
  {
  }

  lemma {:induction false} HelloOn(s: ServerHs, v: Verdict)
    requires P.ValidCipher(s.config.cipher) && On(s) && s.state.SelectParameters?
    ensures On(DoSelectParameters(s, v))
  {
    var r := DoSelectParameters(s, v);
    if r.state == s.state {
      QuietOn(s, r);
    } else {
      var g := FlowIn(r);
      ScriptIsScript(g);
      SelectParametersOn(s, r, g, Script(g));
    }
  }

  /** No certificate was asked for. */
  lemma {:induction false} NoCertificateOn(f: Flow, sc: seq<Entry>, s: ServerHs, r: ServerHs, at: nat)
    requires Turning(f, sc, s, at) && at == 7 < |sc| && s.state.ReadClientCertificate? && !s.choices.certRequest
    requires sc[at] == From(Client, f.certRequest, Certificate(f.clientCert))
    requires r == Go(s, VerifyClientCertificate, Ready)
    ensures KeepsFlow(f, sc, s, r)
  {
    Here(sc, at);
    assert s.transcript + [] == s.transcript;
    Goes(f, sc, s, r, at, at + 1, []);
  }

  lemma {:induction false} SkipsCertificateOn(f: Flow, sc: seq<Entry>, s: ServerHs, r: ServerHs, at: nat)
    requires P.ValidCipher(s.config.cipher) && f == FlowIn(s) && sc == Script(f) && at == F.Pos(f, s)
    requires OnAt(f, sc, s, at) && s.wait.Ready? && s.state.ReadClientCertificate? && !s.choices.certRequest
    requires r == Go(s, VerifyClientCertificate, Ready)
    ensures On(r)
  {
    ScriptIsScript(f);
    StartsWithHello(f, sc, at);
    NoCertificateOn(f, sc, s, r, at);
    KeepsOn(f, sc, s, r);
  }

  lemma {:induction false} CertificateOn(s: ServerHs, v: Verdict)
    requires P.ValidCipher(s.config.cipher) && On(s) && s.state.ReadClientCertificate? && s.wait.Ready?
    ensures On(DoReadClientCertificate(s, v))
  {
    var f, r := FlowIn(s), DoReadClientCertificate(s, v);
    if r.state == s.state {
      QuietOn(s, r);
    } else if s.choices.certRequest {
      ReadClientCertificateOn(f, s, r, FlowIn(r), F.Pos(f, s));
    } else {
      SkipsCertificateOn(f, Script(f), s, r, F.Pos(f, s));
    }
  }

  lemma {:induction false} FullOn(f: Flow, sc: seq<Entry>, s: ServerHs, v: Verdict, at: nat)
    requires Turning(f, sc, s, at) && at == F.Pos(f, s) && F.FullOnly(s) && !s.state.ReadClientCertificate?
    requires IsScript(f, sc) && f.keyExchange == AssemblesParams(s.config) && Consistent(f)
    ensures KeepsFlow(f, sc, s, Step(s, v))
  {
    match s.state
    case SendServerCertificate => SendServerCertificateOn(f, sc, s, v, at);
    case SendServerKeyExchange => SendServerKeyExchangeOn(f, sc, s, v, at);
    case SendServerHelloDone => SendServerHelloDoneOn(f, sc, s, v, at);
    case VerifyClientCertificate => VerifyClientCertificateOn(f, sc, s, v, at);
    case ReadClientKeyExchange => ReadClientKeyExchangeOn(f, sc, s, v, at);
    case ReadClientCertificateVerify => ReadClientCertificateVerifyOn(f, sc, s, v, at);
  }

  /** A turn between the two hellos and the end that leaves the flow as it is. */
  lemma {:induction false} FlowOn(f: Flow, sc: seq<Entry>, s: ServerHs, v: Verdict, at: nat)
    requires Turning(f, sc, s, at) && at == F.Pos(f, s) && IsScript(f, sc) && Consistent(f)
    requires f.keyExchange == AssemblesParams(s.config)
    requires s.state.SendServerHello? ==> f.hello == HelloParams(s.config, s.hello)
    requires s.state.SendServerHello? || s.state.SendServerFinished? || F.IsLate(s)
             || (F.FullOnly(s) && !s.state.ReadClientCertificate?)
    ensures KeepsFlow(f, sc, s, Step(s, v))
  {
    if s.state.SendServerHello? { SendServerHelloOn(f, sc, s, v, at); }
    else if s.state.SendServerFinished? { SendServerFinishedOn(f, sc, s, v, at); }
    else if F.IsLate(s) { LateOn(f, sc, s, v, if f.hello.resumes then 5 else 10); }
    else { FullOn(f, sc, s, v, at); }
  }

  lemma {:induction false} FlowFacts(f: Flow, s: ServerHs)
    requires P.ValidCipher(s.config.cipher) && f == FlowIn(s)
    ensures Consistent(f) && f.keyExchange == AssemblesParams(s.config)
    ensures s.hello == SelectedParams(s.config, f.offersSession) ==> f.hello == HelloParams(s.config, s.hello)
  {
  }

  lemma {:induction false} MiddleOn(f: Flow, sc: seq<Entry>, s: ServerHs, v: Verdict)
    requires P.ValidCipher(s.config.cipher) && f == FlowIn(s) && sc == Script(f)
    requires OnAt(f, sc, s, F.Pos(f, s)) && s.wait.Ready?
    requires s.state.SendServerHello? || s.state.SendServerFinished? || F.IsLate(s)
             || (F.FullOnly(s) && !s.state.ReadClientCertificate?)
    ensures On(Step(s, v))
  {
    FlowFacts(f, s);
    ScriptIsScript(f);
    StartsWithHello(f, sc, F.Pos(f, s));
    FlowOn(f, sc, s, v, F.Pos(f, s));
    KeepsOn(f, sc, s, Step(s, v));
  }

  /** Every turn of the switch keeps the server on its flow. */
  lemma {:induction false} StepOn(s: ServerHs, v: Verdict)
    requires P.ValidCipher(s.config.cipher) && On(s) && s.wait.Ready?
    ensures On(Step(s, v))
  {
    if s.state.SelectParameters? {
      HelloOn(s, v);
    } else if s.state.ReadClientCertificate? {
      CertificateOn(s, v);
    } else if s.state.SendServerHello? || s.state.SendServerFinished? || F.IsLate(s) || F.FullOnly(s) {
      MiddleOn(FlowIn(s), Script(FlowIn(s)), s, v);
    } else {
      QuietOn(s, Step(s, v));
    }
  }

  /** A ChangeCipherSpec that arrives moves the server past its slot, which is not
      hashed; so does, in effect, any other record in its place. */
  lemma {:induction false} SwitchOn(s: ServerHs, r: ServerHs)
    requires P.ValidCipher(s.config.cipher) && On(s) && s.state.ProcessChangeCipherSpec? && s.wait.ReadChangeCipherSpec?
    requires r == s.(wait := r.wait) && !r.wait.ReadChangeCipherSpec?
    ensures On(r)
  {
    var f := FlowIn(s);
    ScriptIsScript(f);
    SwitchSlot(f, Script(f), F.Pos(f, s));
    SwitchAt(f, Script(f), s, r, F.Pos(f, s));
  }

  lemma {:induction false} SwitchSlot(f: Flow, sc: seq<Entry>, at: nat)
    requires IsScript(f, sc) && at == if f.hello.resumes then 5 else 10
    ensures at < |sc| && sc[at].record.ChangeCipherSpec?
  {
  }

  lemma {:induction false} SwitchAt(f: Flow, sc: seq<Entry>, s: ServerHs, r: ServerHs, at: nat)
    requires at < |sc| && OnAt(f, sc, s, at) && at == F.Pos(f, s) && sc[at].record.ChangeCipherSpec?
    requires s.state.ProcessChangeCipherSpec? && s.wait.ReadChangeCipherSpec?
    requires r == s.(wait := r.wait) && !r.wait.ReadChangeCipherSpec?
    ensures F.Pos(f, r) == at + 1 && OnAt(f, sc, r, at + 1)
  {
    Here(sc, at);
    WaitOnAt(f, sc, s, r, at);
    assert F.Pos(f, r) == at + 1;
  }

  /** What resolves a wait touches only the queues and the wait. */
  predicate OnlyWaits(s: ServerHs, r: ServerHs) { r == s.(wait := r.wait, inbox := r.inbox, pending := r.pending) }

  lemma {:induction false} ReactWaits(s: ServerHs, e: Event)
    requires !s.wait.Ready? || !e.Turn?
    ensures OnlyWaits(s, React(s, e))
    ensures React(s, e) == s || !React(s, e).wait.ReadChangeCipherSpec?
    ensures s.wait.ReadChangeCipherSpec? ==> React(s, e) == s.(wait := React(s, e).wait)
  {
  }

  lemma {:induction false} SamePos(f: Flow, s: ServerHs, r: ServerHs)
    requires OnlyWaits(s, r)
    requires s.wait.ReadChangeCipherSpec? == r.wait.ReadChangeCipherSpec? || !s.state.ProcessChangeCipherSpec?
    ensures F.Pos(f, r) == F.Pos(f, s)
  {
  }

  lemma {:induction false} WaitOnAt(f: Flow, sc: seq<Entry>, s: ServerHs, r: ServerHs, at: nat)
    requires OnAt(f, sc, s, at) && OnlyWaits(s, r)
    ensures OnAt(f, sc, r, at)
  {
  }

  lemma {:induction false} WaitOn(s: ServerHs, r: ServerHs)
    requires P.ValidCipher(s.config.cipher) && On(s) && OnlyWaits(s, r)
    requires s.wait.ReadChangeCipherSpec? == r.wait.ReadChangeCipherSpec? || !s.state.ProcessChangeCipherSpec?
    ensures On(r)
  {
    var f := FlowIn(s);
    SamePos(f, s, r);
    WaitOnAt(f, Script(f), s, r, F.Pos(f, s));
    assert FlowIn(r) == f;
  }

  lemma {:induction false} ReactOn(s: ServerHs, e: Event)
    requires P.ValidCipher(s.config.cipher) && On(s)
    ensures On(React(s, e))
  {
    var r := React(s, e);
    if s.wait.Ready? && e.Turn? {
      StepOn(s, e.v);
    } else {
      ReactWaits(s, e);
      if s.state.ProcessChangeCipherSpec? && s.wait.ReadChangeCipherSpec? && !r.wait.ReadChangeCipherSpec? {
        SwitchOn(s, r);
      } else {
        WaitOn(s, r);
      }
    }
  }

  lemma {:induction false} LastOn(config: ServerConfig, s: ServerHs, e: Event, r: ServerHs)
    requires P.ValidCipher(config.cipher) && s.config == config && On(s) && r == React(s, e)
    ensures r.config == config && On(r)
  {
    ReactOn(s, e);
  }

  lemma {:induction false} RunOn(config: ServerConfig, events: seq<Event>)
    requires P.ValidCipher(config.cipher)
    ensures Run(Init(config), events).config == config && On(Run(Init(config), events))
    decreases |events|
  {
    if events == [] {
      InitOn(config);
    } else {
      var before, e := events[..|events| - 1], events[|events| - 1];
      RunOn(config, before);
      LastOn(config, Run(Init(config), before), e, Run(Init(config), events));
    }
  }

  lemma {:induction false} InitOn(config: ServerConfig)
    requires P.ValidCipher(config.cipher)
    ensures Init(config).config == config && On(Init(config))
  {
  }

  /** The step asks something of code that is not part of the machine: for what it
      sends, or for the message that it awaits. */
  predicate Asks(s: ServerHs) {
    match s.state
    case SendServerHello | SendServerCertificate | SendServerHelloDone => true
    case ProcessChangeCipherSpec | SendServerFinished => true
    case StartAccept | AwaitChangeCipherSpec | FinishServerHandshake | Done => false
    case ReadClientHello | SelectParameters => s.inbox != [] && s.inbox[0].ClientHello?
    case SelectCertificate => s.inbox != []
    case SendServerKeyExchange => s.choices.serverParams
    case ReadClientCertificate => s.choices.certRequest && s.inbox != [] && s.inbox[0].Certificate?
    case VerifyClientCertificate => s.choices.peerKey
    case ReadClientKeyExchange => s.inbox != [] && s.inbox[0].ClientKeyExchange?
    case ReadClientCertificateVerify => s.choices.peerKey && s.inbox != [] && s.inbox[0].CertificateVerify?
    case ReadNextProto => s.hello.npn && s.inbox != [] && s.inbox[0].NextProto?
    case ReadChannelId => s.hello.channelId && s.inbox != [] && s.inbox[0].ChannelId?
    case ReadClientFinished => s.inbox != []
  }

  predicate MayPause(s: ServerHs) {
    || ((s.state.ReadClientHello? || s.state.SelectParameters?) && s.inbox != [] && s.inbox[0].ClientHello?)
    || (s.state.SelectCertificate? && s.inbox != [])
    || (s.state.SendServerKeyExchange? && s.choices.serverParams && s.config.cipher.certAuth)
    || (s.state.VerifyClientCertificate? && s.choices.peerKey)
    || (s.state.ReadClientKeyExchange? && s.inbox != [] && s.inbox[0].ClientKeyExchange?)
  }

  /** A check that fails ends the handshake; one that asks to wait pauses it, and no
      message is sent or consumed. A message that is left over when the keys change is
      fatal. */
  lemma {:induction false} ChecksDecide(s: ServerHs, v: Verdict)
    requires s.wait.Ready?
    ensures Asks(s) ==> Step(s, Fail) == s.(wait := Error)
    ensures MayPause(s) ==> Step(s, Retry) == s.(wait := Paused)
    ensures !Asks(s) ==> Step(s, Fail) == Step(s, Proceed)
    ensures !MayPause(s) ==> Step(s, Retry) == Step(s, Proceed)
    ensures s.state.ProcessChangeCipherSpec? && s.inbox != [] ==> Step(s, v) == s.(wait := Error)
  {
  }

  /** Event i resolved the wait for a ChangeCipherSpec, at a time when no Finished
      of the client had been hashed. */
  predicate Switched(config: ServerConfig, events: seq<Event>, i: nat) {
    && i < |events| && events[i] == Arrive(ChangeCipherSpec)
    && var s := Run(Init(config), events[..i]);
       s.wait.ReadChangeCipherSpec? && forall m <- s.transcript :: !(m.Finished? && m.sender.Client?)
  }

  /** Event i is the verdict that accepted the client's certificate. */
  predicate Verified(config: ServerConfig, events: seq<Event>, i: nat) {
    && i < |events| && events[i] == Turn(Proceed)
    && var s := Run(Init(config), events[..i]);
       s.wait.Ready? && s.state.VerifyClientCertificate? && s.choices.peerKey
  }

  /** Event i accepted a signature made with the client's key. */
  predicate Signed(config: ServerConfig, events: seq<Event>, i: nat) {
    && i < |events| && events[i].Turn? && !events[i].v.Fail?
    && var s := Run(Init(config), events[..i]);
       s.wait.Ready? && s.state.ReadClientCertificateVerify? && s.inbox != [] && s.inbox[0].CertificateVerify?
  }

  /** The ChangeCipherSpec is behind it. */
  predicate PastSwitch(s: ServerHs) {
    Rank(s) <= 6 || (s.state.ProcessChangeCipherSpec? && !s.wait.ReadChangeCipherSpec? && !s.wait.Error?)
  }

  predicate IsClientFinished(e: Entry) { e.record.Handshake? && e.record.msg.Finished? && e.record.msg.sender.Client? }

  lemma {:induction false} NoClientFinished(sc: seq<Entry>, k: nat)
    requires k <= |sc| && forall j :: 0 <= j < k ==> !IsClientFinished(sc[j])
    ensures forall m <- Transcript(sc, k) :: !(m.Finished? && m.sender.Client?)
    decreases k
  {
    if k > 0 { NoClientFinished(sc, k - 1); }
  }

  lemma {:induction false} EarlySlots(f: Flow, sc: seq<Entry>, j: nat)
    requires IsScript(f, sc) && j < (if f.hello.resumes then 5 else 10)
    ensures !IsClientFinished(sc[j])
  {
  }

  lemma {:induction false} StepSwitches(s: ServerHs, v: Verdict)
    requires s.wait.Ready? && !PastSwitch(s)
    ensures !PastSwitch(Step(s, v))
  {
  }

  lemma {:induction false} ReactSwitches(s: ServerHs, e: Event)
    requires !PastSwitch(s) && PastSwitch(React(s, e))
    ensures e == Arrive(ChangeCipherSpec) && s.wait.ReadChangeCipherSpec? && s.state.ProcessChangeCipherSpec?
  {
    if s.wait.Ready? && e.Turn? { StepSwitches(s, e.v); }
  }

  lemma {:induction false} NotYetFinished(s: ServerHs)
    requires P.ValidCipher(s.config.cipher) && On(s) && s.state.ProcessChangeCipherSpec? && s.wait.ReadChangeCipherSpec?
    ensures forall m <- s.transcript :: !(m.Finished? && m.sender.Client?)
  {
    var f := FlowIn(s);
    var sc := Script(f);
    ScriptIsScript(f);
    var k := F.Pos(f, s);
    forall j | 0 <= j < k ensures !IsClientFinished(sc[j]) { EarlySlots(f, sc, j); }
    NoClientFinished(sc, k);
  }

  lemma {:induction false} LastEvent(config: ServerConfig, events: seq<Event>, n: nat)
    requires |events| == n + 1
    ensures Run(Init(config), events) == React(Run(Init(config), events[..n]), events[n])
  {
  }

  lemma {:induction false} SwitchedBefore(config: ServerConfig, events: seq<Event>) returns (i: nat)
    requires P.ValidCipher(config.cipher) && PastSwitch(Run(Init(config), events))
    ensures Switched(config, events, i)
    decreases |events|
  {
    var n := |events| - 1;
    LastEvent(config, events, n);
    var s := Run(Init(config), events[..n]);
    if PastSwitch(s) {
      i := SwitchedBefore(config, events[..n]);
      assert events[..n][..i] == events[..i];
    } else {
      RunOn(config, events[..n]);
      ReactSwitches(s, events[n]);
      NotYetFinished(s);
      i := n;
    }
  }

  /** A client certificate has been accepted. */
  predicate PastVerify(s: ServerHs) { s.choices.peerKey && Rank(s) <= 10 }

  /** Only a full handshake has a client certificate. */
  predicate CertificateOnlyInFull(s: ServerHs) { s.choices.peerKey && s.state.SendServerFinished? ==> !s.hello.resumes }

  lemma {:induction false} OnFull(s: ServerHs)
    requires P.ValidCipher(s.config.cipher) && On(s)
    ensures CertificateOnlyInFull(s)
  {
  }

  lemma {:induction false} StepVerifies(s: ServerHs, v: Verdict)
    requires CertificateOnlyInFull(s) && s.wait.Ready? && !PastVerify(s) && PastVerify(Step(s, v))
    ensures v.Proceed? && s.state.VerifyClientCertificate? && s.choices.peerKey
  {
  }

  lemma {:induction false} ReactVerifies(s: ServerHs, e: Event)
    requires CertificateOnlyInFull(s) && !PastVerify(s) && PastVerify(React(s, e))
    ensures e == Turn(Proceed) && s.wait.Ready? && s.state.VerifyClientCertificate? && s.choices.peerKey
  {
    if s.wait.Ready? && e.Turn? { StepVerifies(s, e.v); }
  }

  lemma {:induction false} VerifiedBefore(config: ServerConfig, events: seq<Event>) returns (i: nat)
    requires P.ValidCipher(config.cipher) && PastVerify(Run(Init(config), events))
    ensures Verified(config, events, i)
    decreases |events|
  {
    var n := |events| - 1;
    LastEvent(config, events, n);
    var s := Run(Init(config), events[..n]);
    if PastVerify(s) {
      i := VerifiedBefore(config, events[..n]);
      assert events[..n][..i] == events[..i];
    } else {
      RunOn(config, events[..n]);
      OnFull(s);
      ReactVerifies(s, events[n]);
      i := n;
    }
  }

  /** The client's signature has been accepted. */
  predicate PastSignature(s: ServerHs) { s.choices.peerKey && Rank(s) <= 8 }

  lemma {:induction false} StepSigned(s: ServerHs, v: Verdict)
    requires CertificateOnlyInFull(s) && s.wait.Ready? && !PastSignature(s) && PastSignature(Step(s, v))
    ensures !v.Fail? && s.state.ReadClientCertificateVerify? && s.inbox != [] && s.inbox[0].CertificateVerify?
  {
  }

  lemma {:induction false} ReactSigned(s: ServerHs, e: Event)
    requires CertificateOnlyInFull(s) && !PastSignature(s) && PastSignature(React(s, e))
    ensures e.Turn? && !e.v.Fail? && s.wait.Ready?
    ensures s.state.ReadClientCertificateVerify? && s.inbox != [] && s.inbox[0].CertificateVerify?
  {
    if s.wait.Ready? && e.Turn? { StepSigned(s, e.v); }
  }

  lemma {:induction false} SignedBefore(config: ServerConfig, events: seq<Event>) returns (i: nat)
    requires P.ValidCipher(config.cipher) && PastSignature(Run(Init(config), events))
    ensures Signed(config, events, i)
    decreases |events|
  {
    var n := |events| - 1;
    LastEvent(config, events, n);
    var s := Run(Init(config), events[..n]);
    if PastSignature(s) {
      i := SignedBefore(config, events[..n]);
      assert events[..n][..i] == events[..i];
    } else {
      RunOn(config, events[..n]);
      OnFull(s);
      ReactSigned(s, events[n]);
      i := n;
    }
  }

  /** What a run that is done has established. */
  ghost predicate Established(config: ServerConfig, events: seq<Event>)
    requires P.ValidCipher(config.cipher)
  {
    var s := Run(Init(config), events);
    && s.config == config && s.transcript == A.Messages(FlowIn(s))
    && (exists i :: Switched(config, events, i))
    && (s.choices.peerKey ==> (exists i :: Verified(config, events, i)) && exists i :: Signed(config, events, i))
  }

  /** Against any peer and any sequence of verdicts and pauses, a server is done
      only if it has hashed exactly the message list of a handshake, with the
      client's Finished over all before it and a CertificateVerify if the client
      sent a certificate; a ChangeCipherSpec came before the client's Finished; and
      a certificate and its signature were accepted. */
  lemma {:induction false} DoneOnlyIfEstablished(config: ServerConfig, events: seq<Event>)
    requires P.ValidCipher(config.cipher) && Run(Init(config), events).state.Done?
    ensures Established(config, events)
  {
    var s := Run(Init(config), events);
    RunOn(config, events);
    var f := FlowIn(s);
    ScriptIsScript(f);
    A.WholeTranscript(f, Script(f));
    var i := SwitchedBefore(config, events);
    if s.choices.peerKey {
      var j := VerifiedBefore(config, events);
      var k := SignedBefore(config, events);
    }
  }
}
