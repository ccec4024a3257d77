/** What the composition guarantees of every run of a client and a server. */
module TlsAgreement {
  import opened TlsMessages
  import opened TlsScript
  import opened TlsFlow
  import opened TlsComposition
  import C = TlsClient
  import S = TlsServer
  import CF = TlsClientInFlow
  import SF = TlsServerInFlow
  import P = TlsParties

  /** The handshake messages of a resumed handshake, in the order of section 7.3 of
      RFC 5246 (figure 2), each Finished over the messages before it. */
  function ResumedMessages(f: Flow): seq<Msg> {
    var hellos := [ClientHello(f.offersSession), ServerHello(f.hello)] + When(f.hello.ticket, NewSessionTicket(false));
    var server := hellos + [Finished(Server, hellos)];
    var client := server + When(f.hello.npn, NextProto) + When(f.hello.channelId, ChannelId);
    client + [Finished(Client, client)]
  }

  function HelloMessages(f: Flow): seq<Msg> {
    [ClientHello(f.offersSession), ServerHello(f.hello)]
    + When(f.hello.cipher.certAuth, Certificate(true)) + When(f.hello.status, CertificateStatus)
    + When(f.keyExchange, ServerKeyExchange) + When(f.certRequest, CertificateRequest) + [ServerHelloDone]
  }

  /** The handshake messages of a full handshake (figure 1, and figure 1 of
      RFC 5077 for the ticket). */
  function FullMessages(f: Flow): seq<Msg> {
    var keys := HelloMessages(f) + When(f.certRequest, Certificate(f.clientCert)) + [ClientKeyExchange]
                + When(f.certRequest && f.clientCert, CertificateVerify)
                + When(f.hello.npn, NextProto) + When(f.hello.channelId, ChannelId);
    var client := keys + [Finished(Client, keys)];
    var server := client + When(f.hello.ticket, NewSessionTicket(false));
    server + [Finished(Server, server)]
  }

  function Messages(f: Flow): seq<Msg> { if f.hello.resumes then ResumedMessages(f) else FullMessages(f) }

  /** Which optional messages the two configurations lead to. */
  lemma {:induction false} OptionalMessages(client: C.ClientConfig, server: S.ServerConfig)
    requires P.ValidCipher(server.cipher)
    ensures
      var t := Messages(P.FlowOf(client, server));
      var resumes := server.resumes && client.offersSession;
      var full := !resumes && server.cipher.certAuth;
      && (CertificateRequest in t <==> full && server.requestsCertificate)
      && (Certificate(true) in t <==> full)
      && (CertificateStatus in t <==> full && server.extensions.staples)
      && (ServerKeyExchange in t <==> !resumes && (server.cipher.kx.ECDHE?
                                                   || (!server.cipher.certAuth && server.extensions.pskHint)))
      && (CertificateVerify in t <==> full && server.requestsCertificate && client.hasCertificate)
      && (NewSessionTicket(false) in t <==> if resumes then server.renewsTicket else server.tickets)
      && (NextProto in t <==> server.extensions.npn)
  {
    P.FlowIs(client, server);
    var f := P.FlowOf(client, server);
    if f.hello.resumes { ResumedHas(f); } else { FullHas(f); }
  }

  lemma {:induction false} ResumedHas(f: Flow)
    requires f.hello.resumes
    ensures
      var t := Messages(f);
      && CertificateRequest !in t && Certificate(true) !in t && CertificateStatus !in t && ServerKeyExchange !in t
      && CertificateVerify !in t && (NewSessionTicket(false) in t <==> f.hello.ticket)
      && (NextProto in t <==> f.hello.npn)
  {
  }

  lemma {:induction false} HelloHas(f: Flow)
    ensures
      var t := HelloMessages(f);
      && (CertificateRequest in t <==> f.certRequest) && (Certificate(true) in t <==> f.hello.cipher.certAuth)
      && (CertificateStatus in t <==> f.hello.status) && (ServerKeyExchange in t <==> f.keyExchange)
      && CertificateVerify !in t && NewSessionTicket(false) !in t && NextProto !in t
  {
  }

  /** Optional messages before the client's Finished. */
  predicate HasKeys(f: Flow, t: seq<Msg>) {
    && (CertificateRequest in t <==> f.certRequest) && (Certificate(true) in t <==> f.hello.cipher.certAuth)
    && (CertificateStatus in t <==> f.hello.status) && (ServerKeyExchange in t <==> f.keyExchange)
    && (CertificateVerify in t <==> f.certRequest && f.clientCert) && (NextProto in t <==> f.hello.npn)
    && NewSessionTicket(false) !in t
  }

  lemma {:induction false} KeysHave(f: Flow)
    requires !f.hello.resumes && Consistent(f)
    ensures
      HasKeys(f, HelloMessages(f) + When(f.certRequest, Certificate(f.clientCert)) + [ClientKeyExchange]
                 + When(f.certRequest && f.clientCert, CertificateVerify)
                 + When(f.hello.npn, NextProto) + When(f.hello.channelId, ChannelId))
  {
    HelloHas(f);
  }

  lemma {:induction false} FullHas(f: Flow)
    requires !f.hello.resumes && Consistent(f)
    ensures
      var t := Messages(f);
      && (CertificateRequest in t <==> f.certRequest) && (Certificate(true) in t <==> f.hello.cipher.certAuth)
      && (CertificateStatus in t <==> f.hello.status) && (ServerKeyExchange in t <==> f.keyExchange)
      && (CertificateVerify in t <==> f.certRequest && f.clientCert)
      && (NewSessionTicket(false) in t <==> f.hello.ticket) && (NextProto in t <==> f.hello.npn)
  {
    KeysHave(f);
  }

  lemma {:induction false} StartTranscript(f: Flow, sc: seq<Entry>)
    requires IsScript(f, sc)
    ensures Transcript(sc, 2) == [ClientHello(f.offersSession), ServerHello(f.hello)]
  {
    Here(sc, 0);
    Here(sc, 1);
  }

  lemma {:induction false} ResumedTranscript(f: Flow, sc: seq<Entry>)
    requires IsScript(f, sc) && f.hello.resumes
    ensures Transcript(sc, 9) == ResumedMessages(f)
  {
    StartTranscript(f, sc);
    forall k | 2 <= k < 9 ensures Transcript(sc, k + 1) == Transcript(sc, k) + Hashed(sc[k]) { Here(sc, k); }
    var t4 := Transcript(sc, 4);
    assert t4 == Transcript(sc, 2) + When(f.hello.ticket, NewSessionTicket(false));
    assert Transcript(sc, 6) == Transcript(sc, 5) == t4 + [Finished(Server, t4)];
    var t8 := Transcript(sc, 8);
    assert t8 == Transcript(sc, 5) + When(f.hello.npn, NextProto) + When(f.hello.channelId, ChannelId);
  }

  lemma {:induction false} HelloTranscript(f: Flow, sc: seq<Entry>)
    requires IsScript(f, sc) && !f.hello.resumes
    ensures Transcript(sc, 7) == HelloMessages(f)
  {
    StartTranscript(f, sc);
    forall k | 2 <= k < 7 ensures Transcript(sc, k + 1) == Transcript(sc, k) + Hashed(sc[k]) { Here(sc, k); }
    assert Transcript(sc, 4)
           == Transcript(sc, 2) + When(f.hello.cipher.certAuth, Certificate(true))
              + When(f.hello.status, CertificateStatus);
  }

  lemma {:induction false} FullTranscript(f: Flow, sc: seq<Entry>)
    requires IsScript(f, sc) && !f.hello.resumes
    ensures Transcript(sc, 17) == FullMessages(f)
  {
    HelloTranscript(f, sc);
    forall k | 7 <= k < 17 ensures Transcript(sc, k + 1) == Transcript(sc, k) + Hashed(sc[k]) { Here(sc, k); }
    assert Transcript(sc, 11) == Transcript(sc, 10)
           == HelloMessages(f) + When(f.certRequest, Certificate(f.clientCert)) + [ClientKeyExchange]
              + When(f.certRequest && f.clientCert, CertificateVerify);
    var t13 := Transcript(sc, 13);
    assert t13 == Transcript(sc, 11) + When(f.hello.npn, NextProto) + When(f.hello.channelId, ChannelId);
    assert Transcript(sc, 14) == t13 + [Finished(Client, t13)];
    var t16 := Transcript(sc, 16);
    assert t16 == Transcript(sc, 15) == Transcript(sc, 14) + When(f.hello.ticket, NewSessionTicket(false));
  }

  /** The script's transcript is exactly the standard's message list. */
  lemma {:induction false} WholeTranscript(f: Flow, sc: seq<Entry>)
    requires IsScript(f, sc)
    ensures Transcript(sc, |sc|) == Messages(f)
  {
    if f.hello.resumes { ResumedTranscript(f, sc); } else { FullTranscript(f, sc); }
  }

  lemma {:induction false} TranscriptGrows(sc: seq<Entry>, i: nat, j: nat)
    requires i <= j <= |sc|
    ensures Transcript(sc, i) <= Transcript(sc, j)
    decreases j
  {
    if i < j { TranscriptGrows(sc, i, j - 1); }
  }

  /** In every interleaving of two configured parties, with any number of pauses
      and as long as no outside check fails, neither side ever meets an
      unexpected message, and one transcript is always a prefix of the other and
      of the standard's message list. */
  lemma {:induction false} NoUnexpectedMessage(client: C.ClientConfig, server: S.ServerConfig, moves: seq<Move>)
    requires P.ValidCipher(server.cipher) && NoFailure(moves)
    ensures
      var y := Run(Start(client, server), moves);
      && !y.client.wait.Error? && !y.server.wait.Error?
      && (y.client.transcript <= y.server.transcript || y.server.transcript <= y.client.transcript)
      && y.client.transcript <= Messages(P.FlowOf(client, server))
      && y.server.transcript <= Messages(P.FlowOf(client, server))
  {
    var y, f := Run(Start(client, server), moves), P.FlowOf(client, server);
    var sc := Script(f);
    RunKeeps(client, server, moves);
    var atC, atS := CF.Pos(f, y.client), SF.Pos(f, y.server);
    if atC <= atS { TranscriptGrows(sc, atC, atS); } else { TranscriptGrows(sc, atS, atC); }
    TranscriptGrows(sc, atC, |sc|);
    TranscriptGrows(sc, atS, |sc|);
    WholeTranscript(f, sc);
  }

  lemma {:induction false} ClientAtEnd(f: Flow, sc: seq<Entry>, c: C.ClientHs)
    requires |sc| == End(f) && CF.Inv(f, sc, c) && c.state.Done?
    ensures c.transcript == Transcript(sc, |sc|)
  {
  }

  lemma {:induction false} ServerAtEnd(f: Flow, sc: seq<Entry>, s: S.ServerHs)
    requires |sc| == End(f) && SF.Inv(f, sc, s) && s.state.Done?
    ensures s.transcript == Transcript(sc, |sc|)
  {
  }

  lemma {:induction false} DoneAtEnd(f: Flow, sc: seq<Entry>, y: Sys)
    requires Inv(f, sc, y)
    ensures y.client.state.Done? ==> y.client.transcript == Transcript(sc, |sc|)
    ensures y.server.state.Done? ==> y.server.transcript == Transcript(sc, |sc|)
  {
    if y.client.state.Done? { ClientAtEnd(f, sc, y.client); }
    if y.server.state.Done? { ServerAtEnd(f, sc, y.server); }
  }

  /** A side that is done holds exactly the standard's message list, so when both
      are done their transcripts are equal. */
  lemma {:induction false} DoneTranscripts(client: C.ClientConfig, server: S.ServerConfig, moves: seq<Move>)
    requires P.ValidCipher(server.cipher) && NoFailure(moves)
    ensures
      var y := Run(Start(client, server), moves);
      && (y.client.state.Done? ==> y.client.transcript == Messages(P.FlowOf(client, server)))
      && (y.server.state.Done? ==> y.server.transcript == Messages(P.FlowOf(client, server)))
  {
    var f := P.FlowOf(client, server);
    RunKeeps(client, server, moves);
    DoneAtEnd(f, Script(f), Run(Start(client, server), moves));
    ScriptIsScript(f);
    WholeTranscript(f, Script(f));
  }
}
