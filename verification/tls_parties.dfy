/** What the two configurations negotiate. */
module TlsParties {
  import opened TlsMessages
  import opened TlsFlow
  import C = TlsClient
  import S = TlsServer

  /** The cipher table has no RSA key exchange without certificate authentication. */
  predicate ValidCipher(cipher: Cipher) { cipher.kx.RSA? ==> cipher.certAuth }

  /** The flow that a client and a server with these configurations run. */
  function FlowOf(client: C.ClientConfig, server: S.ServerConfig): (f: Flow)
    requires ValidCipher(server.cipher)
    ensures Consistent(f)
  {
    var selected := S.SelectedParams(server, client.offersSession);
    Flow(client.offersSession, S.HelloParams(server, selected), S.AssemblesParams(server),
         S.RequestsCertificate(server, selected), client.hasCertificate)
  }

  /** What the configurations settle. */
  lemma {:induction false} FlowIs(client: C.ClientConfig, server: S.ServerConfig)
    requires ValidCipher(server.cipher)
    ensures
      var f := FlowOf(client, server);
      var resumes := server.resumes && client.offersSession;
      var full := !resumes && server.cipher.certAuth;
      && f.offersSession == client.offersSession && f.hello.resumes == resumes && f.hello.cipher == server.cipher
      && (f.hello.status <==> full && server.extensions.staples)
      && (f.hello.ticket <==> if resumes then server.renewsTicket else server.tickets)
      && (f.hello.npn <==> server.extensions.npn)
      && (f.hello.channelId <==>
            server.extensions.channelId && server.cipher.kx.ECDHE? && (!resumes || server.originalHash))
      && (f.keyExchange <==> server.cipher.kx.ECDHE? || (!server.cipher.certAuth && server.extensions.pskHint))
      && (f.certRequest <==> full && server.requestsCertificate)
      && f.clientCert == client.hasCertificate
  {
  }
}
