/** Neither side ever waits for the other while it holds something the other has not
    been sent: what every run of the two machines keeps, against any peer. */
module TlsFlushing {
  import opened TlsMessages
  import C = TlsClient
  import S = TlsServer

  /** What the client holds back belongs to a flight that is being written or sent. */
  predicate ClientHolds(c: C.ClientHs) {
    && (c.state.Done? ==> c.pending == [])
    && (c.pending == [] || c.wait.Flush? || c.wait.Error?
        || ((c.wait.Ready? || c.wait.Paused?)
            && (c.state.SendClientKeyExchange? || c.state.SendClientCertificateVerify? || c.state.SendClientFinished?)))
  }

  lemma {:induction false} ClientTurn(c: C.ClientHs, v: Verdict)
    requires ClientHolds(c) && c.wait.Ready?
    ensures ClientHolds(C.Step(c, v))
  {
  }

  /** A client that waits for a record, or is done, has sent all it has written. */
  lemma {:induction false} ClientSendsFirst(config: C.ClientConfig, events: seq<Event>)
    ensures ClientHolds(C.Run(C.Init(config), events))
    ensures
      var c := C.Run(C.Init(config), events);
      c.wait.ReadMessage? || c.wait.ReadChangeCipherSpec? || c.state.Done? ==> c.pending == []
    decreases |events|
  {
    if events != [] {
      var before, e := events[..|events| - 1], events[|events| - 1];
      ClientSendsFirst(config, before);
      var c := C.Run(C.Init(config), before);
      if c.wait.Ready? && e.Turn? { ClientTurn(c, e.v); }
    }
  }

  predicate ServerHolds(s: S.ServerHs) {
    && (s.state.Done? ==> s.pending == [])
    && (s.pending == [] || s.wait.Flush? || s.wait.Error?
        || ((s.wait.Ready? || s.wait.Paused?)
            && (s.state.SendServerCertificate? || s.state.SendServerKeyExchange? || s.state.SendServerHelloDone?
                || s.state.SendServerFinished?)))
  }

  lemma {:induction false} ServerTurn(s: S.ServerHs, v: Verdict)
    requires ServerHolds(s) && s.wait.Ready?
    ensures ServerHolds(S.Step(s, v))
  {
  }

  /** The same of the server. */
  lemma {:induction false} ServerSendsFirst(config: S.ServerConfig, events: seq<Event>)
    ensures ServerHolds(S.Run(S.Init(config), events))
    ensures
      var s := S.Run(S.Init(config), events);
      s.wait.ReadMessage? || s.wait.ReadChangeCipherSpec? || s.state.Done? ==> s.pending == []
    decreases |events|
  {
    if events != [] {
      var before, e := events[..|events| - 1], events[|events| - 1];
      ServerSendsFirst(config, before);
      var s := S.Run(S.Init(config), before);
      if s.wait.Ready? && e.Turn? { ServerTurn(s, e.v); }
    }
  }
}
