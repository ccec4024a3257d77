/** The two machines joined by two FIFO channels. */
module TlsComposition {
  import opened TlsMessages
  import opened TlsScript
  import opened TlsFlow
  import C = TlsClient
  import S = TlsServer
  import CF = TlsClientInFlow
  import SF = TlsServerInFlow
  import P = TlsParties

  datatype Sys = Sys(client: C.ClientHs, server: S.ServerHs, toServer: seq<Record>, toClient: seq<Record>)

  /** Which side moves, and what outside code answers if it takes a turn; or a side
      receives a record with the front part of the message that comes to it next. */
  datatype Move = Move(side: Role, v: Verdict) | Part(side: Role)

  function Start(client: C.ClientConfig, server: S.ServerConfig): Sys {
    Sys(C.Init(client), S.Init(server), [], [])
  }

  /** One move of the client: a turn of its switch, or whatever resolves its wait. */
  function ClientMoves(y: Sys, v: Verdict): Sys {
    var c := y.client;
    match c.wait
    case Ready => y.(client := C.React(c, Turn(v)))
    case Flush =>
      if c.pending != []
      then y.(client := C.React(c, Leave), toServer := y.toServer + [c.pending[0]])
      else y.(client := C.React(c, Flushed))
    case ReadMessage | ReadChangeCipherSpec =>
      if y.toClient == [] then y
      else y.(client := C.React(c, Arrive(y.toClient[0])), toClient := y.toClient[1..])
    case Paused => y.(client := C.React(c, Resume))
    case Error => y
  }

  function ServerMoves(y: Sys, v: Verdict): Sys {
    var s := y.server;
    match s.wait
    case Ready => y.(server := S.React(s, Turn(v)))
    case Flush =>
      if s.pending != []
      then y.(server := S.React(s, Leave), toClient := y.toClient + [s.pending[0]])
      else y.(server := S.React(s, Flushed))
    case ReadMessage | ReadChangeCipherSpec =>
      if y.toServer == [] then y
      else y.(server := S.React(s, Arrive(y.toServer[0])), toServer := y.toServer[1..])
    case Paused => y.(server := S.React(s, Resume))
    case Error => y
  }

  /** The records that a side receives next: those in the channel, or those that the
      other side is sending. */
  function Coming(channel: seq<Record>, pending: seq<Record>, wait: Wait): seq<Record> {
    if channel == [] && wait.Flush? then pending else channel
  }

  /** A message that takes several records: one that is not its last arrives, and
      completes no message. */
  function ClientPart(y: Sys): Sys {
    var coming := Coming(y.toClient, y.server.pending, y.server.wait);
    if CF.Reading(y.client.wait) && coming != [] && coming[0].Handshake?
    then y.(client := C.React(y.client, Arrive(Packed([])))) else y
  }

  function ServerPart(y: Sys): Sys {
    var coming := Coming(y.toServer, y.client.pending, y.client.wait);
    if SF.Reading(y.server.wait) && coming != [] && coming[0].Handshake?
    then y.(server := S.React(y.server, Arrive(Packed([])))) else y
  }

  function Apply(y: Sys, m: Move): Sys {
    match m
    case Move(side, v) => if side.Client? then ClientMoves(y, v) else ServerMoves(y, v)
    case Part(side) => if side.Client? then ClientPart(y) else ServerPart(y)
  }

  /** No outside check fails. */
  predicate NoFailure(moves: seq<Move>) { forall m <- moves :: m.Move? ==> !m.v.Fail? }

  function Run(y: Sys, moves: seq<Move>): Sys
    decreases |moves|
  {
    if moves == [] then y else Apply(Run(y, moves[..|moves| - 1]), moves[|moves| - 1])
  }

  /** Between them, the inboxes, channels and flights hold exactly the script's
      records between the two positions. */
  predicate Linked(sc: seq<Entry>, y: Sys, atC: nat, atS: nat)
    requires atC <= |sc| && atS <= |sc|
  {
    && Link(sc, Client, atC, atS, y.server.inbox, y.toServer, y.client.pending)
    && Link(sc, Server, atS, atC, y.client.inbox, y.toClient, y.server.pending)
  }

  /** What does not change during a run. */
  predicate Fixed(f: Flow, sc: seq<Entry>, config: S.ServerConfig) {
    IsScript(f, sc) && Consistent(f) && SF.LeadsTo(config, f)
  }

  /** Both machines and the links between them, at given positions. */
  predicate InvAt(f: Flow, sc: seq<Entry>, y: Sys, atC: nat, atS: nat)
    requires atC <= |sc| && atS <= |sc|
  {
    CF.InvAt(f, sc, y.client, atC) && SF.InvAt(f, sc, y.server, atS) && Linked(sc, y, atC, atS)
  }

  predicate Inv(f: Flow, sc: seq<Entry>, y: Sys) {
    && Fixed(f, sc, y.server.config)
    && CF.Pos(f, y.client) <= |sc| && SF.Pos(f, y.server) <= |sc|
    && InvAt(f, sc, y, CF.Pos(f, y.client), SF.Pos(f, y.server))
  }

  lemma {:induction false} ClientLinks(f: Flow, sc: seq<Entry>, y: Sys, r: C.ClientHs, at: nat, next: nat, peer: nat)
    requires at <= |sc| && peer <= |sc| && Linked(sc, y, at, peer)
    requires CF.FollowsAt(f, sc, y.client, r, at, next)
    ensures Linked(sc, y.(client := r), next, peer)
  {
    if |r.inbox| < |y.client.inbox| { ClientReadLinks(sc, y, r, at, next, peer); }
    else { ClientSendLinks(sc, y, r, at, next, peer); }
  }

  lemma {:induction false} ClientReadLinks(sc: seq<Entry>, y: Sys, r: C.ClientHs, at: nat, next: nat, peer: nat)
    requires at <= |sc| && peer <= |sc| && next <= |sc| && Linked(sc, y, at, peer)
    requires CF.Reads(sc, y.client, r, at, next)
    ensures Linked(sc, y.(client := r), next, peer)
  {
    assert y.client.inbox == [y.client.inbox[0]];
    LinkRead(sc, Client, at, peer, y.client.inbox[0], y.toClient, y.server.pending,
             y.server.inbox, y.toServer, y.client.pending);
  }

  lemma {:induction false} ClientSendLinks(sc: seq<Entry>, y: Sys, r: C.ClientHs, at: nat, next: nat, peer: nat)
    requires at <= |sc| && peer <= |sc| && next <= |sc| && Linked(sc, y, at, peer)
    requires CF.Sends(sc, y.client, r, at, next)
    ensures Linked(sc, y.(client := r), next, peer)
  {
    LinkSent(sc, Client, at, next, peer, y.server.inbox, y.toServer, y.client.pending,
             y.client.inbox, y.toClient, y.server.pending);
  }

  lemma {:induction false} ServerLinks(f: Flow, sc: seq<Entry>, y: Sys, r: S.ServerHs, at: nat, next: nat, peer: nat)
    requires at <= |sc| && peer <= |sc| && Linked(sc, y, peer, at)
    requires SF.FollowsAt(f, sc, y.server, r, at, next)
    ensures Linked(sc, y.(server := r), peer, next)
  {
    if |r.inbox| < |y.server.inbox| { ServerReadLinks(sc, y, r, at, next, peer); }
    else { ServerSendLinks(sc, y, r, at, next, peer); }
  }

  lemma {:induction false} ServerReadLinks(sc: seq<Entry>, y: Sys, r: S.ServerHs, at: nat, next: nat, peer: nat)
    requires at <= |sc| && peer <= |sc| && next <= |sc| && Linked(sc, y, peer, at)
    requires SF.Reads(sc, y.server, r, at, next)
    ensures Linked(sc, y.(server := r), peer, next)
  {
    assert y.server.inbox == [y.server.inbox[0]];
    LinkRead(sc, Server, at, peer, y.server.inbox[0], y.toServer, y.client.pending,
             y.client.inbox, y.toClient, y.server.pending);
  }

  lemma {:induction false} ServerSendLinks(sc: seq<Entry>, y: Sys, r: S.ServerHs, at: nat, next: nat, peer: nat)
    requires at <= |sc| && peer <= |sc| && next <= |sc| && Linked(sc, y, peer, at)
    requires SF.Sends(sc, y.server, r, at, next)
    ensures Linked(sc, y.(server := r), peer, next)
  {
    LinkSent(sc, Server, at, next, peer, y.client.inbox, y.toClient, y.server.pending,
             y.server.inbox, y.toServer, y.client.pending);
  }

  lemma {:induction false} ClientHolds(sc: seq<Entry>, y: Sys, at: nat, peer: nat)
    requires at <= |sc| && peer <= |sc| && Linked(sc, y, at, peer) && |y.client.inbox| <= 1
    ensures CF.Holds(sc, y.client, at)
  {
    if y.client.inbox != [] {
      assert y.client.inbox == [y.client.inbox[0]];
      LinkRead(sc, Client, at, peer, y.client.inbox[0], y.toClient, y.server.pending,
               y.server.inbox, y.toServer, y.client.pending);
    }
  }

  lemma {:induction false} ServerHolds(sc: seq<Entry>, y: Sys, at: nat, peer: nat)
    requires at <= |sc| && peer <= |sc| && Linked(sc, y, peer, at) && |y.server.inbox| <= 1
    ensures SF.Holds(sc, y.server, at)
  {
    if y.server.inbox != [] {
      assert y.server.inbox == [y.server.inbox[0]];
      LinkRead(sc, Server, at, peer, y.server.inbox[0], y.toServer, y.client.pending,
               y.client.inbox, y.toClient, y.server.pending);
    }
  }

  lemma {:induction false} ClientTurnKeeps(f: Flow, sc: seq<Entry>, y: Sys, v: Verdict, at: nat, peer: nat)
    returns (next: nat)
    requires Fixed(f, sc, y.server.config)
    requires at <= |sc| && peer <= |sc| && Linked(sc, y, at, peer) && CF.InvAt(f, sc, y.client, at)
    requires at == CF.Pos(f, y.client) && y.client.wait.Ready? && !v.Fail?
    ensures next == CF.Pos(f, C.Step(y.client, v)) && next <= |sc|
    ensures Linked(sc, y.(client := C.Step(y.client, v)), next, peer)
    ensures CF.InvAt(f, sc, y.(client := C.Step(y.client, v)).client, next)
  {
    ClientHolds(sc, y, at, peer);
    CF.StepFollows(f, sc, y.client, v);
    next := CF.Pos(f, C.Step(y.client, v));
    ClientLinks(f, sc, y, C.Step(y.client, v), at, next, peer);
  }

  lemma {:induction false} ClientFlushKeeps(f: Flow, sc: seq<Entry>, y: Sys, at: nat, peer: nat)
    requires at <= |sc| && peer <= |sc| && Linked(sc, y, at, peer) && CF.InvAt(f, sc, y.client, at)
    requires y.client.wait.Flush?
    ensures Linked(sc, ClientMoves(y, Proceed), at, peer) && CF.InvAt(f, sc, ClientMoves(y, Proceed).client, at)
  {
    if y.client.pending != [] {
      CF.LeaveKeeps(f, sc, y.client, at);
      LinkLeaves(sc, Client, at, peer, y.server.inbox, y.toServer, y.client.pending);
    } else {
      CF.WakeKeeps(f, sc, y.client, at);
    }
  }

  lemma {:induction false} ClientResumeKeeps(f: Flow, sc: seq<Entry>, y: Sys, at: nat, peer: nat)
    requires at <= |sc| && peer <= |sc| && Linked(sc, y, at, peer) && CF.InvAt(f, sc, y.client, at)
    requires y.client.wait.Paused?
    ensures Linked(sc, ClientMoves(y, Proceed), at, peer) && CF.InvAt(f, sc, ClientMoves(y, Proceed).client, at)
  {
    CF.WakeKeeps(f, sc, y.client, at);
  }

  lemma {:induction false} ClientMessageArrives(f: Flow, sc: seq<Entry>, y: Sys, at: nat, peer: nat)
    requires at <= |sc| && peer <= |sc| && Linked(sc, y, at, peer) && CF.InvAt(f, sc, y.client, at)
    requires y.client.wait.ReadMessage? && y.toClient != []
    ensures Linked(sc, ClientMoves(y, Proceed), at, peer) && CF.InvAt(f, sc, ClientMoves(y, Proceed).client, at)
  {
    LinkHead(sc, Client, at, peer, y.toClient, y.server.pending, y.server.inbox, y.toServer, y.client.pending);
    LinkArrives(sc, Server, peer, at, y.toClient, y.server.pending);
    CF.ArriveKeeps(f, sc, y.client, at, y.toClient[0].msg);
    assert y.client.inbox + [y.toClient[0].msg] == [y.toClient[0].msg];
  }

  lemma {:induction false} ClientSwitches(y: Sys)
    requires y.client.wait.ReadChangeCipherSpec? && y.toClient != [] && y.toClient[0].ChangeCipherSpec?
    ensures ClientMoves(y, Proceed)
            == y.(client := y.client.(wait := Ready),
                  toClient := y.toClient[1..])
  {
  }

  lemma {:induction false} ClientSwitchLinks(sc: seq<Entry>, y: Sys, r: C.ClientHs, at: nat, peer: nat)
    requires at < |sc| && peer <= |sc| && Linked(sc, y, at, peer) && y.client.inbox == [] && y.toClient != []
    requires sc[at] == Entry(Server, true, ChangeCipherSpec)
    requires r.inbox == y.client.inbox && r.pending == y.client.pending
    ensures y.toClient[0].ChangeCipherSpec?
    ensures Linked(sc, y.(client := r, toClient := y.toClient[1..]), at + 1, peer)
  {
    Here(sc, at);
    LinkHead(sc, Client, at, peer, y.toClient, y.server.pending, y.server.inbox, y.toServer, y.client.pending);
  }

  lemma {:induction false} ClientChangeCipherSpecArrives(f: Flow, sc: seq<Entry>, y: Sys, at: nat, peer: nat)
    requires 2 <= at < |sc| && peer <= |sc| && Linked(sc, y, at, peer) && CF.InvAt(f, sc, y.client, at)
    requires y.client.wait.ReadChangeCipherSpec? && y.toClient != []
    requires sc[at] == Entry(Server, true, ChangeCipherSpec) && (f.certRequest ==> at >= 6)
    ensures Linked(sc, ClientMoves(y, Proceed), at + 1, peer) && CF.InvAt(f, sc, ClientMoves(y, Proceed).client, at + 1)
  {
    var r := y.client.(wait := Ready);
    ClientSwitchLinks(sc, y, r, at, peer);
    ClientSwitches(y);
    CF.SwitchKeeps(f, sc, y.client, at);
  }

  lemma {:induction false} ServerTurnKeeps(f: Flow, sc: seq<Entry>, y: Sys, v: Verdict, at: nat, peer: nat)
    returns (next: nat)
    requires Fixed(f, sc, y.server.config)
    requires at <= |sc| && peer <= |sc| && Linked(sc, y, peer, at) && SF.InvAt(f, sc, y.server, at)
    requires at == SF.Pos(f, y.server) && y.server.wait.Ready? && !v.Fail?
    ensures next == SF.Pos(f, S.Step(y.server, v)) && next <= |sc|
    ensures Linked(sc, y.(server := S.Step(y.server, v)), peer, next)
    ensures SF.InvAt(f, sc, y.(server := S.Step(y.server, v)).server, next)
  {
    ServerHolds(sc, y, at, peer);
    SF.StepFollows(f, sc, y.server, v);
    next := SF.Pos(f, S.Step(y.server, v));
    ServerLinks(f, sc, y, S.Step(y.server, v), at, next, peer);
  }

  lemma {:induction false} ServerFlushKeeps(f: Flow, sc: seq<Entry>, y: Sys, at: nat, peer: nat)
    requires at <= |sc| && peer <= |sc| && Linked(sc, y, peer, at) && SF.InvAt(f, sc, y.server, at)
    requires y.server.wait.Flush?
    ensures Linked(sc, ServerMoves(y, Proceed), peer, at) && SF.InvAt(f, sc, ServerMoves(y, Proceed).server, at)
  {
    if y.server.pending != [] {
      SF.LeaveKeeps(f, sc, y.server, at);
      LinkLeaves(sc, Server, at, peer, y.client.inbox, y.toClient, y.server.pending);
    } else {
      SF.WakeKeeps(f, sc, y.server, at);
    }
  }

  lemma {:induction false} ServerResumeKeeps(f: Flow, sc: seq<Entry>, y: Sys, at: nat, peer: nat)
    requires at <= |sc| && peer <= |sc| && Linked(sc, y, peer, at) && SF.InvAt(f, sc, y.server, at)
    requires y.server.wait.Paused?
    ensures Linked(sc, ServerMoves(y, Proceed), peer, at) && SF.InvAt(f, sc, ServerMoves(y, Proceed).server, at)
  {
    SF.WakeKeeps(f, sc, y.server, at);
  }

  lemma {:induction false} ServerMessageArrives(f: Flow, sc: seq<Entry>, y: Sys, at: nat, peer: nat)
    requires at <= |sc| && peer <= |sc| && Linked(sc, y, peer, at) && SF.InvAt(f, sc, y.server, at)
    requires y.server.wait.ReadMessage? && y.toServer != []
    ensures Linked(sc, ServerMoves(y, Proceed), peer, at) && SF.InvAt(f, sc, ServerMoves(y, Proceed).server, at)
  {
    LinkHead(sc, Server, at, peer, y.toServer, y.client.pending, y.client.inbox, y.toClient, y.server.pending);
    LinkArrives(sc, Client, peer, at, y.toServer, y.client.pending);
    SF.ArriveKeeps(f, sc, y.server, at, y.toServer[0].msg);
    assert y.server.inbox + [y.toServer[0].msg] == [y.toServer[0].msg];
  }

  lemma {:induction false} ServerSwitches(y: Sys)
    requires y.server.wait.ReadChangeCipherSpec? && y.toServer != [] && y.toServer[0].ChangeCipherSpec?
    ensures ServerMoves(y, Proceed)
            == y.(server := y.server.(wait := Ready), toServer := y.toServer[1..])
  {
  }

  lemma {:induction false} ServerChangeCipherSpecArrives(f: Flow, sc: seq<Entry>, y: Sys, at: nat, peer: nat)
    requires 2 <= at < |sc| && peer <= |sc| && Linked(sc, y, peer, at) && SF.InvAt(f, sc, y.server, at)
    requires y.server.wait.ReadChangeCipherSpec? && y.toServer != []
    requires sc[at] == Entry(Client, true, ChangeCipherSpec)
    ensures Linked(sc, ServerMoves(y, Proceed), peer, at + 1) && SF.InvAt(f, sc, ServerMoves(y, Proceed).server, at + 1)
  {
    Here(sc, at);
    assert NextPresent(sc, at) == at;
    LinkHead(sc, Server, at, peer, y.toServer, y.client.pending, y.client.inbox, y.toClient, y.server.pending);
    ServerSwitches(y);
    SF.SwitchKeeps(f, sc, y.server, at);
  }

  /** Where the client waits for a ChangeCipherSpec, the server's is next. */
  lemma {:induction false} ClientAtChangeCipherSpec(f: Flow, sc: seq<Entry>, y: Sys, at: nat)
    requires Fixed(f, sc, y.server.config) && at == CF.Pos(f, y.client)
    requires y.client.wait.ReadChangeCipherSpec? && y.client.state.ProcessChangeCipherSpec?
    ensures 2 <= at < |sc| && sc[at] == Entry(Server, true, ChangeCipherSpec)
    ensures f.certRequest ==> at >= 6
    ensures CF.Pos(f, ClientMoves(y, Proceed).client) == if y.toClient == [] then at else at + 1
  {
  }

  lemma {:induction false} ClientWaitKeeps(f: Flow, sc: seq<Entry>, y: Sys, at: nat, peer: nat)
    requires at <= |sc| && peer <= |sc| && Linked(sc, y, at, peer) && CF.InvAt(f, sc, y.client, at)
    requires !y.client.wait.Ready? && !y.client.wait.ReadChangeCipherSpec?
    ensures Linked(sc, ClientMoves(y, Proceed), at, peer) && CF.InvAt(f, sc, ClientMoves(y, Proceed).client, at)
  {
    match y.client.wait
    case Flush => ClientFlushKeeps(f, sc, y, at, peer);
    case Paused => ClientResumeKeeps(f, sc, y, at, peer);
    case ReadMessage => if y.toClient != [] { ClientMessageArrives(f, sc, y, at, peer); }
    case Error =>
  }

  lemma {:induction false} ClientStays(f: Flow, y: Sys, v: Verdict)
    requires !y.client.wait.Ready? && !y.client.wait.ReadChangeCipherSpec?
    ensures CF.Pos(f, ClientMoves(y, v).client) == CF.Pos(f, y.client)
    ensures ClientMoves(y, v) == ClientMoves(y, Proceed)
  {
    assert ClientMoves(y, v).client.state == y.client.state;
  }

  lemma {:induction false} ClientMoveKeeps(f: Flow, sc: seq<Entry>, y: Sys, v: Verdict, at: nat, peer: nat)
    requires Fixed(f, sc, y.server.config)
    requires at <= |sc| && peer <= |sc| && Linked(sc, y, at, peer) && CF.InvAt(f, sc, y.client, at)
    requires at == CF.Pos(f, y.client) && !v.Fail?
    ensures
      var y' := ClientMoves(y, v);
      var next := CF.Pos(f, y'.client);
      next <= |sc| && Linked(sc, y', next, peer) && CF.InvAt(f, sc, y'.client, next)
  {
    if y.client.wait.Ready? {
      var _ := ClientTurnKeeps(f, sc, y, v, at, peer);
    } else if y.client.wait.ReadChangeCipherSpec? {
      ClientAtChangeCipherSpec(f, sc, y, at);
      if y.toClient != [] { ClientChangeCipherSpecArrives(f, sc, y, at, peer); }
    } else {
      ClientStays(f, y, v);
      ClientWaitKeeps(f, sc, y, at, peer);
    }
  }

  /** Where the server waits for a ChangeCipherSpec, the client's is next. */
  lemma {:induction false} ServerAtChangeCipherSpec(f: Flow, sc: seq<Entry>, y: Sys, at: nat)
    requires Fixed(f, sc, y.server.config) && at == SF.Pos(f, y.server)
    requires y.server.wait.ReadChangeCipherSpec? && y.server.state.ProcessChangeCipherSpec?
    ensures 2 <= at < |sc| && sc[at] == Entry(Client, true, ChangeCipherSpec)
    ensures f.certRequest ==> at >= 6
    ensures SF.Pos(f, ServerMoves(y, Proceed).server) == if y.toServer == [] then at else at + 1
  {
  }

  lemma {:induction false} ServerWaitKeeps(f: Flow, sc: seq<Entry>, y: Sys, at: nat, peer: nat)
    requires at <= |sc| && peer <= |sc| && Linked(sc, y, peer, at) && SF.InvAt(f, sc, y.server, at)
    requires !y.server.wait.Ready? && !y.server.wait.ReadChangeCipherSpec?
    ensures Linked(sc, ServerMoves(y, Proceed), peer, at) && SF.InvAt(f, sc, ServerMoves(y, Proceed).server, at)
  {
    match y.server.wait
    case Flush => ServerFlushKeeps(f, sc, y, at, peer);
    case Paused => ServerResumeKeeps(f, sc, y, at, peer);
    case ReadMessage => if y.toServer != [] { ServerMessageArrives(f, sc, y, at, peer); }
    case Error =>
  }

  lemma {:induction false} ServerStays(f: Flow, y: Sys, v: Verdict)
    requires !y.server.wait.Ready? && !y.server.wait.ReadChangeCipherSpec?
    ensures SF.Pos(f, ServerMoves(y, v).server) == SF.Pos(f, y.server)
    ensures ServerMoves(y, v) == ServerMoves(y, Proceed)
  {
    assert ServerMoves(y, v).server.state == y.server.state;
  }

  lemma {:induction false} ServerMoveKeeps(f: Flow, sc: seq<Entry>, y: Sys, v: Verdict, at: nat, peer: nat)
    requires Fixed(f, sc, y.server.config)
    requires at <= |sc| && peer <= |sc| && Linked(sc, y, peer, at) && SF.InvAt(f, sc, y.server, at)
    requires at == SF.Pos(f, y.server) && !v.Fail?
    ensures
      var y' := ServerMoves(y, v);
      var next := SF.Pos(f, y'.server);
      next <= |sc| && Linked(sc, y', peer, next) && SF.InvAt(f, sc, y'.server, next)
  {
    if y.server.wait.Ready? {
      var _ := ServerTurnKeeps(f, sc, y, v, at, peer);
    } else if y.server.wait.ReadChangeCipherSpec? {
      ServerAtChangeCipherSpec(f, sc, y, at);
      if y.toServer != [] { ServerChangeCipherSpecArrives(f, sc, y, at, peer); }
    } else {
      ServerStays(f, y, v);
      ServerWaitKeeps(f, sc, y, at, peer);
    }
  }

  /** What comes to a side that holds no message is the record of its next slot. */
  lemma {:induction false} ComingIsNext(sc: seq<Entry>, side: Role, at: nat, peer: nat, channel: seq<Record>,
        pending: seq<Record>, wait: Wait, outInbox: seq<Msg>, outChannel: seq<Record>, outPending: seq<Record>)
    requires at <= |sc| && peer <= |sc| && Coming(channel, pending, wait) != []
    requires Link(sc, Other(side), peer, at, [], channel, pending)
    requires Link(sc, side, at, peer, outInbox, outChannel, outPending)
    ensures
      var k := NextPresent(sc, at);
      k < |sc| && sc[k].record == Coming(channel, pending, wait)[0]
  {
    var queue := Wrap([]) + channel + pending;
    LinkTake(sc, side, at, peer, queue, outInbox, outChannel, outPending);
    assert queue[0] == Coming(channel, pending, wait)[0];
  }

  lemma {:induction false} ClientPartIs(f: Flow, sc: seq<Entry>, y: Sys, at: nat, peer: nat)
    requires at <= |sc| && peer <= |sc| && Linked(sc, y, at, peer) && CF.InvAt(f, sc, y.client, at)
    ensures ClientPart(y) == y || (ClientPart(y) == y.(client := y.client.(wait := Ready))
                                   && y.client.wait.ReadMessage? && CF.InvAt(f, sc, y.client.(wait := Ready), at))
  {
    if ClientPart(y) != y {
      ComingIsNext(sc, Client, at, peer, y.toClient, y.server.pending, y.server.wait,
                   y.server.inbox, y.toServer, y.client.pending);
      CF.PartKeeps(f, sc, y.client, at);
    }
  }

  lemma {:induction false} ClientPartKeeps(f: Flow, sc: seq<Entry>, y: Sys, at: nat, peer: nat)
    requires at <= |sc| && peer <= |sc| && Linked(sc, y, at, peer) && CF.InvAt(f, sc, y.client, at)
    ensures Linked(sc, ClientPart(y), at, peer) && CF.InvAt(f, sc, ClientPart(y).client, at)
    ensures CF.Pos(f, ClientPart(y).client) == CF.Pos(f, y.client)
  {
    ClientPartIs(f, sc, y, at, peer);
  }

  lemma {:induction false} ServerPartIs(f: Flow, sc: seq<Entry>, y: Sys, at: nat, peer: nat)
    requires at <= |sc| && peer <= |sc| && Linked(sc, y, peer, at) && SF.InvAt(f, sc, y.server, at)
    ensures ServerPart(y) == y || (ServerPart(y) == y.(server := y.server.(wait := Ready))
                                   && y.server.wait.ReadMessage? && SF.InvAt(f, sc, y.server.(wait := Ready), at))
  {
    if ServerPart(y) != y {
      ComingIsNext(sc, Server, at, peer, y.toServer, y.client.pending, y.client.wait,
                   y.client.inbox, y.toClient, y.server.pending);
      SF.PartKeeps(f, sc, y.server, at);
    }
  }

  lemma {:induction false} ServerPartKeeps(f: Flow, sc: seq<Entry>, y: Sys, at: nat, peer: nat)
    requires at <= |sc| && peer <= |sc| && Linked(sc, y, peer, at) && SF.InvAt(f, sc, y.server, at)
    ensures Linked(sc, ServerPart(y), peer, at) && SF.InvAt(f, sc, ServerPart(y).server, at)
    ensures SF.Pos(f, ServerPart(y).server) == SF.Pos(f, y.server)
  {
    ServerPartIs(f, sc, y, at, peer);
  }

  /** A move touches neither the other side nor any configuration. */
  lemma {:induction false} OtherSide(y: Sys, m: Move)
    ensures if m.side.Client? then Apply(y, m).server == y.server
            else Apply(y, m).client == y.client && Apply(y, m).server.config == y.server.config
  {
  }

  lemma {:induction false} MoveKeeps(f: Flow, sc: seq<Entry>, y: Sys, m: Move)
    requires Inv(f, sc, y) && (m.Move? ==> !m.v.Fail?)
    ensures Inv(f, sc, Apply(y, m))
  {
    MoveKeepsAt(f, sc, y, Apply(y, m), m, CF.Pos(f, y.client), SF.Pos(f, y.server));
  }

  lemma {:induction false} MoveKeepsAt(f: Flow, sc: seq<Entry>, y: Sys, r: Sys, m: Move, atC: nat, atS: nat)
    requires Fixed(f, sc, y.server.config) && atC <= |sc| && atS <= |sc| && InvAt(f, sc, y, atC, atS)
    requires atC == CF.Pos(f, y.client) && atS == SF.Pos(f, y.server) && r == Apply(y, m)
    requires m.Move? ==> !m.v.Fail?
    ensures Inv(f, sc, r)
  {
    OtherSide(y, m);
    match m
    case Move(Client, v) => ClientMoveKeeps(f, sc, y, v, atC, atS);
    case Move(Server, v) => ServerMoveKeeps(f, sc, y, v, atS, atC);
    case Part(Client) => ClientPartKeeps(f, sc, y, atC, atS);
    case Part(Server) => ServerPartKeeps(f, sc, y, atS, atC);
  }

  lemma {:induction false} ServerStarts(f: Flow, sc: seq<Entry>, config: S.ServerConfig)
    requires Fixed(f, sc, config) && |sc| > 0
    ensures SF.Pos(f, S.Init(config)) == 0 && SF.InvAt(f, sc, S.Init(config), 0)
  {
  }

  lemma {:induction false} ClientStarts(f: Flow, sc: seq<Entry>, config: C.ClientConfig)
    requires IsScript(f, sc) && |sc| > 0 && config == C.ClientConfig(f.offersSession, f.clientCert)
    ensures CF.Pos(f, C.Init(config)) == 0 && CF.InvAt(f, sc, C.Init(config), 0)
  {
  }

  lemma {:induction false} NothingLinked(sc: seq<Entry>, client: C.ClientConfig, server: S.ServerConfig)
    ensures Linked(sc, Start(client, server), 0, 0)
  {
  }

  lemma {:induction false} StartKeeps(client: C.ClientConfig, server: S.ServerConfig)
    requires P.ValidCipher(server.cipher)
    ensures Inv(P.FlowOf(client, server), Script(P.FlowOf(client, server)), Start(client, server))
  {
    var f := P.FlowOf(client, server);
    ScriptIsScript(f);
    ServerStarts(f, Script(f), server);
    ClientStarts(f, Script(f), client);
    NothingLinked(Script(f), client, server);
  }

  lemma {:induction false} RunKeeps(client: C.ClientConfig, server: S.ServerConfig, moves: seq<Move>)
    requires P.ValidCipher(server.cipher) && NoFailure(moves)
    ensures
      var f := P.FlowOf(client, server);
      Inv(f, Script(f), Run(Start(client, server), moves))
  {
    var f := P.FlowOf(client, server);
    if moves == [] {
      StartKeeps(client, server);
    } else {
      RunKeeps(client, server, moves[..|moves| - 1]);
      MoveKeeps(f, Script(f), Run(Start(client, server), moves[..|moves| - 1]), moves[|moves| - 1]);
    }
  }
}
