/** The composition is never stuck, and every run can be completed. */
module TlsProgress {
  import opened TlsMessages
  import opened TlsScript
  import opened TlsFlow
  import opened TlsComposition
  import C = TlsClient
  import S = TlsServer
  import CF = TlsClientInFlow
  import SF = TlsServerInFlow
  import P = TlsParties

  predicate Complete(y: Sys) {
    y.client.state.Done? && y.client.wait.Ready? && y.server.state.Done? && y.server.wait.Ready?
  }

  predicate CanMove(wait: Wait, done: bool, channel: seq<Record>) {
    match wait
    case Ready => !done
    case Flush | Paused => true
    case ReadMessage | ReadChangeCipherSpec => channel != []
    case Error => false
  }

  predicate ClientCanMove(y: Sys) { CanMove(y.client.wait, y.client.state.Done?, y.toClient) }

  predicate ServerCanMove(y: Sys) { CanMove(y.server.wait, y.server.state.Done?, y.toServer) }

  /** A waiting client with nothing to read cannot face a finished server. */
  lemma {:induction false} NotBothIdle(sc: seq<Entry>, waiting: Role, at: nat, peer: nat)
    requires at <= |sc| && peer <= |sc|
    requires Items(sc, at, peer) == [] && NextPresent(sc, at) < |sc| && sc[NextPresent(sc, at)].sender == Other(waiting)
    ensures peer < |sc|
    ensures Items(sc, peer, at) == [] && NextPresent(sc, peer) < |sc| ==> sc[NextPresent(sc, peer)].sender != waiting
  {
    if at <= peer { EmptySpan(sc, at, peer); } else if Items(sc, peer, at) == [] { EmptySpan(sc, peer, at); }
  }

  predicate Reads(w: Wait) { w.ReadMessage? || w.ReadChangeCipherSpec? }

  lemma {:induction false} ClientReads(f: Flow, sc: seq<Entry>, y: Sys, at: nat, peer: nat)
    requires at <= |sc| && peer <= |sc| && InvAt(f, sc, y, at, peer) && Reads(y.client.wait)
    requires y.toClient == [] && y.server.pending == []
    ensures Items(sc, at, peer) == [] && NextPresent(sc, at) < |sc| && sc[NextPresent(sc, at)].sender.Server?
  {
  }

  lemma {:induction false} ServerReads(f: Flow, sc: seq<Entry>, y: Sys, at: nat, peer: nat)
    requires at <= |sc| && peer <= |sc| && InvAt(f, sc, y, peer, at) && Reads(y.server.wait)
    requires y.toServer == [] && y.client.pending == []
    ensures Items(sc, at, peer) == [] && NextPresent(sc, at) < |sc| && sc[NextPresent(sc, at)].sender.Client?
  {
  }

  /** A machine that cannot move is finished or waits to read; its flight is out. */
  lemma {:induction false} ClientIdle(f: Flow, sc: seq<Entry>, y: Sys, at: nat)
    requires at <= |sc| && CF.InvAt(f, sc, y.client, at) && !ClientCanMove(y)
    requires |sc| == End(f) && at == CF.Pos(f, y.client)
    ensures y.client.pending == []
    ensures (y.client.state.Done? && y.client.wait.Ready? && at == |sc|) || (Reads(y.client.wait) && y.toClient == [])
  {
  }

  lemma {:induction false} ServerIdle(f: Flow, sc: seq<Entry>, y: Sys, at: nat)
    requires at <= |sc| && SF.InvAt(f, sc, y.server, at) && !ServerCanMove(y)
    requires |sc| == End(f) && at == SF.Pos(f, y.server)
    ensures y.server.pending == []
    ensures (y.server.state.Done? && y.server.wait.Ready? && at == |sc|) || (Reads(y.server.wait) && y.toServer == [])
  {
  }

  /** Until both sides are done, one of them can move. */
  lemma {:induction false} NeverStuck(f: Flow, sc: seq<Entry>, y: Sys)
    requires Inv(f, sc, y) && !Complete(y)
    ensures ClientCanMove(y) || ServerCanMove(y)
  {
    var atC, atS := CF.Pos(f, y.client), SF.Pos(f, y.server);
    if !ClientCanMove(y) && !ServerCanMove(y) {
      ClientIdle(f, sc, y, atC);
      ServerIdle(f, sc, y, atS);
      if Reads(y.client.wait) {
        ClientReads(f, sc, y, atC, atS);
        if Reads(y.server.wait) { ServerReads(f, sc, y, atS, atC); }
        NotBothIdle(sc, Client, atC, atS);
      } else {
        ServerReads(f, sc, y, atS, atC);
        NotBothIdle(sc, Server, atS, atC);
      }
    }
  }

  function Weight(w: Wait): nat {
    match w
    case Ready => 2
    case Flush | Paused => 3
    case ReadMessage | ReadChangeCipherSpec => 1
    case Error => 0
  }

  /** Work left: steps, records not yet sent, records not yet read. */
  function Work(y: Sys): nat {
    100 * (C.Rank(y.client) + S.Rank(y.server)) + 10 * (|y.client.pending| + |y.server.pending|)
    + 5 * (|y.toServer| + |y.toClient|) + Weight(y.client.wait) + Weight(y.server.wait)
  }

  lemma {:induction false} ClientProceeds(c: C.ClientHs)
    requires !c.state.Done?
    ensures
      var r := C.Step(c, Proceed);
      || (C.Rank(r) < C.Rank(c) && |r.pending| <= |c.pending| + 4)
      || (C.Rank(r) == C.Rank(c) && r.pending == c.pending && Weight(r.wait) <= 1)
  {
  }

  lemma {:induction false} ServerProceeds(s: S.ServerHs)
    requires !s.state.Done?
    ensures
      var r := S.Step(s, Proceed);
      || (S.Rank(r) < S.Rank(s) && |r.pending| <= |s.pending| + 4)
      || (S.Rank(r) == S.Rank(s) && r.pending == s.pending && Weight(r.wait) <= 1)
  {
  }

  lemma {:induction false} ClientTurnLowersWork(y: Sys, r: C.ClientHs)
    requires y.client.wait.Ready?
    requires || (C.Rank(r) < C.Rank(y.client) && |r.pending| <= |y.client.pending| + 4)
             || (C.Rank(r) == C.Rank(y.client) && r.pending == y.client.pending && Weight(r.wait) <= 1)
    ensures Work(y.(client := r)) < Work(y)
  {
  }

  lemma {:induction false} ServerTurnLowersWork(y: Sys, r: S.ServerHs)
    requires y.server.wait.Ready?
    requires || (S.Rank(r) < S.Rank(y.server) && |r.pending| <= |y.server.pending| + 4)
             || (S.Rank(r) == S.Rank(y.server) && r.pending == y.server.pending && Weight(r.wait) <= 1)
    ensures Work(y.(server := r)) < Work(y)
  {
  }

  /** What a move that is no turn does to the numbers that make up the work. */
  lemma {:induction false} ClientWaitLowersWork(y: Sys, r: Sys)
    requires ClientCanMove(y) && !y.client.wait.Ready? && r == ClientMoves(y, Proceed)
    ensures C.Rank(r.client) == C.Rank(y.client) && r.server == y.server
    ensures
      var w, v := y.client.wait, r.client.wait;
      var sent := |y.client.pending| - |r.client.pending|;
      var read := |y.toClient| - |r.toClient|;
      && |r.toServer| == |y.toServer| + sent
      && if w.Flush? && y.client.pending != [] then v == w && sent == 1 && read == 0
         else sent == 0 && Weight(v) <= 2 && (if Reads(w) then read == 1 else read == 0)
  {
  }

  lemma {:induction false} ClientMoveLowersWork(y: Sys)
    requires ClientCanMove(y)
    ensures Work(ClientMoves(y, Proceed)) < Work(y)
  {
    if y.client.wait.Ready? {
      ClientProceeds(y.client);
      ClientTurnLowersWork(y, C.Step(y.client, Proceed));
    } else {
      ClientWaitLowersWork(y, ClientMoves(y, Proceed));
    }
  }

  lemma {:induction false} ServerWaitLowersWork(y: Sys, r: Sys)
    requires ServerCanMove(y) && !y.server.wait.Ready? && r == ServerMoves(y, Proceed)
    ensures S.Rank(r.server) == S.Rank(y.server) && r.client == y.client
    ensures
      var w, v := y.server.wait, r.server.wait;
      var sent := |y.server.pending| - |r.server.pending|;
      var read := |y.toServer| - |r.toServer|;
      && |r.toClient| == |y.toClient| + sent
      && if w.Flush? && y.server.pending != [] then v == w && sent == 1 && read == 0
         else sent == 0 && Weight(v) <= 2 && (if Reads(w) then read == 1 else read == 0)
  {
  }

  lemma {:induction false} ServerMoveLowersWork(y: Sys)
    requires ServerCanMove(y)
    ensures Work(ServerMoves(y, Proceed)) < Work(y)
  {
    if y.server.wait.Ready? {
      ServerProceeds(y.server);
      ServerTurnLowersWork(y, S.Step(y.server, Proceed));
    } else {
      ServerWaitLowersWork(y, ServerMoves(y, Proceed));
    }
  }

  predicate CanApply(y: Sys, m: Move) {
    match m
    case Move(Client, v) => v.Proceed? && ClientCanMove(y)
    case Move(Server, v) => v.Proceed? && ServerCanMove(y)
    case Part(_) => true
  }

  /** Every move is one its side can make, and no callback asks to wait. */
  predicate Effective(y: Sys, moves: seq<Move>)
    decreases |moves|
  {
    moves != [] ==>
      var before, m := moves[..|moves| - 1], moves[|moves| - 1];
      Effective(y, before) && CanApply(Run(y, before), m)
  }

  /** The records that carried only a part of a message. */
  function Parts(moves: seq<Move>): nat {
    if moves == [] then 0
    else Parts(moves[..|moves| - 1]) + (if moves[|moves| - 1].Part? then 1 else 0)
  }

  lemma {:induction false} ClientPartReacts(c: C.ClientHs, r: C.ClientHs)
    requires Reads(c.wait) && r == C.React(c, Arrive(Packed([])))
    ensures r.state == c.state && r.hello == c.hello && r.pending == c.pending && (r.wait.Ready? || r.wait.Error?)
  {
  }

  lemma {:induction false} ClientPartWork(y: Sys, r: C.ClientHs)
    requires Reads(y.client.wait) && r == C.React(y.client, Arrive(Packed([])))
    ensures Work(y.(client := r)) <= Work(y) + 1
  {
    ClientPartReacts(y.client, r);
    assert C.Rank(r) == C.Rank(y.client);
  }

  lemma {:induction false} ServerPartReacts(c: S.ServerHs, r: S.ServerHs)
    requires Reads(c.wait) && r == S.React(c, Arrive(Packed([])))
    ensures r.state == c.state && r.hello == c.hello && r.pending == c.pending && (r.wait.Ready? || r.wait.Error?)
  {
  }

  lemma {:induction false} ServerPartWork(y: Sys, r: S.ServerHs)
    requires Reads(y.server.wait) && r == S.React(y.server, Arrive(Packed([])))
    ensures Work(y.(server := r)) <= Work(y) + 1
  {
    ServerPartReacts(y.server, r);
    assert S.Rank(r) == S.Rank(y.server);
  }

  lemma {:induction false} PartWork(y: Sys, m: Move)
    requires m.Part?
    ensures Work(Apply(y, m)) <= Work(y) + 1
  {
    if Apply(y, m) != y {
      if m.side.Client? { ClientPartWork(y, Apply(y, m).client); } else { ServerPartWork(y, Apply(y, m).server); }
    }
  }

  /** Once callbacks stop asking to wait, only so many moves are possible beside the
      additional records of long messages. */
  lemma {:induction false} BoundedRun(y: Sys, moves: seq<Move>)
    requires Effective(y, moves)
    ensures |moves| + Work(Run(y, moves)) <= Work(y) + 2 * Parts(moves)
    decreases |moves|
  {
    if moves != [] {
      var before, m := moves[..|moves| - 1], moves[|moves| - 1];
      BoundedRun(y, before);
      match m
      case Move(Client, _) => ClientMoveLowersWork(Run(y, before));
      case Move(Server, _) => ServerMoveLowersWork(Run(y, before));
      case Part(_) => PartWork(Run(y, before), m);
    }
  }

  lemma {:induction false} RunAfter(y: Sys, m: Move, more: seq<Move>)
    ensures Run(y, [m] + more) == Run(Apply(y, m), more)
    decreases |more|
  {
    var all := [m] + more;
    if more == [] {
      assert all[..|all| - 1] == [];
      assert Run(y, all[..|all| - 1]) == y;
    } else {
      RunAfter(y, m, more[..|more| - 1]);
      assert all[..|all| - 1] == [m] + more[..|more| - 1];
    }
  }

  lemma {:induction false} RunBoth(y: Sys, moves: seq<Move>, more: seq<Move>)
    ensures Run(y, moves + more) == Run(Run(y, moves), more)
    decreases |more|
  {
    if more == [] {
      assert moves + more == moves;
    } else {
      RunBoth(y, moves, more[..|more| - 1]);
      assert (moves + more)[..|moves + more| - 1] == moves + more[..|more| - 1];
    }
  }

  /** From a state that keeps the invariant, some moves complete the handshake. */
  lemma {:induction false} Completes(f: Flow, sc: seq<Entry>, y: Sys) returns (more: seq<Move>)
    requires Inv(f, sc, y)
    ensures NoFailure(more) && Complete(Run(y, more))
    decreases Work(y)
  {
    if Complete(y) {
      more := [];
    } else {
      NeverStuck(f, sc, y);
      var m := Move(if ClientCanMove(y) then Client else Server, Proceed);
      if ClientCanMove(y) { ClientMoveLowersWork(y); } else { ServerMoveLowersWork(y); }
      MoveKeeps(f, sc, y, m);
      var rest := Completes(f, sc, Apply(y, m));
      RunAfter(y, m, rest);
      more := [m] + rest;
    }
  }

  /** Every run without failures extends to one in which both sides are done. */
  lemma {:induction false} CanAlwaysComplete(client: C.ClientConfig, server: S.ServerConfig, moves: seq<Move>)
    returns (more: seq<Move>)
    requires P.ValidCipher(server.cipher) && NoFailure(moves)
    ensures NoFailure(moves + more) && Complete(Run(Start(client, server), moves + more))
  {
    var f := P.FlowOf(client, server);
    RunKeeps(client, server, moves);
    more := Completes(f, Script(f), Run(Start(client, server), moves));
    RunBoth(Start(client, server), moves, more);
  }
}
