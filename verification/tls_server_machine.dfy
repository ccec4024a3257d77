/** The server's SSL_HANDSHAKE as an object, in the style of the client's. */
module TlsServerMachine {
  import opened Options
  import opened TlsMessages
  import opened TlsServer
  import P = TlsParties
  import Safety = TlsServerSafety

  datatype Outcome = Complete | Failed | Again

  class ServerHandshake {
    var state: ServerState
    var wait: Wait
    var inbox: seq<Msg>
    var pending: seq<Record>
    var transcript: seq<Msg>
    const config: ServerConfig
    var hello: Params
    var choices: Choices
    ghost var history: seq<Event>

    ghost function View(): ServerHs
      reads this
    {
      ServerHs(state, wait, inbox, pending, transcript, config, hello, choices)
    }

    /** The fields are those of a run of the step functions. */
    ghost predicate Valid()
      reads this
    {
      View() == Run(Init(config), history)
    }

    constructor (config: ServerConfig)
      ensures Valid() && this.config == config && history == []
    {
      this.config := config;
      state, wait, inbox, pending, transcript := StartAccept, Ready, [], [], [];
      hello := Params(false, config.cipher, false, false, false, false);
      choices := Choices(false, false, false);
      history := [];
    }

    method AddMessage(m: Msg)
      modifies `pending, `transcript
      ensures View() == Send(old(View()), [m])
    {
      pending := pending + [Handshake(m)];
      transcript := transcript + [m];
      assert Wrap([m]) == [Handshake(m)];
    }

    method TakeMessage()
      requires inbox != []
      modifies `inbox, `transcript
      ensures View() == Consume(old(View()))
    {
      transcript := transcript + [inbox[0]];
      inbox := inbox[1..];
    }

    method AddOptional(present: bool, m: Msg)
      modifies `pending, `transcript
      ensures View() == Send(old(View()), When(present, m))
    {
      if present { AddMessage(m); }
    }

    method ReadClientHelloStep(v: Verdict) returns (ret: Wait)
      requires state.ReadClientHello?
      modifies this
      ensures history == old(history) && wait == old(wait)
      ensures View().(wait := ret) == DoReadClientHello(old(View()), v)
    {
      if inbox == [] { return ReadMessage; }
      if !inbox[0].ClientHello? { return Error; }
      match v
      case Proceed =>
        state := SelectCertificate;
        return Ready;
      case Retry => return Paused;
      case Fail => return Error;
    }

    method SelectCertificateStep(v: Verdict) returns (ret: Wait)
      requires state.SelectCertificate?
      modifies this
      ensures history == old(history) && wait == old(wait)
      ensures View().(wait := ret) == DoSelectCertificate(old(View()), v)
    {
      if inbox == [] { return ReadMessage; }
      match v
      case Proceed =>
        state := SelectParameters;
        return Ready;
      case Retry => return Paused;
      case Fail => return Error;
    }

    method SelectParametersStep(v: Verdict) returns (ret: Wait)
      requires state.SelectParameters?
      modifies this
      ensures history == old(history) && wait == old(wait)
      ensures View().(wait := ret) == DoSelectParameters(old(View()), v)
    {
      if inbox == [] { return ReadMessage; }
      if !inbox[0].ClientHello? { return Error; }
      match v
      case Proceed =>
        hello := SelectedParams(config, inbox[0].offersSession);
        choices := choices.(certRequest := RequestsCertificate(config, hello));
        TakeMessage();
        state := SendServerHello;
        return Ready;
      case Retry => return Paused;
      case Fail => return Error;
    }

    method SendServerHelloStep(v: Verdict) returns (ret: Wait)
      requires state.SendServerHello?
      modifies this
      ensures history == old(history) && wait == old(wait)
      ensures View().(wait := ret) == DoSendServerHello(old(View()), v)
    {
      if v.Fail? { return Error; }
      hello := HelloParams(config, hello);
      AddMessage(ServerHello(hello));
      state := if hello.resumes then SendServerFinished else SendServerCertificate;
      return Ready;
    }

    method SendServerCertificateStep(v: Verdict) returns (ret: Wait)
      requires state.SendServerCertificate?
      modifies this
      ensures history == old(history) && wait == old(wait)
      ensures View().(wait := ret) == DoSendServerCertificate(old(View()), v)
    {
      if v.Fail? { return Error; }
      AddOptional(config.cipher.certAuth, Certificate(true));
      AddOptional(config.cipher.certAuth && hello.status, CertificateStatus);
      choices := choices.(serverParams := AssemblesParams(config));
      state := SendServerKeyExchange;
      return Ready;
    }

    method SendServerKeyExchangeStep(v: Verdict) returns (ret: Wait)
      requires state.SendServerKeyExchange?
      modifies this
      ensures history == old(history) && wait == old(wait)
      ensures View().(wait := ret) == DoSendServerKeyExchange(old(View()), v)
    {
      if !choices.serverParams {
        state := SendServerHelloDone;
        return Ready;
      }
      if v.Fail? { return Error; }
      if config.cipher.certAuth && v.Retry? { return Paused; }
      AddMessage(ServerKeyExchange);
      choices := choices.(serverParams := false);
      state := SendServerHelloDone;
      return Ready;
    }

    method SendServerHelloDoneStep(v: Verdict) returns (ret: Wait)
      requires state.SendServerHelloDone?
      modifies this
      ensures history == old(history) && wait == old(wait)
      ensures View().(wait := ret) == DoSendServerHelloDone(old(View()), v)
    {
      if v.Fail? { return Error; }
      AddOptional(choices.certRequest, CertificateRequest);
      AddMessage(ServerHelloDone);
      state := ReadClientCertificate;
      return Flush;
    }

    method ReadClientCertificateStep(v: Verdict) returns (ret: Wait)
      requires state.ReadClientCertificate?
      modifies this
      ensures history == old(history) && wait == old(wait)
      ensures View().(wait := ret) == DoReadClientCertificate(old(View()), v)
    {
      if !choices.certRequest {
        state := VerifyClientCertificate;
        return Ready;
      }
      if inbox == [] { return ReadMessage; }
      if !inbox[0].Certificate? || v.Fail? { return Error; }
      choices := choices.(peerKey := inbox[0].nonempty);
      TakeMessage();
      state := VerifyClientCertificate;
      return Ready;
    }

    method VerifyClientCertificateStep(v: Verdict) returns (ret: Wait)
      requires state.VerifyClientCertificate?
      modifies this
      ensures history == old(history) && wait == old(wait)
      ensures View().(wait := ret) == DoVerifyClientCertificate(old(View()), v)
    {
      if !choices.peerKey {
        state := ReadClientKeyExchange;
        return Ready;
      }
      match v
      case Proceed =>
        state := ReadClientKeyExchange;
        return Ready;
      case Retry => return Paused;
      case Fail => return Error;
    }

    method ReadClientKeyExchangeStep(v: Verdict) returns (ret: Wait)
      requires state.ReadClientKeyExchange?
      modifies this
      ensures history == old(history) && wait == old(wait)
      ensures View().(wait := ret) == DoReadClientKeyExchange(old(View()), v)
    {
      if inbox == [] { return ReadMessage; }
      if !inbox[0].ClientKeyExchange? { return Error; }
      match v
      case Proceed =>
        TakeMessage();
        state := ReadClientCertificateVerify;
        return Ready;
      case Retry => return Paused;
      case Fail => return Error;
    }

    method ReadClientCertificateVerifyStep(v: Verdict) returns (ret: Wait)
      requires state.ReadClientCertificateVerify?
      modifies this
      ensures history == old(history) && wait == old(wait)
      ensures View().(wait := ret) == DoReadClientCertificateVerify(old(View()), v)
    {
      if !choices.peerKey {
        state := AwaitChangeCipherSpec;
        return Ready;
      }
      if inbox == [] { return ReadMessage; }
      if !inbox[0].CertificateVerify? || v.Fail? { return Error; }
      TakeMessage();
      state := AwaitChangeCipherSpec;
      return Ready;
    }

    method ProcessChangeCipherSpecStep(v: Verdict) returns (ret: Wait)
      requires state.ProcessChangeCipherSpec?
      modifies this
      ensures history == old(history) && wait == old(wait)
      ensures View().(wait := ret) == DoProcessChangeCipherSpec(old(View()), v)
    {
      if inbox != [] || v.Fail? { return Error; }
      state := ReadNextProto;
      return Ready;
    }

    method ReadNextProtoStep(v: Verdict) returns (ret: Wait)
      requires state.ReadNextProto?
      modifies this
      ensures history == old(history) && wait == old(wait)
      ensures View().(wait := ret) == DoReadNextProto(old(View()), v)
    {
      if !hello.npn {
        state := ReadChannelId;
        return Ready;
      }
      if inbox == [] { return ReadMessage; }
      if !inbox[0].NextProto? || v.Fail? { return Error; }
      TakeMessage();
      state := ReadChannelId;
      return Ready;
    }

    method ReadChannelIdStep(v: Verdict) returns (ret: Wait)
      requires state.ReadChannelId?
      modifies this
      ensures history == old(history) && wait == old(wait)
      ensures View().(wait := ret) == DoReadChannelId(old(View()), v)
    {
      if !hello.channelId {
        state := ReadClientFinished;
        return Ready;
      }
      if inbox == [] { return ReadMessage; }
      if !inbox[0].ChannelId? || v.Fail? { return Error; }
      TakeMessage();
      state := ReadClientFinished;
      return Ready;
    }

    /** ssl_get_finished, then the order resumption fixes. */
    method ReadClientFinishedStep(v: Verdict) returns (ret: Wait)
      requires state.ReadClientFinished?
      modifies this
      ensures history == old(history) && wait == old(wait)
      ensures View().(wait := ret) == DoReadClientFinished(old(View()), v)
    {
      if inbox == [] { return ReadMessage; }
      if !(inbox[0].Finished? && inbox[0].sender.Client? && inbox[0].mac == transcript) || v.Fail? { return Error; }
      TakeMessage();
      state := if hello.resumes then FinishServerHandshake else SendServerFinished;
      return Ready;
    }

    method SendServerFinishedStep(v: Verdict) returns (ret: Wait)
      requires state.SendServerFinished?
      modifies this
      ensures history == old(history) && wait == old(wait)
      ensures View().(wait := ret) == DoSendServerFinished(old(View()), v)
    {
      if v.Fail? { return Error; }
      AddOptional(hello.ticket, NewSessionTicket(false));
      pending := pending + [ChangeCipherSpec];
      AddMessage(Finished(Server, transcript));
      state := if hello.resumes then AwaitChangeCipherSpec else FinishServerHandshake;
      return Flush;
    }

    /** The switch of ssl_server_handshake. */
    method TakeTurn(v: Verdict) returns (ret: Wait)
      requires !state.Done?
      modifies this
      ensures history == old(history) && wait == old(wait)
      ensures View().(wait := ret) == Step(old(View()), v)
    {
      match state
      case StartAccept => state := ReadClientHello; ret := Ready;
      case ReadClientHello => ret := ReadClientHelloStep(v);
      case SelectCertificate => ret := SelectCertificateStep(v);
      case SelectParameters => ret := SelectParametersStep(v);
      case SendServerHello => ret := SendServerHelloStep(v);
      case SendServerCertificate => ret := SendServerCertificateStep(v);
      case SendServerKeyExchange => ret := SendServerKeyExchangeStep(v);
      case SendServerHelloDone => ret := SendServerHelloDoneStep(v);
      case ReadClientCertificate => ret := ReadClientCertificateStep(v);
      case VerifyClientCertificate => ret := VerifyClientCertificateStep(v);
      case ReadClientKeyExchange => ret := ReadClientKeyExchangeStep(v);
      case ReadClientCertificateVerify => ret := ReadClientCertificateVerifyStep(v);
      case AwaitChangeCipherSpec => state := ProcessChangeCipherSpec; ret := ReadChangeCipherSpec;
      case ProcessChangeCipherSpec => ret := ProcessChangeCipherSpecStep(v);
      case ReadNextProto => ret := ReadNextProtoStep(v);
      case ReadChannelId => ret := ReadChannelIdStep(v);
      case ReadClientFinished => ret := ReadClientFinishedStep(v);
      case SendServerFinished => ret := SendServerFinishedStep(v);
      case FinishServerHandshake => state := Done; ret := Ready;
    }

    /** The loop of ssl_server_handshake. What it returns becomes the wait. */
    method ServerHandshakeLoop() returns (ret: Wait)
      requires Valid() && wait.Ready?
      modifies this
      ensures View().(wait := ret) == Run(Init(config), history)
      ensures ret.Ready? ==> state.Done?
      ensures ret.Ready? || Stops(old(View()), View().(wait := ret))
      ensures GoesOn(old(history), history, [])
    {
      ghost var start, before := View(), history;
      while !state.Done?
        invariant Valid() && wait.Ready? && GoesOn(before, history, [])
        invariant View() == start || Rank(View()) < Rank(start)
        decreases Rank(View())
      {
        var v: Verdict := *;
        ghost var view := View();
        ret := TakeTurn(v);
        GoesOnWith(before, history, [], Turn(v));
        history := history + [Turn(v)];
        RunOne(Init(config), history);
        StepStops(view, v);
        if !ret.Ready? { return; }
      }
      return Ready;
    }

    /** The first record of the pending flight leaves. */
    method LeaveFirst(ghost before: seq<Event>)
      requires Valid() && wait.Flush? && pending != [] && GoesOn(before, history, [])
      modifies `pending, `history
      ensures Valid() && pending == old(pending)[1..] && GoesOn(before, history, [])
    {
      GoesOnWith(before, history, [], Leave);
      pending := pending[1..];
      history := history + [Leave];
      RunOne(Init(config), history);
    }

    /** Writes out the front of the pending flight, as far as the transport accepts
        it. The wait is over when nothing is left. */
    method FlushFlight() returns (done: bool)
      requires Valid() && wait.Flush?
      modifies `pending, `wait, `history
      ensures Valid() && Rank(View()) == old(Rank(View())) && IsEndOf(pending, old(pending))
      ensures if done then wait.Ready? && pending == [] else wait.Flush? && pending != []
      ensures GoesOn(old(history), history, [])
    {
      ghost var before, flight := history, pending;
      while pending != []
        invariant Valid() && wait.Flush? && IsEndOf(pending, flight) && GoesOn(before, history, [])
        decreases |pending|
      {
        var accepted: bool := *;
        if !accepted { return false; }
        IsEndAfter(pending, flight);
        LeaveFirst(before);
      }
      EndFlush(before);
      return true;
    }

    /** The flight is out. */
    method EndFlush(ghost before: seq<Event>)
      requires Valid() && wait.Flush? && pending == [] && GoesOn(before, history, [])
      modifies `wait, `history
      ensures Valid() && wait.Ready? && GoesOn(before, history, [])
    {
      GoesOnWith(before, history, [], Flushed);
      wait := Ready;
      history := history + [Flushed];
      RunOne(Init(config), history);
    }

    /** Opens the next record. A wait for a message takes the messages that a
        handshake record completes, a wait for a ChangeCipherSpec takes that, and any
        other record is an error. */
    method OpenRecord(record: Record)
      requires Valid() && (wait.ReadMessage? || wait.ReadChangeCipherSpec?)
      modifies `inbox, `wait, `history
      ensures Valid() && history == old(history) + [Arrive(record)]
      ensures if old(wait).ReadMessage? && Completed(record).Some?
              then wait.Ready? && inbox == old(inbox) + Completed(record).value
              else inbox == old(inbox)
                   && wait == (if old(wait).ReadChangeCipherSpec? && record.ChangeCipherSpec? then Ready else Error)
      ensures Rank(View()) == old(Rank(View()))
    {
      if wait.ReadMessage? && Completed(record).Some? {
        inbox := inbox + Completed(record).value;
        wait := Ready;
      } else if wait.ReadChangeCipherSpec? && record.ChangeCipherSpec? {
        wait := Ready;
      } else {
        wait := Error;
      }
      history := history + [Arrive(record)];
      RunOne(Init(config), history);
    }

    /** A result says how the machine stands: it is done, and everything was checked;
        it has failed; or it has to wait for the transport, the peer or a callback. */
    ghost predicate Honest(outcome: Outcome, left: seq<Record>)
      reads this
    {
      match outcome
      case Complete =>
        state.Done? && wait.Ready? && (P.ValidCipher(config.cipher) ==> Safety.Established(config, history))
      case Failed => wait.Error?
      case Again =>
        || (wait.Flush? && pending != [])
        || ((wait.ReadMessage? || wait.ReadChangeCipherSpec?) && left == [])
        || (wait.Ready? && history != [] && history[|history| - 1].Resume?)
    }

    /** The switch of ssl_run_handshake: resolves what the machine waits for, or says
        that the call is over. */
    method ResolveWait(records: seq<Record>) returns (over: Option<Outcome>, left: seq<Record>, ghost read: seq<Record>)
      requires Valid()
      modifies `pending, `inbox, `wait, `history
      ensures Valid() && records == read + left && GoesOn(old(history), history, read)
      ensures if over.None? then wait.Ready? else !over.value.Complete? && Honest(over.value, left)
      ensures over.None? ==> Rank(View()) == old(Rank(View())) && (read != [] || old(wait).Ready? || old(wait).Flush?)
    {
      left, read := records, [];
      match wait {
        case Error => return Some(Failed), left, read;
        case Flush =>
          var done := FlushFlight();
          return if done then None else Some(Again), left, read;
        case ReadMessage | ReadChangeCipherSpec =>
          if left == [] { return Some(Again), left, read; }
          GoesOnWith(history, history, [], Arrive(left[0]));
          OpenRecord(left[0]);
          return if wait.Error? then Some(Failed) else None, left[1..], [left[0]];
        case Paused =>
          GoesOnWith(history, history, [], Resume);
          wait := Ready;
          history := history + [Resume];
          RunOne(Init(config), history);
          return Some(Again), left, read;
        case Ready => return None, left, read;
      }
    }

    /** One turn of the loop of ssl_run_handshake. */
    method RunOnce(records: seq<Record>) returns (over: Option<Outcome>, left: seq<Record>, ghost read: seq<Record>)
      requires Valid()
      modifies this
      ensures Valid() && records == read + left && GoesOn(old(history), history, read)
      ensures over.Some? ==> Honest(over.value, left)
      ensures over.None? && read == [] ==>
                || Rank(View()) < old(Rank(View()))
                || (Rank(View()) == old(Rank(View())) && StopWeight(wait) < StopWeight(old(wait)))
    {
      over, left, read := ResolveWait(records);
      if over.Some? { return; }
      ghost var before, between := old(history), history;
      wait := ServerHandshakeLoop();
      GoesOnAfter(before, between, history, read, []);
      assert read + [] == read;
      if wait.Error? {
        over := Some(Failed);
      } else if wait.Ready? {
        if P.ValidCipher(config.cipher) { Safety.DoneOnlyIfEstablished(config, history); }
        over := Some(Complete);
      }
    }

    /** ssl_run_handshake: resolve what the machine waits for and run it again, until it
        is done, fails, or has to come back later. `records` are those that arrive
        during the call, `left` those it did not read. Completion means everything the
        safety theorem promises of all that happened, before and during the call. */
    method RunHandshake(records: seq<Record>) returns (outcome: Outcome, left: seq<Record>, ghost read: seq<Record>)
      requires Valid()
      modifies this
      ensures Valid() && Honest(outcome, left)
      ensures records == read + left && GoesOn(old(history), history, read)
    {
      left, read := records, [];
      ghost var before := history;
      while true
        invariant Valid() && records == read + left && GoesOn(before, history, read)
        decreases |left|, Rank(View()), StopWeight(wait)
      {
        ghost var between, all := history, read;
        var over: Option<Outcome>;
        over, left, read := RunOnce(left);
        GoesOnAfter(before, between, history, all, read);
        ReadMore(all, read, left);
        read := all + read;
        if over.Some? { return over.value, left, read; }
      }
    }
  }

  lemma {:induction false} RunOne(c: ServerHs, events: seq<Event>)
    requires events != []
    ensures Run(c, events) == React(Run(c, events[..|events| - 1]), events[|events| - 1])
  {
  }

  /** How a run of steps that stops short has moved. */
  ghost predicate Stops(s: ServerHs, r: ServerHs) {
    || Rank(r) < Rank(s)
    || (Rank(r) == Rank(s) && (r.wait.Paused? || r.wait.Error? || (r.wait.ReadMessage? && s.inbox == [])))
  }

  lemma {:induction false} StepStops(s: ServerHs, v: Verdict)
    requires !s.state.Done?
    ensures Stops(s, Step(s, v))
  {
  }

  function StopWeight(w: Wait): nat {
    match w
    case Ready => 4
    case Flush | ReadChangeCipherSpec => 3
    case ReadMessage => 2
    case Paused | Error => 1
  }
}
