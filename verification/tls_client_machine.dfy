/** The client's SSL_HANDSHAKE as an object: each step of the switch updates its
    fields, and the two loops around the switch run it. */
module TlsClientMachine {
  import opened Options
  import opened TlsMessages
  import opened TlsClient
  import Safety = TlsClientSafety

  /** What the loop reports to its caller: the handshake is complete, has failed,
      or must be called again. */
  datatype Outcome = Complete | Failed | Again

  class ClientHandshake {
    var state: ClientState
    var wait: Wait
    var inbox: seq<Msg>
    var pending: seq<Record>
    var transcript: seq<Msg>
    const config: ClientConfig
    var hello: Params
    var certRequest: bool
    ghost var history: seq<Event>

    ghost function View(): ClientHs
      reads this
    {
      ClientHs(state, wait, inbox, pending, transcript, config, hello, certRequest)
    }

    /** The fields are those of a run of the step functions. */
    ghost predicate Valid()
      reads this
    {
      View() == Run(Init(config), history)
    }

    constructor (config: ClientConfig)
      ensures Valid() && this.config == config && history == []
    {
      this.config := config;
      state, wait, inbox, pending, transcript := StartConnect, Ready, [], [], [];
      hello := Params(false, Cipher(RSA, true), false, false, false, false);
      certRequest := false;
      history := [];
    }

    method AddMessage(m: Msg)
      modifies `pending, `transcript
      ensures View() == Send(old(View()), [m])
    {
      pending := pending + [Handshake(m)];
      transcript := transcript + [m];
      assert Wrap([m]) == [Handshake(m)];
    }

    /** ssl_hash_message, then next_message. */
    method TakeMessage()
      requires inbox != []
      modifies `inbox, `transcript
      ensures View() == Consume(old(View()))
    {
      transcript := transcript + [inbox[0]];
      inbox := inbox[1..];
    }

    method StartConnectStep(v: Verdict) returns (ret: Wait)
      requires state.StartConnect?
      modifies this
      ensures history == old(history) && wait == old(wait)
      ensures View().(wait := ret) == DoStartConnect(old(View()), v)
    {
      if v.Fail? { return Error; }
      hello := hello.(resumes := false);
      AddMessage(ClientHello(config.offersSession));
      state := EnterEarlyData;
      return Flush;
    }

    method ReadServerHelloStep(v: Verdict) returns (ret: Wait)
      requires state.ReadServerHello?
      modifies this
      ensures history == old(history) && wait == old(wait)
      ensures View().(wait := ret) == DoReadServerHello(old(View()), v)
    {
      if inbox == [] { return ReadMessage; }
      if !inbox[0].ServerHello? || v.Fail? { return Error; }
      hello := inbox[0].params.(resumes := config.offersSession && inbox[0].params.resumes);
      TakeMessage();
      state := if hello.resumes then ReadSessionTicket else ReadServerCertificate;
      return Ready;
    }

    method ReadServerCertificateStep(v: Verdict) returns (ret: Wait)
      requires state.ReadServerCertificate?
      modifies this
      ensures history == old(history) && wait == old(wait)
      ensures View().(wait := ret) == DoReadServerCertificate(old(View()), v)
    {
      if !hello.cipher.certAuth {
        state := ReadCertificateStatus;
        return Ready;
      }
      if inbox == [] { return ReadMessage; }
      if !inbox[0].Certificate? || v.Fail? || !inbox[0].nonempty { return Error; }
      TakeMessage();
      state := ReadCertificateStatus;
      return Ready;
    }

    method ReadCertificateStatusStep(v: Verdict) returns (ret: Wait)
      requires state.ReadCertificateStatus?
      modifies this
      ensures history == old(history) && wait == old(wait)
      ensures View().(wait := ret) == DoReadCertificateStatus(old(View()), v)
    {
      if !hello.status {
        state := VerifyServerCertificate;
        return Ready;
      }
      if inbox == [] { return ReadMessage; }
      if !inbox[0].CertificateStatus? {
        // A server may send status_request in ServerHello and then not send it.
        state := VerifyServerCertificate;
        return Ready;
      }
      if v.Fail? { return Error; }
      TakeMessage();
      state := VerifyServerCertificate;
      return Ready;
    }

    method VerifyServerCertificateStep(v: Verdict) returns (ret: Wait)
      requires state.VerifyServerCertificate?
      modifies this
      ensures history == old(history) && wait == old(wait)
      ensures View().(wait := ret) == DoVerifyServerCertificate(old(View()), v)
    {
      if !hello.cipher.certAuth {
        state := ReadServerKeyExchange;
        return Ready;
      }
      match v
      case Proceed =>
        state := ReadServerKeyExchange;
        return Ready;
      case Retry => return Paused;
      case Fail => return Error;
    }

    method ReadServerKeyExchangeStep(v: Verdict) returns (ret: Wait)
      requires state.ReadServerKeyExchange?
      modifies this
      ensures history == old(history) && wait == old(wait)
      ensures View().(wait := ret) == DoReadServerKeyExchange(old(View()), v)
    {
      if inbox == [] { return ReadMessage; }
      if !inbox[0].ServerKeyExchange? {
        // The message is optional for ciphers that do not require it.
        if hello.cipher.RequiresServerKeyExchange() { return Error; }
        state := ReadCertificateRequest;
        return Ready;
      }
      if hello.cipher.kx.RSA? || v.Fail? { return Error; }
      TakeMessage();
      state := ReadCertificateRequest;
      return Ready;
    }

    method ReadCertificateRequestStep(v: Verdict) returns (ret: Wait)
      requires state.ReadCertificateRequest?
      modifies this
      ensures history == old(history) && wait == old(wait)
      ensures View().(wait := ret) == DoReadCertificateRequest(old(View()), v)
    {
      if !hello.cipher.certAuth {
        state := ReadServerHelloDone;
        return Ready;
      }
      if inbox == [] { return ReadMessage; }
      if inbox[0].ServerHelloDone? {
        // No certificate was requested, so there is nothing to consume here.
        state := ReadServerHelloDone;
        return Ready;
      }
      if !inbox[0].CertificateRequest? || v.Fail? { return Error; }
      certRequest := true;
      TakeMessage();
      state := ReadServerHelloDone;
      return Ready;
    }

    method ReadServerHelloDoneStep(v: Verdict) returns (ret: Wait)
      requires state.ReadServerHelloDone?
      modifies this
      ensures history == old(history) && wait == old(wait)
      ensures View().(wait := ret) == DoReadServerHelloDone(old(View()), v)
    {
      if inbox == [] { return ReadMessage; }
      if !inbox[0].ServerHelloDone? || v.Fail? { return Error; }
      TakeMessage();
      state := SendClientCertificate;
      return Ready;
    }

    method SendClientCertificateStep(v: Verdict) returns (ret: Wait)
      requires state.SendClientCertificate?
      modifies this
      ensures history == old(history) && wait == old(wait)
      ensures View().(wait := ret) == DoSendClientCertificate(old(View()), v)
    {
      if !certRequest {
        state := SendClientKeyExchange;
        return Ready;
      }
      match v
      case Proceed =>
        AddMessage(Certificate(config.hasCertificate));
        state := SendClientKeyExchange;
        return Ready;
      case Retry => return Paused;
      case Fail => return Error;
    }

    method SendClientKeyExchangeStep(v: Verdict) returns (ret: Wait)
      requires state.SendClientKeyExchange?
      modifies this
      ensures history == old(history) && wait == old(wait)
      ensures View().(wait := ret) == DoSendClientKeyExchange(old(View()), v)
    {
      if v.Fail? { return Error; }
      AddMessage(ClientKeyExchange);
      state := SendClientCertificateVerify;
      return Ready;
    }

    method SendClientCertificateVerifyStep(v: Verdict) returns (ret: Wait)
      requires state.SendClientCertificateVerify?
      modifies this
      ensures history == old(history) && wait == old(wait)
      ensures View().(wait := ret) == DoSendClientCertificateVerify(old(View()), v)
    {
      if !certRequest || !config.hasCertificate {
        state := SendClientFinished;
        return Ready;
      }
      match v
      case Proceed =>
        AddMessage(CertificateVerify);
        state := SendClientFinished;
        return Ready;
      case Retry => return Paused;
      case Fail => return Error;
    }

    method AddOptional(present: bool, m: Msg)
      modifies `pending, `transcript
      ensures View() == Send(old(View()), When(present, m))
    {
      if present { AddMessage(m); }
    }

    /** ssl_send_finished. */
    method AddFinished()
      modifies `pending, `transcript
      ensures View() == SendFinished(old(View()))
    {
      AddMessage(Finished(Client, transcript));
    }

    method SendClientFinishedStep(v: Verdict) returns (ret: Wait)
      requires state.SendClientFinished?
      modifies this
      ensures history == old(history) && wait == old(wait)
      ensures View().(wait := ret) == DoSendClientFinished(old(View()), v)
    {
      if hello.channelId && v.Retry? { return Paused; }
      if v.Fail? { return Error; }
      pending := pending + [ChangeCipherSpec];
      AddOptional(hello.npn, NextProto);
      AddOptional(hello.channelId, ChannelId);
      AddFinished();
      state := FinishFlight;
      return Flush;
    }

    method FinishFlightStep(v: Verdict) returns (ret: Wait)
      requires state.FinishFlight?
      modifies this
      ensures history == old(history) && wait == old(wait)
      ensures View().(wait := ret) == DoFinishFlight(old(View()), v)
    {
      if hello.resumes {
        state := FinishClientHandshake;
        return Ready;
      }
      if v.Fail? { return Error; }
      state := ReadSessionTicket;
      return if v.Retry? then Paused else Ready;
    }

    method ReadSessionTicketStep(v: Verdict) returns (ret: Wait)
      requires state.ReadSessionTicket?
      modifies this
      ensures history == old(history) && wait == old(wait)
      ensures View().(wait := ret) == DoReadSessionTicket(old(View()), v)
    {
      if !hello.ticket {
        state := ProcessChangeCipherSpec;
        return ReadChangeCipherSpec;
      }
      if inbox == [] { return ReadMessage; }
      if !inbox[0].NewSessionTicket? || v.Fail? { return Error; }
      hello := hello.(ticket := !inbox[0].empty);
      TakeMessage();
      state := ProcessChangeCipherSpec;
      return ReadChangeCipherSpec;
    }

    method ProcessChangeCipherSpecStep(v: Verdict) returns (ret: Wait)
      requires state.ProcessChangeCipherSpec?
      modifies this
      ensures history == old(history) && wait == old(wait)
      ensures View().(wait := ret) == DoProcessChangeCipherSpec(old(View()), v)
    {
      if inbox != [] || v.Fail? { return Error; }
      state := ReadServerFinished;
      return Ready;
    }

    /** ssl_get_finished. */
    method ReadServerFinishedStep(v: Verdict) returns (ret: Wait)
      requires state.ReadServerFinished?
      modifies this
      ensures history == old(history) && wait == old(wait)
      ensures View().(wait := ret) == DoReadServerFinished(old(View()), v)
    {
      if inbox == [] { return ReadMessage; }
      if !(inbox[0].Finished? && inbox[0].sender.Server? && inbox[0].mac == transcript) { return Error; }
      TakeMessage();
      state := if hello.resumes then SendClientFinished else FinishClientHandshake;
      return Ready;
    }

    method FinishClientHandshakeStep(v: Verdict) returns (ret: Wait)
      requires state.FinishClientHandshake?
      modifies this
      ensures history == old(history) && wait == old(wait)
      ensures View().(wait := ret) == DoFinishClientHandshake(old(View()), v)
    {
      if v.Fail? { return Error; }
      state := Done;
      return Ready;
    }

    /** The switch of ssl_client_handshake. */
    method TakeTurn(v: Verdict) returns (ret: Wait)
      requires !state.Done?
      modifies this
      ensures history == old(history) && wait == old(wait)
      ensures View().(wait := ret) == Step(old(View()), v)
    {
      match state
      case StartConnect => ret := StartConnectStep(v);
      case EnterEarlyData => state := ReadServerHello; ret := Ready;
      case ReadServerHello => ret := ReadServerHelloStep(v);
      case ReadServerCertificate => ret := ReadServerCertificateStep(v);
      case ReadCertificateStatus => ret := ReadCertificateStatusStep(v);
      case VerifyServerCertificate => ret := VerifyServerCertificateStep(v);
      case ReadServerKeyExchange => ret := ReadServerKeyExchangeStep(v);
      case ReadCertificateRequest => ret := ReadCertificateRequestStep(v);
      case ReadServerHelloDone => ret := ReadServerHelloDoneStep(v);
      case SendClientCertificate => ret := SendClientCertificateStep(v);
      case SendClientKeyExchange => ret := SendClientKeyExchangeStep(v);
      case SendClientCertificateVerify => ret := SendClientCertificateVerifyStep(v);
      case SendClientFinished => ret := SendClientFinishedStep(v);
      case FinishFlight => ret := FinishFlightStep(v);
      case ReadSessionTicket => ret := ReadSessionTicketStep(v);
      case ProcessChangeCipherSpec => ret := ProcessChangeCipherSpecStep(v);
      case ReadServerFinished => ret := ReadServerFinishedStep(v);
      case FinishClientHandshake => ret := FinishClientHandshakeStep(v);
    }

    /** A result says how the machine stands: it is done, and everything was checked;
        it has failed; or it has to wait for the transport, the peer or a callback. */
    ghost predicate Honest(outcome: Outcome, left: seq<Record>)
      reads this
    {
      match outcome
      case Complete => state.Done? && wait.Ready? && Safety.Established(config, history)
      case Failed => wait.Error?
      case Again =>
        || (wait.Flush? && pending != [])
        || ((wait.ReadMessage? || wait.ReadChangeCipherSpec?) && left == [])
        || (wait.Ready? && history != [] && history[|history| - 1].Resume?)
    }

    /** The loop of ssl_client_handshake. What it returns becomes the wait. */
    method ClientHandshakeLoop() returns (ret: Wait)
      requires Valid() && wait.Ready?
      modifies this
      ensures View().(wait := ret) == Run(Init(config), history)
      ensures ret.Ready? ==> state.Done?
      ensures ret.Ready? || Stops(old(View()), View().(wait := ret))
      ensures GoesOn(old(history), history, [])
    {
      ghost var start, before := View(), history;
      while !state.Done?
        invariant Valid() && wait.Ready? && GoesOn(before, history, [])
        invariant View() == start || Rank(View()) < Rank(start)
        decreases Rank(View())
      {
        var v: Verdict := *;
        ghost var view := View();
        ret := TakeTurn(v);
        GoesOnWith(before, history, [], Turn(v));
        history := history + [Turn(v)];
        RunOne(Init(config), history);
        StepStops(view, v);
        if !ret.Ready? { return; }
      }
      return Ready;
    }

    /** The first record of the pending flight leaves. */
    method LeaveFirst(ghost before: seq<Event>)
      requires Valid() && wait.Flush? && pending != [] && GoesOn(before, history, [])
      modifies `pending, `history
      ensures Valid() && pending == old(pending)[1..] && GoesOn(before, history, [])
    {
      GoesOnWith(before, history, [], Leave);
      pending := pending[1..];
      history := history + [Leave];
      RunOne(Init(config), history);
    }

    /** Writes out the front of the pending flight, as far as the transport accepts
        it. The wait is over when nothing is left. */
    method FlushFlight() returns (done: bool)
      requires Valid() && wait.Flush?
      modifies `pending, `wait, `history
      ensures Valid() && Rank(View()) == old(Rank(View())) && IsEndOf(pending, old(pending))
      ensures if done then wait.Ready? && pending == [] else wait.Flush? && pending != []
      ensures GoesOn(old(history), history, [])
    {
      ghost var before, flight := history, pending;
      while pending != []
        invariant Valid() && wait.Flush? && IsEndOf(pending, flight) && GoesOn(before, history, [])
        decreases |pending|
      {
        var accepted: bool := *;
        if !accepted { return false; }
        IsEndAfter(pending, flight);
        LeaveFirst(before);
      }
      EndFlush(before);
      return true;
    }

    /** The flight is out. */
    method EndFlush(ghost before: seq<Event>)
      requires Valid() && wait.Flush? && pending == [] && GoesOn(before, history, [])
      modifies `wait, `history
      ensures Valid() && wait.Ready? && GoesOn(before, history, [])
    {
      GoesOnWith(before, history, [], Flushed);
      wait := Ready;
      history := history + [Flushed];
      RunOne(Init(config), history);
    }

    /** Opens the next record. A wait for a message takes the messages that a
        handshake record completes, a wait for a ChangeCipherSpec takes that, and any
        other record is an error. */
    method OpenRecord(record: Record)
      requires Valid() && (wait.ReadMessage? || wait.ReadChangeCipherSpec?)
      modifies `inbox, `wait, `history
      ensures Valid() && history == old(history) + [Arrive(record)]
      ensures if old(wait).ReadMessage? && Completed(record).Some?
              then wait.Ready? && inbox == old(inbox) + Completed(record).value
              else inbox == old(inbox)
                   && wait == (if old(wait).ReadChangeCipherSpec? && record.ChangeCipherSpec? then Ready else Error)
      ensures Rank(View()) == old(Rank(View()))
    {
      if wait.ReadMessage? && Completed(record).Some? {
        inbox := inbox + Completed(record).value;
        wait := Ready;
      } else if wait.ReadChangeCipherSpec? && record.ChangeCipherSpec? {
        wait := Ready;
      } else {
        wait := Error;
      }
      history := history + [Arrive(record)];
      RunOne(Init(config), history);
    }

    /** The switch of ssl_run_handshake: resolves what the machine waits for, or says
        that the call is over. */
    method ResolveWait(records: seq<Record>) returns (over: Option<Outcome>, left: seq<Record>, ghost read: seq<Record>)
      requires Valid()
      modifies `pending, `inbox, `wait, `history
      ensures Valid() && records == read + left && GoesOn(old(history), history, read)
      ensures if over.None? then wait.Ready? else !over.value.Complete? && Honest(over.value, left)
      ensures over.None? ==> Rank(View()) == old(Rank(View())) && (read != [] || old(wait).Ready? || old(wait).Flush?)
    {
      left, read := records, [];
      match wait {
        case Error => return Some(Failed), left, read;
        case Flush =>
          var done := FlushFlight();
          return if done then None else Some(Again), left, read;
        case ReadMessage | ReadChangeCipherSpec =>
          if left == [] { return Some(Again), left, read; }
          GoesOnWith(history, history, [], Arrive(left[0]));
          OpenRecord(left[0]);
          return if wait.Error? then Some(Failed) else None, left[1..], [left[0]];
        case Paused =>
          GoesOnWith(history, history, [], Resume);
          wait := Ready;
          history := history + [Resume];
          RunOne(Init(config), history);
          return Some(Again), left, read;
        case Ready => return None, left, read;
      }
    }

    /** One turn of the loop of ssl_run_handshake. */
    method RunOnce(records: seq<Record>) returns (over: Option<Outcome>, left: seq<Record>, ghost read: seq<Record>)
      requires Valid()
      modifies this
      ensures Valid() && records == read + left && GoesOn(old(history), history, read)
      ensures over.Some? ==> Honest(over.value, left)
      ensures over.None? && read == [] ==>
                || Rank(View()) < old(Rank(View()))
                || (Rank(View()) == old(Rank(View())) && StopWeight(wait) < StopWeight(old(wait)))
    {
      over, left, read := ResolveWait(records);
      if over.Some? { return; }
      ghost var before, between := old(history), history;
      wait := ClientHandshakeLoop();
      GoesOnAfter(before, between, history, read, []);
      assert read + [] == read;
      if wait.Error? {
        over := Some(Failed);
      } else if wait.Ready? {
        Safety.DoneOnlyIfEstablished(config, history);
        over := Some(Complete);
      }
    }

    /** ssl_run_handshake: resolve what the machine waits for and run it again, until it
        is done, fails, or has to come back later. `records` are those that arrive
        during the call, `left` those it did not read. Completion means everything the
        safety theorem promises of all that happened, before and during the call. */
    method RunHandshake(records: seq<Record>) returns (outcome: Outcome, left: seq<Record>, ghost read: seq<Record>)
      requires Valid()
      modifies this
      ensures Valid() && Honest(outcome, left)
      ensures records == read + left && GoesOn(old(history), history, read)
    {
      left, read := records, [];
      ghost var before := history;
      while true
        invariant Valid() && records == read + left && GoesOn(before, history, read)
        decreases |left|, Rank(View()), StopWeight(wait)
      {
        ghost var between, all := history, read;
        var over: Option<Outcome>;
        over, left, read := RunOnce(left);
        GoesOnAfter(before, between, history, all, read);
        ReadMore(all, read, left);
        read := all + read;
        if over.Some? { return over.value, left, read; }
      }
    }
  }

  lemma {:induction false} RunOne(c: ClientHs, events: seq<Event>)
    requires events != []
    ensures Run(c, events) == React(Run(c, events[..|events| - 1]), events[|events| - 1])
  {
  }

  /** How a run of steps that stops short has moved. */
  ghost predicate Stops(c: ClientHs, r: ClientHs) {
    || Rank(r) < Rank(c)
    || (Rank(r) == Rank(c) && (r.wait.Paused? || r.wait.Error? || (r.wait.ReadMessage? && c.inbox == [])))
  }

  lemma {:induction false} StepStops(c: ClientHs, v: Verdict)
    requires !c.state.Done?
    ensures Stops(c, Step(c, v))
  {
  }

  function StopWeight(w: Wait): nat {
    match w
    case Ready => 4
    case Flush | ReadChangeCipherSpec => 3
    case ReadMessage => 2
    case Paused | Error => 1
  }
}
