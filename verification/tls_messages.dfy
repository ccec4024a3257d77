/** The vocabulary shared by the two pre-TLS-1.3 handshake machines: handshake
    messages, the records that carry them, and the reasons a machine pauses. */
module TlsMessages {
  import opened Options

  datatype Role = Client | Server

  datatype KeyExchange = RSA | ECDHE | PSK

  /** The two properties of a cipher suite the message flow depends on. A suite
      that is not authenticated by a certificate is authenticated by a PSK. */
  datatype Cipher = Cipher(kx: KeyExchange, certAuth: bool) {
    /** ssl_cipher_requires_server_key_exchange. */
    predicate RequiresServerKeyExchange() { kx.ECDHE? }
  }

  /** What a ServerHello settles: whether the offered session is resumed, the
      cipher, and which optional messages follow. */
  datatype Params = Params(resumes: bool, cipher: Cipher, status: bool, ticket: bool, npn: bool, channelId: bool)

  /** Handshake messages, with the part of their content that steers the peer.
      A Finished carries the transcript its MAC was computed over. */
  datatype Msg =
    | ClientHello(offersSession: bool)
    | ServerHello(params: Params)
    | Certificate(nonempty: bool)
    | CertificateStatus
    | ServerKeyExchange
    | CertificateRequest
    | ServerHelloDone
    | ClientKeyExchange
    | CertificateVerify
    | NextProto
    | ChannelId
    | NewSessionTicket(empty: bool)
    | Finished(sender: Role, mac: seq<Msg>)

  /** One transport record. A machine sends each handshake message in records of its
      own; the one that completes it stands for them all. What it receives may
      complete any number of messages, none if the record holds only part of one. */
  datatype Record = Handshake(msg: Msg) | Packed(msgs: seq<Msg>) | ChangeCipherSpec | OtherRecord

  /** The messages that a handshake record completes. */
  function Completed(record: Record): Option<seq<Msg>> {
    match record
    case Handshake(msg) => Some([msg])
    case Packed(msgs) => Some(msgs)
    case _ => None
  }

  /** The outcome of whatever a step asks of code that is not modelled: parsing,
      signatures, certificate checks, application callbacks. */
  datatype Verdict = Proceed | Retry | Fail

  /** What a machine waits for before its next step (ssl_hs_wait_t). */
  datatype Wait = Ready | Flush | ReadMessage | ReadChangeCipherSpec | Paused | Error

  /** What can happen to a machine: a turn of its switch, a record arriving, one
      record of its flight leaving, the flight being out, or a callback being ready. */
  datatype Event = Turn(v: Verdict) | Arrive(record: Record) | Leave | Flushed | Resume

  /** The records that arrive during some events. */
  function Arrived(events: seq<Event>): seq<Record> {
    if events == [] then []
    else
      var e := events[|events| - 1];
      Arrived(events[..|events| - 1]) + (if e.Arrive? then [e.record] else [])
  }

  /** What happened so far goes on, and meanwhile these records arrive. */
  predicate GoesOn(before: seq<Event>, after: seq<Event>, records: seq<Record>) {
    before <= after && Arrived(after[|before|..]) == records
  }

  lemma {:induction false} GoesOnWith(before: seq<Event>, after: seq<Event>, records: seq<Record>, e: Event)
    requires GoesOn(before, after, records)
    ensures GoesOn(before, after + [e], records + (if e.Arrive? then [e.record] else []))
  {
    var more := (after + [e])[|before|..];
    assert more == after[|before|..] + [e];
    assert more[..|more| - 1] == after[|before|..];
  }

  lemma {:induction false} ArrivedBoth(a: seq<Event>, b: seq<Event>)
    ensures Arrived(a + b) == Arrived(a) + Arrived(b)
    decreases |b|
  {
    if b == [] {
      assert a + b == a;
    } else {
      ArrivedBoth(a, b[..|b| - 1]);
      assert (a + b)[..|a + b| - 1] == a + b[..|b| - 1];
    }
  }

  lemma {:induction false} GoesOnAfter(before: seq<Event>, between: seq<Event>, after: seq<Event>,
        records: seq<Record>, more: seq<Record>)
    requires GoesOn(before, between, records) && GoesOn(between, after, more)
    ensures GoesOn(before, after, records + more)
  {
    ArrivedBoth(between[|before|..], after[|between|..]);
    assert after[|before|..] == between[|before|..] + after[|between|..];
  }

  /** One list is the end of another. */
  predicate IsEndOf(end: seq<Record>, all: seq<Record>) {
    |end| <= |all| && end == all[|all| - |end|..]
  }

  lemma {:induction false} IsEndAfter(end: seq<Record>, all: seq<Record>)
    requires IsEndOf(end, all) && end != []
    ensures IsEndOf(end[1..], all)
  {
  }

  lemma {:induction false} ReadMore(all: seq<Record>, read: seq<Record>, left: seq<Record>)
    ensures all + (read + left) == all + read + left
  {
  }

  /** The handshake records of a list of messages, in order. */
  function Wrap(msgs: seq<Msg>): (records: seq<Record>)
    ensures |records| == |msgs|
    ensures forall i :: 0 <= i < |msgs| ==> records[i] == Handshake(msgs[i])
  {
    seq(|msgs|, i requires 0 <= i < |msgs| => Handshake(msgs[i]))
  }

  /** A singleton or nothing, for optional messages. */
  function When<T>(present: bool, x: T): seq<T> { if present then [x] else [] }
}
