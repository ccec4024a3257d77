/** Everything that puts bytes on a TLS connection: the handshake flight, the write
    buffer, and application writes that are retried until they complete. */
module TlsWrite {
  import opened Options
  import opened Bytes
  import opened TlsBuffer

  datatype ContentType = ApplicationData | Handshake | ChangeCipherSpec | Alert

  /** A sealed record: what it protects, and the bytes that go out. */
  datatype Sealed = Sealed(kind: ContentType, plaintext: seq<byte>, bytes: seq<byte>)

  /** The bytes of some records, in sealing order. */
  function Wire(records: seq<Sealed>): seq<byte> {
    if records == [] then [] else Wire(records[..|records| - 1]) + records[|records| - 1].bytes
  }

  /** The plaintexts of some records of one kind, in sealing order. */
  function Plaintexts(records: seq<Sealed>, kind: ContentType): seq<byte> {
    if records == [] then []
    else
      var last := records[|records| - 1];
      Plaintexts(records[..|records| - 1], kind) + (if last.kind == kind then last.plaintext else [])
  }

  /** Conservation and order: the bytes sealed so far are those the transport
      accepted, then the write buffer, then the rest of the pending flight. */
  ghost predicate InOrder(records: seq<Sealed>, sent: seq<byte>, buffered: seq<byte>, left: seq<byte>) {
    Wire(records) == sent + buffered + left
  }

  /** A record that is sealed goes to the end of the flight... */
  lemma {:induction false} JoinsFlight(records: seq<Sealed>, sent: seq<byte>, buffered: seq<byte>, left: seq<byte>,
        r: Sealed)
    requires InOrder(records, sent, buffered, left)
    ensures InOrder(records + [r], sent, buffered, left + r.bytes)
  {
    assert (records + [r])[..|records|] == records;
    assert sent + buffered + left + r.bytes == sent + buffered + (left + r.bytes);
  }

  /** ... or, if there is no flight, to the end of the write buffer. */
  lemma {:induction false} JoinsBuffer(records: seq<Sealed>, sent: seq<byte>, buffered: seq<byte>, r: Sealed)
    requires InOrder(records, sent, buffered, [])
    ensures InOrder(records + [r], sent, buffered + r.bytes, [])
  {
    assert (records + [r])[..|records|] == records;
    assert sent + buffered + [] + r.bytes == sent + (buffered + r.bytes) + [];
  }

  /** The flight moves behind an empty buffer. */
  lemma {:induction false} Moves(records: seq<Sealed>, sent: seq<byte>, left: seq<byte>)
    requires InOrder(records, sent, [], left)
    ensures InOrder(records, sent, [] + left, [])
  {
    assert sent + [] + left == sent + ([] + left) + [];
  }

  /** Bytes leave the front of the buffer for the transport... */
  lemma {:induction false} Sends(records: seq<Sealed>, sent: seq<byte>, buffered: seq<byte>, left: seq<byte>, n: nat)
    requires InOrder(records, sent, buffered, left) && n <= |buffered|
    ensures InOrder(records, sent + buffered[..n], buffered[n..], left)
  {
    assert buffered == buffered[..n] + buffered[n..];
  }

  /** ... or, while the buffer is empty, the front of the flight. */
  lemma {:induction false} SendsFlight(records: seq<Sealed>, sent: seq<byte>, left: seq<byte>, n: nat)
    requires InOrder(records, sent, [], left) && n <= |left|
    ensures InOrder(records, sent + left[..n], [], left[n..])
  {
    assert left == left[..n] + left[n..];
  }

  /** One more record of this kind was sealed, for this plaintext. */
  predicate Added(before: seq<Sealed>, after: seq<Sealed>, kind: ContentType, plaintext: seq<byte>) {
    && |after| == |before| + 1 && before <= after
    && after[|before|].kind == kind && after[|before|].plaintext == plaintext
  }

  lemma {:induction false} AddedPlaintexts(before: seq<Sealed>, after: seq<Sealed>, kind: ContentType,
        plaintext: seq<byte>, of: ContentType)
    requires Added(before, after, kind, plaintext)
    ensures Plaintexts(after, of) == Plaintexts(before, of) + (if kind == of then plaintext else [])
  {
    assert after[..|before|] == before;
  }

  /** Records were sealed, and these bytes are what they hold of application data. */
  ghost predicate Gains(before: seq<Sealed>, after: seq<Sealed>, bytes: seq<byte>) {
    before <= after && Plaintexts(after, ApplicationData) == Plaintexts(before, ApplicationData) + bytes
  }

  lemma {:induction false} GainsOne(before: seq<Sealed>, after: seq<Sealed>, bytes: seq<byte>)
    requires Added(before, after, ApplicationData, bytes)
    ensures Gains(before, after, bytes)
  {
    AddedPlaintexts(before, after, ApplicationData, bytes, ApplicationData);
  }

  lemma {:induction false} GainsOn(a: seq<Sealed>, b: seq<Sealed>, c: seq<Sealed>, x: seq<byte>, y: seq<byte>)
    requires Gains(a, b, x) && Gains(b, c, y)
    ensures Gains(a, c, x + y)
  {
    var p := Plaintexts(a, ApplicationData);
    assert (p + x) + y == p + (x + y);
  }

  /** Records were sealed for these bytes of handshake, and for nothing else. */
  ghost predicate GainsHandshake(before: seq<Sealed>, after: seq<Sealed>, bytes: seq<byte>) {
    && before <= after
    && forall kind: ContentType ::
         Plaintexts(after, kind) == Plaintexts(before, kind) + (if kind.Handshake? then bytes else [])
  }

  lemma {:induction false} GainsChunk(start: seq<Sealed>, before: seq<Sealed>, after: seq<Sealed>, sofar: seq<byte>,
        chunk: seq<byte>, kind: ContentType)
    requires GainsHandshake(start, before, sofar) && Added(before, after, Handshake, chunk)
    ensures Plaintexts(after, kind) == Plaintexts(start, kind) + (if kind.Handshake? then sofar + chunk else [])
  {
    AddedPlaintexts(before, after, Handshake, chunk, kind);
    assert Plaintexts(start, kind) + sofar + chunk == Plaintexts(start, kind) + (sofar + chunk);
  }

  lemma {:induction false} GainsMore(start: seq<Sealed>, before: seq<Sealed>, after: seq<Sealed>, msg: seq<byte>,
        done: nat, n: nat)
    requires done + n <= |msg| && GainsHandshake(start, before, msg[..done])
    requires Added(before, after, Handshake, msg[done..][..n])
    ensures GainsHandshake(start, after, msg[..done + n])
  {
    assert msg[..done] + msg[done..][..n] == msg[..done + n];
    forall kind: ContentType
      ensures Plaintexts(after, kind) == Plaintexts(start, kind) + (if kind.Handshake? then msg[..done + n] else [])
    {
      GainsChunk(start, before, after, msg[..done], msg[done..][..n], kind);
    }
  }

  /** The records sealed since are no longer than the limit, and their bytes are what
      the record layer answered, one after the other. */
  ghost predicate SealedWith(before: seq<Sealed>, after: seq<Sealed>, limit: nat, overhead: nat,
        seal: nat -> Option<seq<byte>>)
  {
    && before <= after
    && forall j :: |before| <= j < |after| ==>
         && |after[j].plaintext| <= limit && seal(j - |before|).Some?
         && after[j].bytes == Output(after[j].plaintext, overhead, seal(j - |before|).value)
  }

  lemma {:induction false} AllSealed(before: seq<Sealed>, after: seq<Sealed>, limit: nat, overhead: nat,
        seal: nat -> Option<seq<byte>>)
    requires SealedWith(before, after, limit, overhead, seal)
    ensures forall k :: 0 <= k < |after| - |before| ==> seal(k).Some?
  {
    forall k | 0 <= k < |after| - |before| ensures seal(k).Some? {
      assert |after[|before| + k].plaintext| <= limit;
    }
  }

  lemma {:induction false} SealedMore(before: seq<Sealed>, between: seq<Sealed>, r: Sealed, limit: nat, overhead: nat,
        seal: nat -> Option<seq<byte>>)
    requires SealedWith(before, between, limit, overhead, seal) && |r.plaintext| <= limit
    requires seal(|between| - |before|).Some?
    requires r.bytes == Output(r.plaintext, overhead, seal(|between| - |before|).value)
    ensures SealedWith(before, between + [r], limit, overhead, seal)
  {
  }

  /** No record of at most this length asks for one of the seven capacities, whether
      what is left of the flight goes out with it or before it. */
  predicate RoomForAll(left: nat, overhead: nat, len: nat) {
    forall n :: 0 < n <= len ==> Spares(left, n, overhead) && Spares(0, n, overhead)
  }

  lemma {:induction false} RoomStays(left: nat, overhead: nat, len: nat)
    requires RoomForAll(left, overhead, len)
    ensures RoomForAll(0, overhead, len)
  {
    forall n | 0 < n <= len ensures Spares(0, n, overhead) { assert Spares(left, n, overhead); }
  }

  predicate Spares(left: nat, len: nat, overhead: nat) { LeavesSlack(left + len + overhead) }

  const MAX_PLAINTEXT := 16384

  /** Offering bytes to the transport until all of them are taken or it refuses. It
      answers accept(n) when it has taken n bytes in all: how many more it takes, or,
      if not positive, the result of the call. How many it has taken in the end. */
  function PushEnd(left: nat, at: nat, accept: nat -> int): (end: nat)
    ensures at <= end <= at + left
    ensures end < at + left ==> accept(end) <= 0
  {
    if left == 0 || accept(at) <= 0 then at
    else
      var n := Taken(accept(at), left);
      PushEnd(left - n, at + n, accept)
  }

  lemma {:induction false} PushOne(left: nat, at: nat, accept: nat -> int, n: nat)
    requires left > 0 && accept(at) > 0 && n == Taken(accept(at), left)
    ensures PushEnd(left - n, at + n, accept) == PushEnd(left, at, accept)
  {
  }

  lemma {:induction false} PushNone(at: nat, accept: nat -> int)
    ensures PushEnd(0, at, accept) == at && PushResult(0, at, accept) == 1
  {
  }

  /** The result: 1 if all was taken, or else the refusal. */
  function PushResult(left: nat, at: nat, accept: nat -> int): int {
    var end := PushEnd(left, at, accept);
    if end == at + left then 1 else accept(end)
  }

  lemma {:induction false} PushesAll(left: nat, at: nat, accept: nat -> int)
    requires Accepts(accept)
    ensures PushEnd(left, at, accept) == at + left && PushResult(left, at, accept) == 1
  {
  }

  function Taken(answer: int, offered: nat): (n: nat)
    requires answer > 0
    ensures n <= offered && (offered > 0 ==> n > 0)
  {
    if answer > offered then offered else answer
  }

  /** The transport takes something whenever it is asked. */
  ghost predicate Accepts(accept: nat -> int) { forall n :: accept(n) > 0 }

  /** The record layer never refuses. */
  ghost predicate Seals(seal: nat -> Option<seq<byte>>) { forall k :: seal(k).Some? }

  /** tls_seal_record, whose output is opaque: it refuses (None), or yields at most the
      overhead more bytes than it protects. Any longer output stands for none. */
  function Output(input: seq<byte>, overhead: nat, answer: seq<byte>): (bytes: seq<byte>)
    ensures |bytes| <= |input| + overhead
    ensures |answer| <= |input| + overhead ==> bytes == answer
  {
    if |answer| <= |input| + overhead then answer else []
  }

  /** The records that a message of this length takes: full ones, and one more. */
  function Pieces(len: nat, limit: nat): (n: nat)
    requires limit > 0
    ensures n > 0
    decreases len
  {
    if len <= limit then 1 else 1 + Pieces(len - limit, limit)
  }

  /** No fewer would do. */
  lemma {:induction false} PiecesExact(len: nat, limit: nat)
    requires limit > 0
    ensures len <= Pieces(len, limit) * limit
    ensures Pieces(len, limit) > 1 ==> (Pieces(len, limit) - 1) * limit < len
    decreases len
  {
    if len > limit { PiecesExact(len - limit, limit); }
  }

  function Min(a: nat, b: nat): nat { if a < b then a else b }

  /** What a caller may know of an application write: that it goes on from what is
      pending, that nothing but the record layer and the transport hinders it, that
      neither of them refuses, and that there is no flight. */
  datatype Hopes = Hopes(resumes: bool, unhindered: bool, seals: bool, accepts: bool, noFlight: bool)

  class Connection {
    const writeBuffer: Buffer
    var flight: Option<seq<byte>>
    var flightOffset: nat
    var shutdown: bool
    var overhead: nat
    var maxSendFragment: nat
    var partialWrites: bool
    var movingBuffer: bool
    /** The arguments of an application or alert write that is not through. */
    var pending: bool
    var pendTot: nat
    var pendKind: ContentType
    var pendAddress: nat
    var wnum: nat
    var alertDispatch: bool
    var alert: seq<byte>
    /** How many bytes the transport has taken (its num_write). */
    var numWrite: nat
    /** Every record sealed, and every byte the transport accepted. */
    ghost var records: seq<Sealed>
    ghost var transport: seq<byte>
    /** Application bytes sealed for the write that is being retried. */
    ghost var session: seq<byte>

    function FlightLeft(): seq<byte>
      requires flight.Some? ==> flightOffset <= |flight.value|
      reads `flight, `flightOffset
    {
      if flight.None? then [] else flight.value[flightOffset..]
    }

    ghost predicate Fifo()
      reads `flight, `flightOffset, `records, `transport, `numWrite, writeBuffer, writeBuffer.Repr
    {
      && numWrite == |transport|
      && (if flight.None? then flightOffset == 0 else flightOffset <= |flight.value|)
      && (flightOffset > 0 ==> writeBuffer.size == 0)
      && Queued(writeBuffer.Repr, FlightLeft())
    }

    /** The bytes are in order, in a buffer made of these objects. */
    ghost predicate Queued(repr: set<object>, left: seq<byte>)
      reads `records, `transport, writeBuffer, writeBuffer.Repr
    {
      && repr == writeBuffer.Repr && (forall o <- repr :: o != this) && writeBuffer.Valid() && writeBuffer.Slack()
      && InOrder(records, transport, writeBuffer.Contents(), left)
    }

    /** The application bytes sealed but not yet reported as written. */
    ghost predicate Session()
      reads `session, `wnum, `pending, `pendKind, `pendTot
    {
      && (pending ==> pendTot > 0)
      && |session| == wnum + (if pending && pendKind.ApplicationData? then pendTot else 0)
    }

    ghost predicate Valid()
      reads this, writeBuffer, writeBuffer.Repr
    {
      Fifo() && Session()
    }

    /** A new connection has sent nothing and has no flight. */
    constructor (maxSendFragment: nat, overhead: nat)
      ensures Valid() && records == [] && transport == [] && session == []
      ensures flight.None? && !pending && wnum == 0 && !shutdown && !partialWrites && !movingBuffer
      ensures this.maxSendFragment == maxSendFragment && this.overhead == overhead && writeBuffer.Contents() == []
      ensures fresh(writeBuffer) && fresh(writeBuffer.Repr)
    {
      writeBuffer := new Buffer();
      flight, flightOffset, shutdown, this.overhead, this.maxSendFragment := None, 0, false, overhead, maxSendFragment;
      partialWrites, movingBuffer := false, false;
      pending, pendTot, pendKind, pendAddress, wnum := false, 0, ApplicationData, 0, 0;
      alertDispatch, alert, numWrite := false, [], 0;
      records, transport, session := [], [], [];
    }

    /** An empty flight, if there is none. */
    method StartFlight()
      requires Valid() && flightOffset == 0
      modifies `flight
      ensures Valid() && flight == Some(old(FlightLeft()))
    {
      if flight.None? { flight := Some([]); }
      assert flight == Some(FlightLeft());
    }

    /** add_record_to_flight. No flight grows while it is being written out. */
    method AddRecordToFlight(kind: ContentType, input: seq<byte>, answer: Option<seq<byte>>) returns (ok: bool)
      requires Valid() && flightOffset == 0
      modifies `flight, `records
      ensures Valid() && ok == answer.Some? && flight.Some?
      ensures if ok then records == old(records) + [Sealed(kind, input, Output(input, overhead, answer.value))]
              else records == old(records)
    {
      StartFlight();
      if answer.None? { return false; }
      var bytes := Output(input, overhead, answer.value);
      JoinFlight(bytes, Sealed(kind, input, bytes));
      return true;
    }

    /** A sealed record goes to the end of the flight. */
    method JoinFlight(bytes: seq<byte>, ghost r: Sealed)
      requires Fifo() && flight.Some? && flightOffset == 0 && r.bytes == bytes
      modifies `flight, `records
      ensures Fifo() && records == old(records) + [r] && flight.Some?
    {
      ghost var left := FlightLeft();
      JoinsFlight(records, transport, writeBuffer.Contents(), left, r);
      flight := Some(flight.value + bytes);
      records := records + [r];
      assert FlightLeft() == left + bytes;
    }

    /** How far the transport has come when it has taken what it takes of the buffer, and
        the result. */
    ghost function BufferEnd(accept: nat -> int): nat
      reads `numWrite, writeBuffer
    {
      PushEnd(writeBuffer.size, numWrite, accept)
    }

    ghost function BufferResult(accept: nat -> int): int
      reads `numWrite, writeBuffer
    {
      PushResult(writeBuffer.size, numWrite, accept)
    }

    /** tls_write_buffer_flush. */
    method FlushBuffer(accept: nat -> int) returns (ret: int)
      requires Fifo()
      modifies `transport, `numWrite, writeBuffer
      ensures Fifo() && writeBuffer.Repr <= old(writeBuffer.Repr) && old(transport) <= transport
      ensures numWrite == old(BufferEnd(accept)) && ret == old(BufferResult(accept))
      ensures writeBuffer.size + numWrite == old(writeBuffer.size + numWrite)
    {
      ghost var end, all := BufferEnd(accept), writeBuffer.size + numWrite;
      while writeBuffer.size > 0
        invariant Fifo() && writeBuffer.Repr == old(writeBuffer.Repr) && old(transport) <= transport
        invariant writeBuffer.size + numWrite == all && BufferEnd(accept) == end
        decreases writeBuffer.size
      {
        ret := accept(numWrite);
        if ret <= 0 { return; }
        SendBuffered(ret, accept);
      }
      writeBuffer.Clear();
      return 1;
    }

    /** The front of the buffer goes to the transport. */
    method SendBuffered(ret: int, ghost accept: nat -> int)
      requires Fifo() && writeBuffer.size > 0 && ret == accept(numWrite) > 0
      modifies `transport, `numWrite, writeBuffer
      ensures Fifo() && writeBuffer.Repr == old(writeBuffer.Repr) && old(transport) <= transport
      ensures writeBuffer.size < old(writeBuffer.size) && BufferEnd(accept) == old(BufferEnd(accept))
      ensures writeBuffer.size + numWrite == old(writeBuffer.size + numWrite)
    {
      var n := Taken(ret, writeBuffer.size);
      PushOne(writeBuffer.size, numWrite, accept, n);
      TakeBuffered(n);
    }

    method TakeBuffered(n: nat)
      requires Fifo() && n <= writeBuffer.size
      modifies `transport, `numWrite, writeBuffer
      ensures Fifo() && writeBuffer.Repr == old(writeBuffer.Repr) && old(transport) <= transport
      ensures writeBuffer.size == old(writeBuffer.size) - n && numWrite == old(numWrite) + n
    {
      ghost var contents := writeBuffer.Contents();
      Sends(records, transport, contents, FlightLeft(), n);
      transport := transport + contents[..n];
      numWrite := numWrite + n;
      writeBuffer.Consume(n);
    }

    /** The front of what is left of the flight goes to the transport. */
    method SendFlightBytes(ret: int, ghost accept: nat -> int, ghost end: nat)
      requires Fifo() && flight.Some? && flightOffset < |flight.value| && writeBuffer.size == 0
      requires ret == accept(numWrite) > 0 && end == PushEnd(|FlightLeft()|, numWrite, accept)
      modifies `transport, `numWrite, `flightOffset
      ensures Fifo() && old(transport) <= transport && flightOffset > old(flightOffset)
      ensures flightOffset - numWrite == old(flightOffset - numWrite)
      ensures PushEnd(|FlightLeft()|, numWrite, accept) == end
    {
      var n := Taken(ret, |flight.value| - flightOffset);
      PushOne(|FlightLeft()|, numWrite, accept, n);
      TakeFlightBytes(n);
    }

    method TakeFlightBytes(n: nat)
      requires Fifo() && flight.Some? && flightOffset + n <= |flight.value| && writeBuffer.size == 0
      modifies `transport, `numWrite, `flightOffset
      ensures Fifo() && old(transport) <= transport
      ensures flightOffset == old(flightOffset) + n && numWrite == old(numWrite) + n
    {
      ghost var left := FlightLeft();
      assert writeBuffer.Contents() == [];
      SendsFlight(records, transport, left, n);
      transport := transport + left[..n];
      numWrite := numWrite + n;
      flightOffset := flightOffset + n;
      assert FlightLeft() == left[n..];
    }

    /** The loop of ssl3_flush_flight. */
    method PushFlight(accept: nat -> int, ghost left: nat, ghost at: nat) returns (ret: int)
      requires Fifo() && flight.Some? && writeBuffer.size == 0 && left == |FlightLeft()| && at == numWrite
      modifies `transport, `numWrite, `flightOffset
      ensures Fifo() && old(transport) <= transport
      ensures numWrite == PushEnd(left, at, accept) && ret == PushResult(left, at, accept)
      ensures flightOffset - numWrite == old(flightOffset - numWrite)
    {
      ghost var end, ahead := PushEnd(left, at, accept), flightOffset - numWrite;
      while flightOffset < |flight.value|
        invariant Fifo() && old(transport) <= transport && flightOffset - numWrite == ahead
        invariant PushEnd(|FlightLeft()|, numWrite, accept) == end
        decreases |flight.value| - flightOffset
      {
        ret := accept(numWrite);
        if ret <= 0 { return; }
        SendFlightBytes(ret, accept, end);
      }
      return 1;
    }

    /** The flight is out. */
    method DropFlight()
      requires Valid() && flight.Some? && flightOffset == |flight.value|
      modifies `flight, `flightOffset
      ensures Valid() && flight.None?
    {
      assert FlightLeft() == [];
      flight := None;
      flightOffset := 0;
    }

    /** The same of the buffer and then of the flight. */
    ghost function AllEnd(accept: nat -> int): nat
      requires flight.Some? ==> flightOffset <= |flight.value|
      reads `flight, `flightOffset, `numWrite, writeBuffer
    {
      if BufferResult(accept) <= 0 then BufferEnd(accept)
      else PushEnd(|FlightLeft()|, numWrite + writeBuffer.size, accept)
    }

    ghost function AllResult(accept: nat -> int): int
      requires flight.Some? ==> flightOffset <= |flight.value|
      reads `flight, `flightOffset, `numWrite, writeBuffer
    {
      if BufferResult(accept) <= 0 then BufferResult(accept)
      else PushResult(|FlightLeft()|, numWrite + writeBuffer.size, accept)
    }

    /** The buffer first, if there is something in it. */
    method PushBuffer(accept: nat -> int) returns (ret: int)
      requires Fifo()
      modifies `transport, `numWrite, writeBuffer
      ensures Fifo() && old(transport) <= transport && (ret > 0 ==> writeBuffer.size == 0)
      ensures numWrite == old(BufferEnd(accept)) && ret == old(BufferResult(accept))
      ensures writeBuffer.size + numWrite == old(writeBuffer.size + numWrite)
    {
      PushNone(numWrite, accept);
      if writeBuffer.size == 0 { return 1; }
      ret := FlushBuffer(accept);
    }

    /** The middle of ssl3_flush_flight. */
    method PushAll(accept: nat -> int) returns (ret: int)
      requires Fifo() && flight.Some?
      modifies `transport, `numWrite, `flightOffset, writeBuffer
      ensures Fifo() && old(transport) <= transport
      ensures numWrite == old(AllEnd(accept)) && ret == old(AllResult(accept))
      ensures ret > 0 ==> writeBuffer.size == 0 && flightOffset == |flight.value|
    {
      ghost var left, at := |FlightLeft()|, numWrite + writeBuffer.size;
      ret := PushBuffer(accept);
      if ret > 0 { ret := PushFlight(accept, left, at); }
    }

    /** Whether ssl3_flush_flight has something to write, and may. */
    predicate MayFlush()
      reads `flight, `shutdown
    {
      flight.Some? && !shutdown && |flight.value| <= 0x7fff_ffff
    }

    /** ssl3_flush_flight: the write buffer first, then the flight. Without a flight
        it does nothing. */
    method FlushFlight(accept: nat -> int, flushes: bool) returns (ret: int)
      requires Valid()
      modifies `transport, `numWrite, `flight, `flightOffset, writeBuffer
      ensures Valid() && old(transport) <= transport
      ensures !old(MayFlush()) ==> ret == (if old(flight).None? then 1 else -1) && transport == old(transport)
      ensures old(MayFlush()) ==>
                && numWrite == old(AllEnd(accept))
                && ret == (if old(AllResult(accept)) > 0 && !flushes then -1 else old(AllResult(accept)))
      ensures ret > 0 ==> flight.None? && (old(flight).Some? ==> transport == Wire(records))
      ensures old(MayFlush()) && Accepts(accept) && flushes ==> ret == 1
    {
      if flight.None? { return 1; }
      if shutdown { return -1; }
      if |flight.value| > 0x7fff_ffff { return -1; }
      ret := PushAll(accept);
      if ret <= 0 { return; }
      if !flushes { return -1; }
      DropFlight();
      return 1;
    }

    /** ssl3_add_message: as many records as the fragment limit needs, and at least
        one. If one cannot be sealed, those before it stay in the flight: they hold
        the first `done` bytes of the message. */
    method AddMessage(msg: seq<byte>, seal: nat -> Option<seq<byte>>) returns (ok: bool, ghost done: nat)
      requires Valid() && flightOffset == 0 && maxSendFragment > 0
      modifies `flight, `records
      ensures Valid() && done <= |msg| && GainsHandshake(old(records), records, msg[..done])
      ensures ok <==> forall k :: 0 <= k < Pieces(|msg|, maxSendFragment) ==> seal(k).Some?
      ensures ok ==> done == |msg| && |records| == |old(records)| + Pieces(|msg|, maxSendFragment)
      ensures SealedWith(old(records), records, maxSendFragment, overhead, seal)
    {
      var rest, k := msg, 0;
      ghost var first := records;
      done := 0;
      while true
        invariant done <= |msg| && rest == msg[done..] && Adds(first, msg, done, k, seal)
        decreases |rest|
      {
        var n := Min(|rest|, maxSendFragment);
        ok := AddPiece(rest[..n], k, seal, first, msg, done);
        if !ok { return; }
        assert rest[n..] == msg[done + n..];
        done := done + n;
        rest, k := rest[n..], k + 1;
        if |rest| == 0 { return; }
      }
    }

    /** The first k pieces of a message, with its first `done` bytes, are in the flight. */
    ghost predicate Adds(first: seq<Sealed>, msg: seq<byte>, done: nat, k: nat, seal: nat -> Option<seq<byte>>)
      requires done <= |msg| && maxSendFragment > 0
      reads this, writeBuffer, writeBuffer.Repr
    {
      && Valid() && |records| == |first| + k
      && k + Pieces(|msg| - done, maxSendFragment) == Pieces(|msg|, maxSendFragment)
      && GainsHandshake(first, records, msg[..done]) && SealedWith(first, records, maxSendFragment, overhead, seal)
    }

    /** One turn of that loop. */
    method AddPiece(chunk: seq<byte>, k: nat, seal: nat -> Option<seq<byte>>, ghost first: seq<Sealed>,
          ghost msg: seq<byte>, ghost done: nat)
      returns (ok: bool)
      requires flightOffset == 0 && maxSendFragment > 0 && done <= |msg| && Adds(first, msg, done, k, seal)
      requires |chunk| == Min(|msg| - done, maxSendFragment) && chunk == msg[done..][..|chunk|]
      modifies `flight, `records
      ensures Valid() && ok == seal(k).Some? && k < Pieces(|msg|, maxSendFragment)
      ensures ok ==> if done + |chunk| < |msg| then Adds(first, msg, done + |chunk|, k + 1, seal)
                     else |records| == |first| + Pieces(|msg|, maxSendFragment)
                          && forall j :: 0 <= j < Pieces(|msg|, maxSendFragment) ==> seal(j).Some?
      ensures GainsHandshake(first, records, msg[..if ok then done + |chunk| else done])
      ensures SealedWith(first, records, maxSendFragment, overhead, seal)
    {
      ghost var before := records;
      ok := AddChunk(chunk, seal(k), first, msg, done);
      if ok {
        SealedMore(first, before, records[|before|], maxSendFragment, overhead, seal);
        AllSealed(first, records, maxSendFragment, overhead, seal);
      }
    }

    /** One record of a message of which `done` bytes are in the flight. */
    method AddChunk(chunk: seq<byte>, answer: Option<seq<byte>>, ghost first: seq<Sealed>, ghost msg: seq<byte>,
          ghost done: nat)
      returns (ok: bool)
      requires Valid() && flightOffset == 0 && done + |chunk| <= |msg| && chunk == msg[done..][..|chunk|]
      requires GainsHandshake(first, records, msg[..done])
      modifies `flight, `records
      ensures Valid() && ok == answer.Some?
      ensures if ok then records == old(records) + [Sealed(Handshake, chunk, Output(chunk, overhead, answer.value))]
              else records == old(records)
      ensures GainsHandshake(first, records, msg[..if ok then done + |chunk| else done])
    {
      ghost var before := records;
      ok := AddRecordToFlight(Handshake, chunk, answer);
      if ok { GainsMore(first, before, records, msg, done, |chunk|); }
    }

    /** ssl3_add_change_cipher_spec. */
    method AddChangeCipherSpec(answer: Option<seq<byte>>) returns (ok: bool)
      requires Valid() && flightOffset == 0
      modifies `flight, `records
      ensures Valid() && ok == answer.Some?
      ensures if ok then records == old(records) + [Sealed(ChangeCipherSpec, [1], Output([1], overhead, answer.value))]
              else records == old(records)
    {
      ok := AddRecordToFlight(ChangeCipherSpec, [1], answer);
    }

    ghost function Unreported(): nat
      reads `pending, `pendTot, `pendKind
    {
      if pending && pendKind.ApplicationData? then pendTot else 0
    }

    /** A retry of the write that is pending: of its kind, no shorter, and from the same
        buffer, unless buffers may move. */
    predicate Matches(kind: ContentType, address: nat, len: nat)
      reads `pendTot, `pendKind, `pendAddress, `movingBuffer
    {
      pendTot <= len && pendKind == kind && (movingBuffer || pendAddress == address)
    }

    /** ssl3_write_pending: only a retry of the same write may continue it. What it
        reports as written leaves the session. */
    method WritePending(kind: ContentType, address: nat, len: nat, accept: nat -> int) returns (ret: int)
      requires Valid() && pending
      modifies `transport, `numWrite, `pending, `session, writeBuffer
      ensures Valid() && writeBuffer.Repr <= old(writeBuffer.Repr) && old(transport) <= transport
      ensures ret > 0 <==> Matches(kind, address, len) && old(BufferResult(accept)) > 0
      ensures ret > 0 ==> !pending && ret == pendTot && writeBuffer.size == 0
                          && session <= old(session) && |session| + old(Unreported()) == |old(session)|
      ensures ret <= 0 ==> pending && session == old(session)
                           && ret == (if Matches(kind, address, len) then old(BufferResult(accept)) else -1)
    {
      if pendTot > len || (!movingBuffer && pendAddress != address) || pendKind != kind { return -1; }
      ghost var sealed := |session| - Unreported();
      ret := FlushBuffer(accept);
      if ret <= 0 { return; }
      session := session[..sealed];
      pending := false;
      return pendTot;
    }

    /** Moves the rest of the flight into the write buffer. */
    method MoveFlight()
      requires Valid() && writeBuffer.size == 0 && |FlightLeft()| <= writeBuffer.cap
      modifies `flight, `flightOffset, writeBuffer.Repr
      ensures Valid() && flight.None? && writeBuffer.Contents() == old(FlightLeft())
      ensures writeBuffer.Repr == old(writeBuffer.Repr) && writeBuffer.cap == old(writeBuffer.cap)
    {
      if flight.None? { return; }
      assert writeBuffer.Contents() == [];
      Moves(records, transport, FlightLeft());
      writeBuffer.Write(FlightLeft());
      flight := None;
      flightOffset := 0;
    }

    /** The capacity the next record may ask of the write buffer. */
    predicate RoomFor(len: nat)
      requires flight.Some? ==> flightOffset <= |flight.value|
      reads `flight, `flightOffset, `overhead
    {
      Spares(|FlightLeft()|, len, overhead)
    }

    /** A sealed record goes to the end of the write buffer. */
    method BufferRecord(bytes: seq<byte>, ghost r: Sealed)
      requires Fifo() && flight.None? && r.bytes == bytes && |bytes| <= writeBuffer.cap - writeBuffer.size
      modifies `records, writeBuffer.Repr
      ensures Fifo() && writeBuffer.Repr == old(writeBuffer.Repr)
      ensures records == old(records) + [r] && writeBuffer.size == old(writeBuffer.size) + |bytes|
    {
      ghost var buffered := writeBuffer.Contents();
      assert FlightLeft() == [];
      JoinsBuffer(records, transport, buffered, r);
      writeBuffer.Write(bytes);
      records := records + [r];
      assert FlightLeft() == [] && writeBuffer.Contents() == buffered + bytes;
    }

    /** Puts a sealed record into the write buffer and remembers the arguments. */
    method AppendSealed(kind: ContentType, address: nat, input: seq<byte>, bytes: seq<byte>)
      requires Valid() && !pending && flight.None? && input != []
      requires |bytes| <= writeBuffer.cap - writeBuffer.size
      modifies `records, `pending, `pendTot, `pendKind, `pendAddress, `session, writeBuffer.Repr
      ensures Valid() && writeBuffer.Repr == old(writeBuffer.Repr)
      ensures records == old(records) + [Sealed(kind, input, bytes)]
      ensures writeBuffer.size == old(writeBuffer.size) + |bytes|
      ensures pending && pendTot == |input| && pendKind == kind && pendAddress == address
      ensures session == old(session) + (if kind.ApplicationData? then input else [])
    {
      BufferRecord(bytes, Sealed(kind, input, bytes));
      Remember(kind, address, input);
    }

    /** The arguments of a write that is to be retried. */
    method Remember(kind: ContentType, address: nat, input: seq<byte>)
      requires Session() && !pending && input != []
      modifies `pending, `pendTot, `pendKind, `pendAddress, `session
      ensures Session() && pending && pendTot == |input| && pendKind == kind && pendAddress == address
      ensures session == old(session) + (if kind.ApplicationData? then input else [])
    {
      if kind.ApplicationData? { session := session + input; }
      pending, pendTot, pendKind, pendAddress := true, |input|, kind, address;
    }

    /** The buffer can grow for the flight and a record. */
    predicate Grows(len: nat)
      requires flight.Some? ==> flightOffset <= |flight.value|
      reads `flight, `flightOffset, `overhead
    {
      |FlightLeft()| + len + overhead < LIMIT
    }

    /** The result of sending a new record behind the flight. */
    ghost function NewResult(bytes: seq<byte>, accept: nat -> int): int
      requires flight.Some? ==> flightOffset <= |flight.value|
      reads `flight, `flightOffset, `numWrite
    {
      PushResult(|FlightLeft()| + |bytes|, numWrite, accept)
    }

    /** Makes room, and moves the flight in front. If the record layer then refuses, the
        flight stays in the buffer. */
    method MakeRoom(len: nat) returns (ok: bool)
      requires Valid() && writeBuffer.size == 0 && RoomFor(len)
      modifies `flight, `flightOffset, writeBuffer, writeBuffer.Repr
      ensures Valid() && fresh(writeBuffer.Repr - old(writeBuffer.Repr)) && ok == old(Grows(len))
      ensures if ok then flight.None? && writeBuffer.size == |old(FlightLeft())|
                         && len + overhead <= writeBuffer.cap - writeBuffer.size
              else writeBuffer.size == 0 && FlightLeft() == old(FlightLeft())
    {
      var headerLen: nat := *;
      ok := writeBuffer.EnsureCap(headerLen, |FlightLeft()| + len + overhead);
      if ok { MoveFlight(); }
    }

    /** A record of this kind can be sealed now. */
    ghost predicate CanSeal(input: seq<byte>, answer: Option<seq<byte>>)
      requires flight.Some? ==> flightOffset <= |flight.value|
      reads `flight, `flightOffset, `overhead, writeBuffer
    {
      0 < |input| <= MAX_PLAINTEXT && writeBuffer.size == 0 && Grows(|input|) && answer.Some?
    }

    /** The record layer refuses a record after the flight was moved in front of it: the
        flight then stays in the buffer, and no write is pending that would send it. */
    ghost predicate Strands(input: seq<byte>, answer: Option<seq<byte>>)
      requires flight.Some? ==> flightOffset <= |flight.value|
      reads `flight, `flightOffset, `overhead, writeBuffer
    {
      0 < |input| <= MAX_PLAINTEXT && writeBuffer.size == 0 && Grows(|input|) && answer.None?
    }

    /** Exactly when do_ssl3_write succeeds: the write that is pending is retried and
        goes out, or the record is sealed and goes out behind the flight. */
    ghost predicate Writes(kind: ContentType, address: nat, input: seq<byte>, answer: Option<seq<byte>>,
          accept: nat -> int)
      requires flight.Some? ==> flightOffset <= |flight.value|
      reads `pending, `pendTot, `pendKind, `pendAddress, `movingBuffer, `flight, `flightOffset, `overhead, `numWrite,
            writeBuffer
    {
      if pending then Matches(kind, address, |input|) && BufferResult(accept) > 0
      else
        CanSeal(input, answer) && NewResult(Output(input, overhead, answer.value), accept) > 0
    }

    /** What do_ssl3_write leaves if it retries the write that is pending. */
    twostate predicate Retries(ret: int)
      reads this
    {
      && records == old(records)
      && (ret > 0 ==> ret == old(pendTot) && session <= old(session)
                      && |session| + old(Unreported()) == |old(session)|)
      && (ret <= 0 ==> pending && session == old(session) && Unreported() == old(Unreported())
                       && pendTot == old(pendTot) && pendKind == old(pendKind) && pendAddress == old(pendAddress))
    }

    /** What it leaves if it starts a new one. */
    twostate predicate Starts(kind: ContentType, address: nat, input: seq<byte>, r: Sealed, ret: int)
      reads this
    {
      && records == old(records) + [r] && pendTot == |input| && pendKind == kind && pendAddress == address
      && (ret > 0 ==> ret == |input| && session == old(session))
      && (ret <= 0 ==> pending && session == old(session) + (if kind.ApplicationData? then input else []))
    }

    /** do_ssl3_write. */
    method DoWrite(kind: ContentType, address: nat, input: seq<byte>, answer: Option<seq<byte>>, accept: nat -> int)
      returns (ret: int)
      requires Valid() && (input != [] ==> RoomFor(|input|))
      modifies `transport, `numWrite, `flight, `flightOffset, `records, `pending, `pendTot, `pendKind, `pendAddress,
               `session, writeBuffer, writeBuffer.Repr
      ensures Valid() && fresh(writeBuffer.Repr - old(writeBuffer.Repr))
      ensures old(transport) <= transport && (FlightLeft() == [] || FlightLeft() == old(FlightLeft()))
      ensures ret > 0 <==> old(Writes(kind, address, input, answer, accept))
      ensures ret > 0 ==> !pending && writeBuffer.size == 0
      ensures if old(pending) then Retries(ret)
              else if old(CanSeal(input, answer))
              then Starts(kind, address, input, Sealed(kind, input, Output(input, overhead, answer.value)), ret)
              else records == old(records) && session == old(session) && !pending
                   && writeBuffer.size == old(if Strands(input, answer) then |FlightLeft()| else writeBuffer.size)
    {
      if pending {
        ret := WritePending(kind, address, |input|, accept);
      } else {
        ret := WriteNew(kind, address, input, answer, accept);
      }
    }

    /** The part of do_ssl3_write that starts a new write. */
    method WriteNew(kind: ContentType, address: nat, input: seq<byte>, answer: Option<seq<byte>>, accept: nat -> int)
      returns (ret: int)
      requires Valid() && !pending && (input != [] ==> RoomFor(|input|))
      modifies `transport, `numWrite, `flight, `flightOffset, `records, `pending, `pendTot, `pendKind, `pendAddress,
               `session, writeBuffer, writeBuffer.Repr
      ensures Valid() && fresh(writeBuffer.Repr - old(writeBuffer.Repr))
      ensures old(transport) <= transport && (FlightLeft() == [] || FlightLeft() == old(FlightLeft()))
      ensures ret > 0 <==> old(Writes(kind, address, input, answer, accept))
      ensures ret > 0 ==> !pending && writeBuffer.size == 0
      ensures if old(CanSeal(input, answer))
              then Starts(kind, address, input, Sealed(kind, input, Output(input, overhead, answer.value)), ret)
              else records == old(records) && session == old(session) && !pending
                   && writeBuffer.size == old(if Strands(input, answer) then |FlightLeft()| else writeBuffer.size)
    {
      if |input| > MAX_PLAINTEXT || writeBuffer.size > 0 { return -1; }
      if |input| == 0 { return 0; }
      ghost var can := CanSeal(input, answer);
      ghost var size := if can then |FlightLeft()| + |Output(input, overhead, answer.value)| else 0;
      ret := SealAndSend(kind, address, input, answer, accept, can, size);
    }

    /** The part behind the checks. `can` and `size` are what it comes to: whether the
        record can be sealed, and then how much goes out with the flight in front. */
    method SealAndSend(kind: ContentType, address: nat, input: seq<byte>, answer: Option<seq<byte>>,
          accept: nat -> int, ghost can: bool, ghost size: nat)
      returns (ret: int)
      requires Valid() && !pending && input != [] && writeBuffer.size == 0 && RoomFor(|input|)
      requires can == (Grows(|input|) && answer.Some?)
      requires can ==> size == |FlightLeft()| + |Output(input, overhead, answer.value)|
      modifies `transport, `numWrite, `flight, `flightOffset, `records, `pending, `pendTot, `pendKind, `pendAddress,
               `session, writeBuffer, writeBuffer.Repr
      ensures Valid() && fresh(writeBuffer.Repr - old(writeBuffer.Repr))
      ensures old(transport) <= transport && (FlightLeft() == [] || FlightLeft() == old(FlightLeft()))
      ensures ret > 0 <==> can && PushResult(size, old(numWrite), accept) > 0
      ensures ret > 0 ==> !pending && writeBuffer.size == 0
      ensures if can then Starts(kind, address, input, Sealed(kind, input, Output(input, overhead, answer.value)), ret)
              else records == old(records) && session == old(session) && !pending
                   && writeBuffer.size == (if old(Grows(|input|)) then |old(FlightLeft())| else 0)
    {
      var ok := MakeRoom(|input|);
      if !ok || answer.None? { return -1; }
      ret := AppendAndSend(kind, address, input, Output(input, overhead, answer.value), accept, size);
    }

    /** Puts a sealed record behind what is in the buffer, and sends it. */
    method AppendAndSend(kind: ContentType, address: nat, input: seq<byte>, bytes: seq<byte>, accept: nat -> int,
          ghost size: nat)
      returns (ret: int)
      requires Valid() && !pending && flight.None? && input != []
      requires |bytes| <= writeBuffer.cap - writeBuffer.size
      requires size == writeBuffer.size + |bytes|
      modifies `transport, `numWrite, `records, `pending, `pendTot, `pendKind, `pendAddress, `session,
               writeBuffer, writeBuffer.Repr
      ensures Valid() && writeBuffer.Repr <= old(writeBuffer.Repr) && old(transport) <= transport
      ensures ret > 0 <==> PushResult(size, old(numWrite), accept) > 0
      ensures ret > 0 ==> !pending && writeBuffer.size == 0
      ensures Starts(kind, address, input, Sealed(kind, input, bytes), ret)
    {
      ghost var before := session;
      AppendSealed(kind, address, input, bytes);
      assert writeBuffer.size == size;
      ret := WritePending(kind, address, |input|, accept);
      if ret > 0 { assert session == before; }
    }

    /** The write of n bytes from an address on can go on from what is pending, or start. */
    ghost predicate Resumes(address: nat, n: nat)
      reads `pending, `pendTot, `pendKind, `pendAddress, `movingBuffer, `maxSendFragment, writeBuffer
    {
      if pending
      then pendKind.ApplicationData? && pendTot == Min(n, maxSendFragment) && (movingBuffer || pendAddress == address)
      else writeBuffer.size == 0 && n > 0
    }

    /** The same of a whole application write. */
    ghost predicate Resumable(address: nat, input: seq<byte>)
      reads `pending, `pendTot, `pendKind, `pendAddress, `movingBuffer, `maxSendFragment, `wnum, writeBuffer
    {
      wnum <= |input| && Resumes(address + wnum, |input| - wnum)
    }

    /** Nothing but the record layer and the transport can keep the next record of a
        write of n bytes from going out. */
    predicate Unhindered(n: nat)
      requires flight.Some? ==> flightOffset <= |flight.value|
      reads `flight, `flightOffset, `overhead, `maxSendFragment
    {
      Min(n, maxSendFragment) <= MAX_PLAINTEXT && Grows(Min(n, maxSendFragment))
    }

    /** Nothing at all can. */
    ghost predicate Smooth(address: nat, n: nat, answer: Option<seq<byte>>, accept: nat -> int)
      requires flight.Some? ==> flightOffset <= |flight.value|
      reads `pending, `pendTot, `pendKind, `pendAddress, `movingBuffer, `flight, `flightOffset, `overhead,
            `maxSendFragment, writeBuffer
    {
      Resumes(address, n) && Unhindered(n) && answer.Some? && Accepts(accept)
    }

    lemma WritesIfSmooth(address: nat, n: nat, input: seq<byte>, answer: Option<seq<byte>>, accept: nat -> int)
      requires Valid() && maxSendFragment > 0 && Smooth(address, n, answer, accept)
      requires |input| == Min(n, maxSendFragment)
      ensures Writes(ApplicationData, address, input, answer, accept)
    {
      PushesAll(writeBuffer.size, numWrite, accept);
      PushesAll(|FlightLeft()| + |Output(input, overhead, answer.value)|, numWrite, accept);
    }

    /** One record of an application write. `rest` is what the caller still has to
        write; what is reported as written was the front of it, if what the session
        had sealed was. */
    method WriteChunk(address: nat, rest: seq<byte>, n: nat, answer: Option<seq<byte>>, accept: nat -> int)
      returns (ret: int, ghost sealed: seq<byte>, ghost written: seq<byte>)
      requires maxSendFragment > 0 && Valid() && wnum == 0 && n <= |rest| && (n > 0 ==> RoomFor(n))
      modifies `transport, `numWrite, `flight, `flightOffset, `records, `pending, `pendTot, `pendKind, `pendAddress,
               `session, writeBuffer, writeBuffer.Repr
      ensures Valid() && fresh(writeBuffer.Repr - old(writeBuffer.Repr))
      ensures old(transport) <= transport && (FlightLeft() == [] || FlightLeft() == old(FlightLeft()))
      ensures ret > 0 ==> !pending && writeBuffer.size == 0 && ret == (if old(pending) then old(pendTot) else n)
      ensures n == Min(|rest|, maxSendFragment) && old(Smooth(address, |rest|, answer, accept)) ==> ret > 0
      ensures n == Min(|rest|, maxSendFragment) && old(Resumes(address, |rest|)) && ret <= 0 ==>
                (answer.Some? || old(FlightLeft()) == [] ==> Resumes(address, |rest|))
      ensures Gains(old(records), records, sealed)
      ensures old(session) + sealed == written + session
      ensures if ret > 0 then |written| == ret <= n && session == [] else written == []
      ensures old(session) <= rest ==> written + session <= rest
    {
      ghost var records0, session0 := records, session;
      if n == Min(|rest|, maxSendFragment) && Smooth(address, |rest|, answer, accept) {
        WritesIfSmooth(address, |rest|, rest[..n], answer, accept);
      }
      ret := DoWrite(ApplicationData, address, rest[..n], answer, accept);
      sealed := [];
      if |records| > |records0| {
        sealed := rest[..n];
        GainsOne(records0, records, sealed);
      }
      TakesFront(session0, rest, n, sealed);
      assert session == if ret > 0 then [] else session0 + sealed;
      written := if ret > 0 then session0 + sealed else [];
    }

    /** Takes up an application write where the last try left it. */
    method TakeUp() returns (tot: nat, ghost done: seq<byte>)
      requires Valid()
      modifies `wnum, `session
      ensures Valid() && tot == old(wnum) && wnum == 0
      ensures |done| == tot && done + session == old(session)
    {
      tot := wnum;
      wnum := 0;
      done := session[..tot];
      session := session[tot..];
    }

    /** Leaves an application write for the next try. */
    method LeaveOff(tot: nat, ghost done: seq<byte>)
      requires Valid() && wnum == 0 && |done| == tot
      modifies `wnum, `session
      ensures Valid() && wnum == tot && session == done + old(session)
    {
      wnum := tot;
      session := done + session;
    }

    /** What is known of the rest of a write, of n bytes from an address on. */
    ghost predicate Going(resumes: bool, unhindered: bool, address: nat, n: nat)
      requires flight.Some? ==> flightOffset <= |flight.value|
      reads `pending, `pendTot, `pendKind, `pendAddress, `movingBuffer, `flight, `flightOffset, `overhead,
            `maxSendFragment, writeBuffer
    {
      (resumes ==> Resumes(address, n)) && (unhindered ==> Unhindered(n))
    }

    /** ssl3_write_app_data, outside early data. A caller that gets no positive
        result retries with the same data; one that comes back with less than was
        already written is refused, and what was written so far is forgotten.
        `sealed` are the application bytes this call sealed. The k-th record that it
        seals is answered by seal(k). */
    method WriteAppData(address: nat, input: seq<byte>, seal: nat -> Option<seq<byte>>, accept: nat -> int)
      returns (ret: int, ghost sealed: seq<byte>)
      requires Valid() && maxSendFragment > 0 && RoomForAll(|FlightLeft()|, overhead, maxSendFragment)
      modifies `transport, `numWrite, `flight, `flightOffset, `records, `pending, `pendTot, `pendKind, `pendAddress,
               `session, `wnum, writeBuffer, writeBuffer.Repr
      ensures Valid() && fresh(writeBuffer.Repr - old(writeBuffer.Repr))
      ensures old(transport) <= transport && (FlightLeft() == [] || FlightLeft() == old(FlightLeft()))
      ensures Gains(old(records), records, sealed)
      ensures if !shutdown && |input| < old(wnum)
              then ret == -1 && sealed == [] && |session| + old(wnum) == |old(session)|
              else Conserves(old(session), sealed, session, input, ret)
                   && (ret > 0 && !partialWrites ==> ret == |input|)
      ensures ret > 0 ==> Wire(records) == transport + FlightLeft()
      ensures !shutdown && old(Resumable(address, input)) ==>
                && (old(Unhindered(|input| - wnum)) && Seals(seal) && Accepts(accept) ==> ret > 0)
                && (ret > 0 && partialWrites ==> ret == old(wnum + Min(|input| - wnum, maxSendFragment)))
      ensures ret <= 0 && old(Resumable(address, input)) && (Seals(seal) || old(FlightLeft()) == []) ==>
                Resumable(address, input)
    {
      if shutdown { return -1, []; }
      var tot: nat;
      ghost var done;
      ghost var resumes := Resumable(address, input);
      tot, done := TakeUp();
      if |input| < tot { return -1, []; }
      ghost var unhindered := Unhindered(|input| - tot);
      ret, sealed := WriteRest(address, input, tot, done, seal, accept,
                               Hopes(resumes, unhindered, Seals(seal), Accepts(accept), FlightLeft() == []),
                               tot + Min(|input| - tot, maxSendFragment));
      if ret > 0 { BufferIsOut(); }
    }

    /** With an empty buffer, what was sealed is on its way but for the flight. */
    lemma BufferIsOut()
      requires Valid() && writeBuffer.size == 0
      ensures Wire(records) == transport + FlightLeft()
    {
      assert transport + [] == transport;
    }

    /** How a call of ssl3_write_app_data ends. `one` is what one record would report. */
    ghost predicate Ended(h: Hopes, address: nat, input: seq<byte>, ret: int, one: nat)
      reads `pending, `pendTot, `pendKind, `pendAddress, `movingBuffer, `maxSendFragment, `partialWrites, `wnum,
            writeBuffer
    {
      && (h.resumes && h.unhindered && h.seals && h.accepts ==> ret > 0)
      && (ret > 0 ==> writeBuffer.size == 0 && (!partialWrites ==> ret == |input|))
      && (h.resumes && ret > 0 && partialWrites ==> ret == one)
      && (h.resumes && ret <= 0 && (h.seals || h.noFlight) ==> Resumable(address, input))
    }

    /** The loop of ssl3_write_app_data, from the bytes already done. */
    method WriteRest(address: nat, input: seq<byte>, from: nat, ghost before: seq<byte>,
          seal: nat -> Option<seq<byte>>, accept: nat -> int, ghost h: Hopes, ghost one: nat)
      returns (ret: int, ghost sealed: seq<byte>)
      requires Valid() && maxSendFragment > 0 && RoomForAll(|FlightLeft()|, overhead, maxSendFragment)
      requires wnum == 0 && |before| == from <= |input| && one == from + Min(|input| - from, maxSendFragment)
      requires Going(h.resumes, h.unhindered, address + from, |input| - from)
      requires (h.seals ==> Seals(seal)) && (h.accepts ==> Accepts(accept)) && (h.noFlight ==> FlightLeft() == [])
      modifies `transport, `numWrite, `flight, `flightOffset, `records, `pending, `pendTot, `pendKind, `pendAddress,
               `session, `wnum, writeBuffer, writeBuffer.Repr
      ensures Valid() && fresh(writeBuffer.Repr - old(writeBuffer.Repr))
      ensures old(transport) <= transport && (FlightLeft() == [] || FlightLeft() == old(FlightLeft()))
      ensures Gains(old(records), records, sealed)
      ensures Conserves(before + old(session), sealed, session, input, ret)
      ensures Ended(h, address, input, ret, one)
    {
      var tot, k := from, 0;
      sealed := [];
      ghost var start, done, first := before + session, before, records;
      while true
        invariant Valid() && wnum == 0 && tot <= |input| && (partialWrites ==> tot == from)
        invariant Along(start, sealed, done, session, input, tot)
        invariant Gains(first, records, sealed) && old(transport) <= transport
        invariant FlightLeft() == [] || FlightLeft() == old(FlightLeft())
        invariant RoomForAll(|FlightLeft()|, overhead, maxSendFragment)
        invariant fresh(writeBuffer.Repr - old(writeBuffer.Repr))
        invariant Going(h.resumes, h.unhindered, address + tot, |input| - tot)
        decreases |input| - tot
      {
        var over;
        ret, over, sealed, done := WriteStep(address, input, tot, seal(k), accept, first, start, sealed, done, h, one);
        if over { return; }
        tot, k := tot + ret, k + 1;
      }
    }

    /** The body of that loop, and whether it is the last time. */
    method WriteStep(address: nat, input: seq<byte>, tot: nat, answer: Option<seq<byte>>, accept: nat -> int,
          ghost first: seq<Sealed>, ghost start: seq<byte>, ghost sealed: seq<byte>, ghost done: seq<byte>,
          ghost h: Hopes, ghost one: nat)
      returns (ret: int, over: bool, ghost sealed': seq<byte>, ghost done': seq<byte>)
      requires maxSendFragment > 0 && Valid() && wnum == 0 && tot <= |input|
      requires partialWrites ==> one == tot + Min(|input| - tot, maxSendFragment)
      requires RoomForAll(|FlightLeft()|, overhead, maxSendFragment)
      requires Going(h.resumes, h.unhindered, address + tot, |input| - tot)
      requires (h.seals ==> answer.Some?) && (h.accepts ==> Accepts(accept)) && (h.noFlight ==> FlightLeft() == [])
      requires Along(start, sealed, done, session, input, tot) && Gains(first, records, sealed)
      modifies `transport, `numWrite, `flight, `flightOffset, `records, `pending, `pendTot, `pendKind, `pendAddress,
               `session, `wnum, writeBuffer, writeBuffer.Repr
      ensures Valid() && fresh(writeBuffer.Repr - old(writeBuffer.Repr)) && Gains(first, records, sealed')
      ensures old(transport) <= transport && (FlightLeft() == [] || FlightLeft() == old(FlightLeft()))
      ensures over ==> Conserves(start, sealed', session, input, ret) && Ended(h, address, input, ret, one)
      ensures !over ==>
                && 0 < ret && tot + ret < |input| && !partialWrites && wnum == 0
                && Along(start, sealed', done', session, input, tot + ret)
                && RoomForAll(|FlightLeft()|, overhead, maxSendFragment)
                && Going(h.resumes, h.unhindered, address + tot + ret, |input| - tot - ret)
    {
      var n := Min(|input| - tot, maxSendFragment);
      ret, sealed', done' := WriteTurn(address, input, tot, n, answer, accept, first, start, sealed, done,
                                       h.resumes, h.unhindered);
      over := ret <= 0 || tot + ret == |input| || partialWrites;
      if ret > 0 && over { ret := tot + ret; }
    }

    /** The middle of a turn of the loop, with the account of what was sealed since
        `first`. */
    method WriteOne(address: nat, input: seq<byte>, tot: nat, n: nat, answer: Option<seq<byte>>, accept: nat -> int,
          ghost first: seq<Sealed>, ghost start: seq<byte>, ghost sealed: seq<byte>, ghost done: seq<byte>,
          ghost resumes: bool, ghost unhindered: bool)
      returns (ret: int, ghost sealed': seq<byte>, ghost done': seq<byte>)
      requires maxSendFragment > 0 && Valid() && wnum == 0 && tot <= |input| && n == Min(|input| - tot, maxSendFragment)
      requires RoomForAll(|FlightLeft()|, overhead, maxSendFragment)
      requires Going(resumes, unhindered, address + tot, |input| - tot)
      requires Along(start, sealed, done, session, input, tot) && Gains(first, records, sealed)
      modifies `transport, `numWrite, `flight, `flightOffset, `records, `pending, `pendTot, `pendKind, `pendAddress,
               `session, writeBuffer, writeBuffer.Repr
      ensures Valid() && fresh(writeBuffer.Repr - old(writeBuffer.Repr)) && ret <= n
      ensures old(transport) <= transport && (FlightLeft() == [] || FlightLeft() == old(FlightLeft()))
      ensures ret > 0 ==> !pending && writeBuffer.size == 0 && Along(start, sealed', done', session, input, tot + ret)
      ensures resumes && unhindered && answer.Some? && Accepts(accept) ==> ret > 0
      ensures resumes && ret > 0 ==> ret == n
      ensures resumes && ret <= 0 && (answer.Some? || old(FlightLeft()) == []) ==>
                Resumes(address + tot, |input| - tot)
      ensures Gains(first, records, sealed') && (ret <= 0 ==> |done'| == tot)
      ensures Conserves(start, sealed', if ret > 0 then session else done' + session, input,
                        if ret > 0 then tot + ret else ret)
    {
      ghost var more, written;
      ghost var session0, records0 := session, records;
      assert n > 0 ==> Spares(|FlightLeft()|, n, overhead);
      ret, more, written := WriteChunk(address + tot, input[tot..], n, answer, accept);
      sealed', done' := sealed + more, done + written;
      GainsOn(first, records0, records, sealed, more);
      TurnReports(start, sealed, done, session0, input, tot, more, written, session, ret);
    }

    /** One turn of the loop. A turn that writes nothing leaves the write for the next
        try. */
    method WriteTurn(address: nat, input: seq<byte>, tot: nat, n: nat, answer: Option<seq<byte>>, accept: nat -> int,
          ghost first: seq<Sealed>, ghost start: seq<byte>, ghost sealed: seq<byte>, ghost done: seq<byte>,
          ghost resumes: bool, ghost unhindered: bool)
      returns (ret: int, ghost sealed': seq<byte>, ghost done': seq<byte>)
      requires maxSendFragment > 0 && Valid() && wnum == 0 && tot <= |input| && n == Min(|input| - tot, maxSendFragment)
      requires RoomForAll(|FlightLeft()|, overhead, maxSendFragment)
      requires Going(resumes, unhindered, address + tot, |input| - tot)
      requires Along(start, sealed, done, session, input, tot) && Gains(first, records, sealed)
      modifies `transport, `numWrite, `flight, `flightOffset, `records, `pending, `pendTot, `pendKind, `pendAddress,
               `session, `wnum, writeBuffer, writeBuffer.Repr
      ensures Valid() && fresh(writeBuffer.Repr - old(writeBuffer.Repr)) && ret <= n
      ensures old(transport) <= transport && (FlightLeft() == [] || FlightLeft() == old(FlightLeft()))
      ensures ret > 0 ==> wnum == 0 && !pending && writeBuffer.size == 0
                          && Along(start, sealed', done', session, input, tot + ret)
      ensures RoomForAll(|FlightLeft()|, overhead, maxSendFragment)
      ensures ret > 0 ==> Going(resumes && tot + ret < |input|, unhindered, address + tot + ret, |input| - tot - ret)
      ensures resumes && unhindered && answer.Some? && Accepts(accept) ==> ret > 0
      ensures resumes && ret > 0 ==> ret == n
      ensures resumes && ret <= 0 && (answer.Some? || old(FlightLeft()) == []) ==> Resumable(address, input)
      ensures Gains(first, records, sealed')
      ensures Conserves(start, sealed', session, input, if ret > 0 then tot + ret else ret)
    {
      ret, sealed', done' := WriteOne(address, input, tot, n, answer, accept, first, start, sealed, done,
                                      resumes, unhindered);
      RoomStays(old(|FlightLeft()|), overhead, maxSendFragment);
      if ret <= 0 { LeaveOff(tot, done'); }
    }

    /** The record that do_ssl3_write seals, if it starts a new write. */
    ghost function NewRecords(kind: ContentType, input: seq<byte>, answer: Option<seq<byte>>): seq<Sealed>
      requires flight.Some? ==> flightOffset <= |flight.value|
      reads `pending, `flight, `flightOffset, `overhead, writeBuffer
    {
      if pending || !CanSeal(input, answer) then []
      else [Sealed(kind, input, Output(input, overhead, answer.value))]
    }

    /** ssl3_dispatch_alert. `writes` and `added` are what do_ssl3_write comes to. */
    method DispatchAlert(answer: Option<seq<byte>>, accept: nat -> int, ghost writes: bool, ghost added: seq<Sealed>)
      returns (ret: int)
      requires Valid() && |alert| == 2 && RoomFor(2)
      requires writes == Writes(Alert, 0, alert, answer, accept) && added == NewRecords(Alert, alert, answer)
      modifies `transport, `numWrite, `flight, `flightOffset, `records, `pending, `pendTot, `pendKind, `pendAddress,
               `session, `alertDispatch, writeBuffer, writeBuffer.Repr
      ensures Valid() && old(transport) <= transport
      ensures if ret > 0 then ret == 1 && !alertDispatch else alertDispatch == old(alertDispatch)
      ensures (ret > 0 <==> writes) && records == old(records) + added
    {
      ret := DoWrite(Alert, 0, alert, answer, accept);
      if ret <= 0 { return; }
      alertDispatch := false;
      return 1;
    }

    /** ssl_send_alert: after it nothing but the alert is written any more, and the
        alert itself waits while the write buffer is in use. */
    method SendAlert(level: byte, desc: byte, answer: Option<seq<byte>>, accept: nat -> int) returns (ret: int)
      requires Valid() && RoomFor(2)
      modifies `transport, `numWrite, `flight, `flightOffset, `records, `pending, `pendTot, `pendKind, `pendAddress,
               `session, `alertDispatch, `alert, `shutdown, writeBuffer, writeBuffer.Repr
      ensures Valid() && shutdown && old(transport) <= transport
      ensures old(shutdown) || old(writeBuffer.size) > 0 ==> ret == -1 && records == old(records)
      ensures !old(shutdown) && old(writeBuffer.size) == 0 ==>
                && (ret > 0 <==> old(Writes(Alert, 0, [level, desc], answer, accept)))
                && records == old(records) + old(NewRecords(Alert, [level, desc], answer))
      ensures !old(shutdown) && ret <= 0 ==> alertDispatch && alert == [level, desc]
    {
      if shutdown { return -1; }
      ghost var bytes := [level, desc];
      ghost var writes, added := Writes(Alert, 0, bytes, answer, accept), NewRecords(Alert, bytes, answer);
      shutdown := true;
      alertDispatch := true;
      alert := [level, desc];
      if writeBuffer.size > 0 { return -1; }
      ret := DispatchAlert(answer, accept, writes, added);
    }
  }

  /** What the caller of WriteAppData learns. `before` and `after` are the bytes
      sealed but not reported, before and after the call: with those this call
      sealed they are reported as written, or remain for the next try. */
  ghost predicate Conserves(before: seq<byte>, sealed: seq<byte>, after: seq<byte>, input: seq<byte>, ret: int) {
    if ret > 0
    then after == [] && |before + sealed| == ret <= |input| && (before <= input ==> before + sealed == input[..ret])
    else after == before + sealed && (before <= input ==> after <= input)
  }

  lemma {:induction false} TakesFront(session: seq<byte>, rest: seq<byte>, n: nat, sealed: seq<byte>)
    requires n <= |rest| && (sealed == [] || (session == [] && sealed == rest[..n]))
    ensures session <= rest ==> session + sealed <= rest
    ensures session + sealed + [] == session + sealed == [] + (session + sealed)
  {
  }

  /** The loop's account: what was sealed is what is done and what is in the session. */
  ghost predicate Along(start: seq<byte>, sealed: seq<byte>, done: seq<byte>, session: seq<byte>, input: seq<byte>,
        tot: nat) {
    && start + sealed == done + session
    && |done| == tot <= |input|
    && (start <= input ==> done + session <= input)
  }

  lemma {:induction false} Reports(start: seq<byte>, sealed: seq<byte>, done: seq<byte>, left: seq<byte>,
        input: seq<byte>, tot: nat, ret: int)
    requires Along(start, sealed, done, left, input, tot)
    requires ret <= 0 || (left == [] && ret == tot)
    ensures Conserves(start, sealed, if ret > 0 then left else done + left, input, ret)
  {
    if ret > 0 {
      assert done + left == done;
      assert start <= input ==> start + sealed == input[..ret];
    }
  }

  lemma {:induction false} GoesAlong(start: seq<byte>, sealed: seq<byte>, done: seq<byte>, session: seq<byte>,
        input: seq<byte>, tot: nat, more: seq<byte>, written: seq<byte>, left: seq<byte>)
    requires Along(start, sealed, done, session, input, tot)
    requires session + more == written + left && |written| + tot <= |input|
    requires session <= input[tot..] ==> written + left <= input[tot..]
    ensures Along(start, sealed + more, done + written, left, input, tot + |written|)
  {
    calc {
      start + (sealed + more);
      (start + sealed) + more;
      done + (session + more);
      (done + written) + left;
    }
    if start <= input {
      assert input == done + input[tot..];
      assert (done + session)[tot..] == session;
      assert (done + written) + left == done + (written + left);
    }
  }

  /** One turn, and what the caller learns if it is the last. */
  lemma {:induction false} TurnReports(start: seq<byte>, sealed: seq<byte>, done: seq<byte>, session: seq<byte>,
        input: seq<byte>, tot: nat, more: seq<byte>, written: seq<byte>, left: seq<byte>, ret: int)
    requires Along(start, sealed, done, session, input, tot)
    requires session + more == written + left && |written| + tot <= |input|
    requires session <= input[tot..] ==> written + left <= input[tot..]
    requires if ret > 0 then |written| == ret && left == [] else written == []
    ensures ret > 0 ==> Along(start, sealed + more, done + written, left, input, tot + ret)
    ensures Conserves(start, sealed + more, if ret > 0 then left else done + written + left, input,
                      if ret > 0 then tot + ret else ret)
  {
    GoesAlong(start, sealed, done, session, input, tot, more, written, left);
    Reports(start, sealed + more, done + written, left, input, tot + |written|, if ret > 0 then tot + ret else ret);
  }

  lemma {:induction false} Retried(start: seq<byte>, sealed: seq<byte>, before: seq<byte>, more: seq<byte>,
        after: seq<byte>, input: seq<byte>, ret: int)
    requires before == start + sealed && before <= input && Conserves(before, more, after, input, ret)
    ensures if ret > 0 then ret <= |input| && after == [] && start + (sealed + more) == input[..ret]
            else after == start + (sealed + more) && after <= input
  {
    assert start + sealed + more == start + (sealed + more);
  }

  ghost predicate AllSeal(seal: nat -> nat -> Option<seq<byte>>) { forall i :: Seals(seal(i)) }

  ghost predicate OneAccepts(tries: nat, accept: nat -> nat -> int) {
    exists i :: 0 <= i < tries && Accepts(accept(i))
  }

  lemma {:induction false} OneMore(i: nat, accept: nat -> nat -> int)
    requires !OneAccepts(i, accept) && !Accepts(accept(i))
    ensures !OneAccepts(i + 1, accept)
  {
  }

  /** One try of an application write, of which `sealed` was sealed since `first`. */
  method TryOnce(c: Connection, address: nat, input: seq<byte>, seal: nat -> Option<seq<byte>>, accept: nat -> int,
        ghost first: seq<Sealed>, ghost session: seq<byte>, ghost sealed: seq<byte>)
    returns (ret: int, ghost sealed': seq<byte>)
    requires c.Valid() && c.maxSendFragment > 0 && RoomForAll(|c.FlightLeft()|, c.overhead, c.maxSendFragment)
    requires c.session == session + sealed && c.session <= input && Gains(first, c.records, sealed)
    modifies c`transport, c`numWrite, c`flight, c`flightOffset, c`records, c`pending, c`pendTot, c`pendKind,
             c`pendAddress, c`session, c`wnum, c.writeBuffer, c.writeBuffer.Repr
    ensures c.Valid() && old(c.transport) <= c.transport && fresh(c.writeBuffer.Repr - old(c.writeBuffer.Repr))
    ensures c.FlightLeft() == [] || c.FlightLeft() == old(c.FlightLeft())
    ensures Gains(first, c.records, sealed')
    ensures if ret > 0
            then ret <= |input| && c.session == [] && session + sealed' == input[..ret]
                 && Wire(c.records) == c.transport + c.FlightLeft()
            else c.session == session + sealed' && c.session <= input
    ensures ret > 0 && !c.partialWrites ==> ret == |input|
    ensures !c.shutdown && old(c.Resumable(address, input)) && old(c.Unhindered(|input|)) ==>
              (Seals(seal) && Accepts(accept) ==> ret > 0)
    ensures old(c.Resumable(address, input)) && old(c.Unhindered(|input|)) && Seals(seal) && ret <= 0 ==>
              c.Resumable(address, input) && c.Unhindered(|input|)
  {
    ghost var more, records, before := [], c.records, c.session;
    ret, more := c.WriteAppData(address, input, seal, accept);
    sealed' := sealed + more;
    GainsOn(first, records, c.records, sealed, more);
    Retried(session, sealed, before, more, c.session, input, ret);
  }

  /** The retries of one application write, as a caller makes them: with the same
      buffer, until something is reported as written or the caller gives up. From a
      session that was empty, what is reported as written is exactly what was sealed;
      until then, what was sealed is the front of the buffer. If nothing but the
      transport stands in the way, one try in which it takes everything is enough. */
  method WriteUntilDone(c: Connection, address: nat, input: seq<byte>, tries: nat,
        seal: nat -> nat -> Option<seq<byte>>, accept: nat -> nat -> int)
    returns (ret: int, ghost sealed: seq<byte>)
    requires c.Valid() && c.maxSendFragment > 0 && RoomForAll(|c.FlightLeft()|, c.overhead, c.maxSendFragment)
    requires c.session <= input
    modifies c`transport, c`numWrite, c`flight, c`flightOffset, c`records, c`pending, c`pendTot, c`pendKind,
             c`pendAddress, c`session, c`wnum, c.writeBuffer, c.writeBuffer.Repr
    ensures c.Valid() && old(c.transport) <= c.transport
    ensures Gains(old(c.records), c.records, sealed)
    ensures if ret > 0
            then ret <= |input| && c.session == [] && old(c.session) + sealed == input[..ret]
                 && Wire(c.records) == c.transport + c.FlightLeft()
            else c.session == old(c.session) + sealed && c.session <= input
    ensures ret > 0 && !c.partialWrites ==> ret == |input|
    ensures !c.shutdown && old(c.Resumable(address, input)) && old(c.Unhindered(|input|)) && AllSeal(seal) ==>
              (OneAccepts(tries, accept) ==> ret > 0)
  {
    ret, sealed := -1, [];
    ghost var first, session := c.records, c.session;
    ghost var smooth := c.Resumable(address, input) && c.Unhindered(|input|) && AllSeal(seal);
    for i := 0 to tries
      invariant c.Valid() && ret <= 0 && old(c.transport) <= c.transport
      invariant c.session == session + sealed && c.session <= input && Gains(first, c.records, sealed)
      invariant c.FlightLeft() == [] || c.FlightLeft() == old(c.FlightLeft())
      invariant fresh(c.writeBuffer.Repr - old(c.writeBuffer.Repr))
      invariant smooth ==> c.Resumable(address, input) && c.Unhindered(|input|)
      invariant smooth && !c.shutdown ==> !OneAccepts(i, accept)
    {
      ret, sealed := TryOnce(c, address, input, seal(i), accept(i), first, session, sealed);
      if ret > 0 { return; }
      if smooth && !c.shutdown { OneMore(i, accept); }
    }
  }
}
