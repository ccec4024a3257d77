/** The sending side (section 4.2.3 of RFC 6347) as functions: a flight of messages
    cut into fragments, packed into datagrams no longer than the MTU, and resumed
    where the transport stopped accepting. */
module DtlsPacking {
  import opened Options
  import opened Bytes
  import opened DtlsFragment

  /** DTLS_OUTGOING_MESSAGE: a message in its unfragmented form, or a
      ChangeCipherSpec, and the write epoch it belongs to. */
  datatype Outgoing = Outgoing(data: seq<byte>, epoch: nat, isCcs: bool)

  /** What a record carries: a ChangeCipherSpec or one fragment. */
  datatype Piece = CcsPiece(epoch: nat) | FragmentPiece(epoch: nat, header: Header, body: seq<byte>)

  /** A position in a flight: messages finished, and bytes sent of the next. */
  datatype Position = Position(written: nat, offset: nat)

  /** The message is stored as a single fragment, as dtls1_finish_message leaves it. */
  predicate Stored(m: Outgoing) {
    var p := ParseFragment(m.data);
    p.Some? && p.value.rest == [] && p.value.header.fragOff == 0 && p.value.header.msgLen == p.value.header.fragLen
  }

  function HeaderOf(m: Outgoing): (h: Header)
    requires Stored(m)
    ensures h.Fits()
  {
    ParseFragment(m.data).value.header
  }

  function BodyOf(m: Outgoing): (b: seq<byte>)
    requires Stored(m)
    ensures |b| == HeaderOf(m).msgLen
  {
    ParseFragment(m.data).value.body
  }

  /** The piece is the next one of the flight: for a message, a fragment that
      starts where the last one ended, and is empty only if the message is. */
  predicate Continues(flight: seq<Outgoing>, at: Position, p: Piece) {
    && at.written < |flight|
    && var m := flight[at.written];
       && p.epoch == m.epoch
       && (if m.isCcs then p.CcsPiece? && at.offset == 0
           else
             && p.FragmentPiece? && Stored(m)
             && p.header == HeaderOf(m).(fragOff := at.offset, fragLen := |p.body|)
             && at.offset + |p.body| <= |BodyOf(m)|
             && p.body == BodyOf(m)[at.offset..at.offset + |p.body|]
             && (p.body == [] ==> BodyOf(m) == []))
  }

  function After(flight: seq<Outgoing>, at: Position, p: Piece): Position
    requires Continues(flight, at, p)
  {
    if p.CcsPiece? || at.offset + |p.body| == |BodyOf(flight[at.written])| then Position(at.written + 1, 0)
    else Position(at.written, at.offset + |p.body|)
  }

  /** The pieces carry the flight from one position to another: each message once
      and in order, in contiguous fragments. */
  predicate Carries(flight: seq<Outgoing>, from: Position, pieces: seq<Piece>, to: Position)
    decreases |pieces|
  {
    if pieces == [] then from == to
    else Continues(flight, from, pieces[0]) && Carries(flight, After(flight, from, pieces[0]), pieces[1..], to)
  }

  lemma {:induction false} CarriesOn(flight: seq<Outgoing>, a: Position, p: seq<Piece>, b: Position, q: seq<Piece>,
        c: Position)
    requires Carries(flight, a, p, b) && Carries(flight, b, q, c)
    ensures Carries(flight, a, p + q, c)
    decreases |p|
  {
    if p == [] {
      assert p + q == q;
    } else {
      CarriesOn(flight, After(flight, a, p[0]), p[1..], b, q, c);
      assert (p + q)[0] == p[0] && (p + q)[1..] == p[1..] + q;
    }
  }

  lemma {:induction false} CarriesFirst(flight: seq<Outgoing>, a: Position, x: Piece, q: seq<Piece>, c: Position)
    requires Continues(flight, a, x) && Carries(flight, After(flight, a, x), q, c)
    ensures Carries(flight, a, [x] + q, c)
  {
    assert ([x] + q)[1..] == q;
  }

  lemma {:induction false} CarriesLonger(flight: seq<Outgoing>, more: seq<Outgoing>, a: Position, p: seq<Piece>,
        b: Position)
    requires Carries(flight, a, p, b)
    ensures Carries(flight + more, a, p, b)
    decreases |p|
  {
    if p != [] {
      assert Continues(flight + more, a, p[0]);
      CarriesLonger(flight, more, After(flight, a, p[0]), p[1..], b);
    }
  }

  /** The record protection of one write epoch: how much a sealed record may grow,
      and how much of that comes before the ciphertext. */
  datatype Aead = Aead(overhead: nat, prefix: nat)

  type Protection = a: Aead | a.prefix <= a.overhead witness Aead(13, 13)

  datatype SealResult = SealError | NoProgress | Partial | Sealed

  const MIN_MTU := 256 - 28
  const DEFAULT_MTU := 1500 - 28
  const FLIGHT := 7

  /** The write epoch, its protection, and that of the epoch before. */
  datatype Keys = Keys(epoch: nat, current: Protection, previous: Protection)

  /** dtls_seal_record, which is not modelled, refuses (None), or answers with the
      length of the record: at least the prefix and the input, and at most the
      overhead more. Any other length stands for the longest. */
  function RecordLen(aead: Protection, inLen: nat, answer: nat): (len: nat)
    ensures inLen + aead.prefix <= len <= inLen + aead.overhead
  {
    if inLen + aead.prefix <= answer <= inLen + aead.overhead then answer else inLen + aead.overhead
  }

  /** A message of the current or the previous epoch, as it was stored, with more to
      send or empty. */
  predicate Sendable(keys: Keys, m: Outgoing, offset: nat) {
    && (m.epoch == keys.epoch || m.epoch + 1 == keys.epoch)
    && (m.isCcs || (Stored(m) && offset <= |BodyOf(m)|))
  }

  function AeadFor(keys: Keys, m: Outgoing): Protection {
    if m.epoch + 1 == keys.epoch then keys.previous else keys.current
  }

  /** One try to seal what is next of a message: the outcome, the length of the
      record, and what it carries. */
  datatype Attempt = Attempt(result: SealResult, len: nat, piece: Piece)

  const NOTHING := CcsPiece(0)

  function TrySeal(keys: Keys, m: Outgoing, offset: nat, maxOut: nat, answer: Option<nat>): (a: Attempt)
    ensures a.result.Sealed? || a.result.Partial? ==> a.len <= maxOut
  {
    var aead := AeadFor(keys, m);
    if !Sendable(keys, m, offset) then Attempt(SealError, 0, NOTHING)
    else if m.isCcs then
      if maxOut < 1 + aead.overhead then Attempt(NoProgress, 0, NOTHING)
      else if answer.None? then Attempt(SealError, 0, NOTHING)
      else Attempt(Sealed, RecordLen(aead, 1, answer.value), CcsPiece(m.epoch))
    else if maxOut < HEADER_LEN + 1 + aead.overhead then Attempt(NoProgress, 0, NOTHING)
    else
      var left := |BodyOf(m)| - offset;
      var room := maxOut - HEADER_LEN - aead.overhead;
      var todo := if left > room then room else left;
      if answer.None? then Attempt(SealError, 0, NOTHING)
      else
        Attempt(if todo == left then Sealed else Partial, RecordLen(aead, HEADER_LEN + todo, answer.value),
                FragmentPiece(m.epoch, HeaderOf(m).(fragOff := offset, fragLen := todo),
                              BodyOf(m)[offset..offset + todo]))
  }

  /** A message of the current epoch is sealed without regard to the protection of the
      previous one, and the other way round. */
  lemma {:induction false} OneProtection(keys: Keys, other: Protection, m: Outgoing, offset: nat, maxOut: nat,
        answer: Option<nat>)
    ensures m.epoch == keys.epoch ==>
              TrySeal(keys.(previous := other), m, offset, maxOut, answer) == TrySeal(keys, m, offset, maxOut, answer)
    ensures m.epoch + 1 == keys.epoch ==>
              TrySeal(keys.(current := other), m, offset, maxOut, answer) == TrySeal(keys, m, offset, maxOut, answer)
  {
  }

  /** The bytes that the record layer protects for a piece. */
  function InputOf(x: Piece): nat { if x.CcsPiece? then 1 else HEADER_LEN + |x.body| }

  /** The length of the record of a piece, by its epoch: what the record layer answers,
      if that is possible at all, and else the longest. */
  function WireLen(keys: Keys, x: Piece, answer: Option<nat>): nat {
    var p := if x.epoch == keys.epoch then keys.current else keys.previous;
    if answer.Some? && InputOf(x) + p.prefix <= answer.value <= InputOf(x) + p.overhead then answer.value
    else InputOf(x) + p.overhead
  }

  /** What is sealed is of the current or the previous epoch and has the length that the
      record layer gave it; a record could not have been too long, and one that leaves a
      part of its message fills the room. */
  lemma {:induction false} SealedLength(keys: Keys, m: Outgoing, offset: nat, maxOut: nat, answer: Option<nat>)
    ensures
      var a := TrySeal(keys, m, offset, maxOut, answer);
      a.result.Sealed? || a.result.Partial? ==>
        && a.piece.epoch == m.epoch && (m.epoch == keys.epoch || m.epoch + 1 == keys.epoch)
        && a.len == WireLen(keys, a.piece, answer)
        && var p := if m.epoch == keys.epoch then keys.current else keys.previous;
           && InputOf(a.piece) + p.overhead <= maxOut
           && (a.result.Partial? ==> InputOf(a.piece) + p.overhead == maxOut)
  {
  }

  /** A message is left part-sent only if it is a stored message with more to send. */
  predicate MidwayAt(flight: seq<Outgoing>, at: Position) {
    at.written <= |flight| &&
    (at.offset > 0 ==>
       && at.written < |flight| && !flight[at.written].isCcs && Stored(flight[at.written])
       && at.offset < |BodyOf(flight[at.written])|)
  }

  predicate Beyond(a: Position, b: Position) {
    b.written > a.written || (b.written == a.written && b.offset > a.offset)
  }

  function BytesOfPiece(x: Piece): seq<byte> { if x.FragmentPiece? then x.body else [] }

  /** Where a try that sealed something leaves the position. */
  function Next(at: Position, a: Attempt): Position
    requires a.result.Partial? ==> a.piece.FragmentPiece?
  {
    if a.result.Partial? then Position(at.written, at.offset + |a.piece.body|) else Position(at.written + 1, 0)
  }

  /** What is sealed is the flight's next piece, and the position moves behind it. */
  lemma {:induction false} TryContinues(flight: seq<Outgoing>, keys: Keys, at: Position, maxOut: nat,
        answer: Option<nat>)
    requires at.written < |flight| && MidwayAt(flight, at)
    ensures
      var a := TrySeal(keys, flight[at.written], at.offset, maxOut, answer);
      a.result.Partial? || a.result.Sealed? ==>
        && (a.result.Partial? ==> a.piece.FragmentPiece?)
        && Continues(flight, at, a.piece) && After(flight, at, a.piece) == Next(at, a)
        && MidwayAt(flight, Next(at, a)) && Beyond(at, Next(at, a))
  {
  }

  /** A packet being built: the position reached, the pieces, their length, and
      whether sealing ended in an error. */
  datatype Packet = Packet(at: Position, pieces: seq<Piece>, total: nat, error: bool)

  function Prepend(pieces: seq<Piece>, total: nat, p: Packet): Packet {
    p.(pieces := pieces + p.pieces, total := total + p.total)
  }

  /** The packet from a position on, if the record layer answers seal(i) for
      message i. */
  function Pack(keys: Keys, flight: seq<Outgoing>, at: Position, room: nat, seal: nat -> Option<nat>): (p: Packet)
    decreases |flight| - at.written, 1
  {
    if at.written >= |flight| then Packet(at, [], 0, false) else PackNext(keys, flight, at, room, seal)
  }

  /** The same, with a message to send. */
  function PackNext(keys: Keys, flight: seq<Outgoing>, at: Position, room: nat, seal: nat -> Option<nat>): (p: Packet)
    requires at.written < |flight|
    decreases |flight| - at.written, 0
  {
    var a := TrySeal(keys, flight[at.written], at.offset, room, seal(at.written));
    match a.result
    case SealError => Packet(at, [], 0, true)
    case NoProgress => Packet(at, [], 0, false)
    case Partial => Packet(if a.piece.FragmentPiece? then Next(at, a) else at, [a.piece], a.len, false)
    case Sealed => Prepend([a.piece], a.len, Pack(keys, flight, Next(at, a), room - a.len, seal))
  }

  /** What a packet from a position may be. */
  predicate PackedFrom(flight: seq<Outgoing>, at: Position, room: nat, p: Packet) {
    && Carries(flight, at, p.pieces, p.at) && MidwayAt(flight, p.at) && p.total <= room
    && (if p.pieces == [] then p.at == at else Beyond(at, p.at))
  }

  lemma {:induction false} PackedMore(flight: seq<Outgoing>, at: Position, next: Position, room: nat, len: nat,
        x: Piece, p: Packet)
    requires at.written < |flight| && len <= room && Continues(flight, at, x) && After(flight, at, x) == next
    requires Beyond(at, next)
    requires PackedFrom(flight, next, room - len, p)
    ensures PackedFrom(flight, at, room, Prepend([x], len, p))
  {
    CarriesFirst(flight, at, x, p.pieces, p.at);
  }

  /** One try, and the packet that it ends or begins. */
  lemma {:induction false} PackUnfolds(keys: Keys, flight: seq<Outgoing>, at: Position, room: nat,
        seal: nat -> Option<nat>, a: Attempt, p: Packet)
    requires at.written < |flight| && p == Pack(keys, flight, at, room, seal)
    requires a == TrySeal(keys, flight[at.written], at.offset, room, seal(at.written))
    ensures a.result.SealError? || a.result.NoProgress? ==> p == Packet(at, [], 0, a.result.SealError?)
    ensures a.result.Partial? && a.piece.FragmentPiece? ==>
              p == Prepend([a.piece], a.len, Packet(Next(at, a), [], 0, false))
    ensures a.result.Sealed? ==> p == Prepend([a.piece], a.len, Pack(keys, flight, Next(at, a), room - a.len, seal))
  {
    assert p == PackNext(keys, flight, at, room, seal);
  }

  lemma {:induction false} PrependPrepend(a: seq<Piece>, m: nat, b: seq<Piece>, n: nat, p: Packet)
    ensures Prepend(a, m, Prepend(b, n, p)) == Prepend(a + b, m + n, p)
  {
    assert a + (b + p.pieces) == a + b + p.pieces;
  }

  /** The packet that is being built will be this one. */
  predicate Builds(keys: Keys, flight: seq<Outgoing>, at: Position, room: nat, seal: nat -> Option<nat>,
        packet: seq<Piece>, total: nat, whole: Packet)
  {
    && MidwayAt(flight, at)
    && whole == if at.written == |flight| then Packet(at, packet, total, false)
                else Prepend(packet, total, Pack(keys, flight, at, room, seal))
  }

  /** One turn of the packing loop. */
  lemma {:induction false} PackStep(keys: Keys, flight: seq<Outgoing>, at: Position, room: nat,
        seal: nat -> Option<nat>, a: Attempt, packet: seq<Piece>, total: nat, whole: Packet)
    requires at.written < |flight|
    requires a == TrySeal(keys, flight[at.written], at.offset, room, seal(at.written))
    requires Builds(keys, flight, at, room, seal, packet, total, whole)
    ensures a.result.SealError? || a.result.NoProgress? ==> whole == Packet(at, packet, total, a.result.SealError?)
    ensures a.result.Partial? ==> a.piece.FragmentPiece?
                                  && whole == Packet(Next(at, a), packet + [a.piece], total + a.len, false)
    ensures a.result.Sealed? ==>
              Builds(keys, flight, Next(at, a), room - a.len, seal, packet + [a.piece], total + a.len, whole)
  {
    TryContinues(flight, keys, at, room, seal(at.written));
    PackUnfolds(keys, flight, at, room, seal, a, Pack(keys, flight, at, room, seal));
    assert packet + [] == packet;
    if a.result.Sealed? {
      var rest := Pack(keys, flight, Next(at, a), room - a.len, seal);
      PrependPrepend(packet, total, [a.piece], a.len, rest);
      assert packet + [a.piece] + [] == packet + [a.piece];
    } else if a.result.Partial? {
      PrependPrepend(packet, total, [a.piece], a.len, Packet(Next(at, a), [], 0, false));
      assert packet + [a.piece] + [] == packet + [a.piece];
    }
  }

  lemma {:induction false} PackedNothing(flight: seq<Outgoing>, at: Position, room: nat, p: Packet)
    requires MidwayAt(flight, at) && p.at == at && p.pieces == [] && p.total == 0
    ensures PackedFrom(flight, at, room, p)
  {
  }

  /** A packet carries the flight from one position to another, fits the room, and
      has no pieces exactly if the position did not move. */
  lemma {:induction false} PackCarries(keys: Keys, flight: seq<Outgoing>, at: Position, room: nat,
        seal: nat -> Option<nat>, p: Packet)
    requires MidwayAt(flight, at) && p == Pack(keys, flight, at, room, seal)
    ensures PackedFrom(flight, at, room, p)
    decreases |flight| - at.written
  {
    if at.written >= |flight| {
      PackedNothing(flight, at, room, p);
    } else {
      var a := TrySeal(keys, flight[at.written], at.offset, room, seal(at.written));
      PackUnfolds(keys, flight, at, room, seal, a, p);
      TryContinues(flight, keys, at, room, seal(at.written));
      if a.result.SealError? || a.result.NoProgress? {
        PackedNothing(flight, at, room, p);
      } else {
        var next := Next(at, a);
        var rest := if a.result.Partial? then Packet(next, [], 0, false)
                    else Pack(keys, flight, next, room - a.len, seal);
        if a.result.Partial? { PackedNothing(flight, next, room - a.len, rest); }
        else { PackCarries(keys, flight, next, room - a.len, seal, rest); }
        PackedMore(flight, at, next, room, a.len, a.piece, rest);
      }
    }
  }

  /** The lengths of the records of some pieces, of messages from i on. */
  function WireLens(keys: Keys, pieces: seq<Piece>, i: nat, seal: nat -> Option<nat>): nat {
    if pieces == [] then 0
    else WireLen(keys, pieces[0], seal(i)) + WireLens(keys, pieces[1..], i + 1, seal)
  }

  lemma {:induction false} WireLensMore(keys: Keys, x: Piece, p: Packet, len: nat, i: nat, seal: nat -> Option<nat>)
    requires len == WireLen(keys, x, seal(i)) && p.total == WireLens(keys, p.pieces, i + 1, seal)
    ensures Prepend([x], len, p).total == WireLens(keys, Prepend([x], len, p).pieces, i, seal)
  {
    assert ([x] + p.pieces)[1..] == p.pieces;
  }

  /** A packet is as long as its records. */
  lemma {:induction false} PacketLength(keys: Keys, flight: seq<Outgoing>, at: Position, room: nat,
        seal: nat -> Option<nat>, p: Packet)
    requires MidwayAt(flight, at) && p == Pack(keys, flight, at, room, seal)
    ensures p.total == WireLens(keys, p.pieces, at.written, seal)
    decreases |flight| - at.written
  {
    if at.written < |flight| {
      var a := TrySeal(keys, flight[at.written], at.offset, room, seal(at.written));
      PackUnfolds(keys, flight, at, room, seal, a, p);
      TryContinues(flight, keys, at, room, seal(at.written));
      if a.result.Sealed? || a.result.Partial? {
        SealedLength(keys, flight[at.written], at.offset, room, seal(at.written));
        var rest := if a.result.Partial? then Packet(Next(at, a), [], 0, false)
                    else Pack(keys, flight, Next(at, a), room - a.len, seal);
        if a.result.Sealed? { PacketLength(keys, flight, Next(at, a), room - a.len, seal, rest); }
        WireLensMore(keys, a.piece, rest, a.len, at.written, seal);
      }
    }
  }

  /** The room that is enough for a piece of any message. */
  function Enough(keys: Keys): nat {
    var a, b := keys.current.overhead, keys.previous.overhead;
    HEADER_LEN + 1 + (if a > b then a else b)
  }

  /** A call of send_flight: the position, the pieces and the lengths of the
      datagrams the transport accepted, the result, and whether the position moved
      past pieces that were not sent. */
  datatype Sending = Sending(at: Position, pieces: seq<Piece>, lengths: seq<nat>, ret: int, lost: bool)

  function BytesLeft(flight: seq<Outgoing>, at: Position): int {
    if at.written < |flight| && !flight[at.written].isCcs && Stored(flight[at.written])
    then |BodyOf(flight[at.written])| - at.offset else 0
  }

  /** Sending from a position on. The record layer answers seal(k)(i) for message i
      in packet k, and the transport accept(k). */
  function Send(keys: Keys, flight: seq<Outgoing>, at: Position, mtu: nat, seal: nat -> nat -> Option<nat>,
        accept: nat -> int, k: nat): Sending
    requires MidwayAt(flight, at)
    decreases |flight| - at.written, BytesLeft(flight, at), 1
  {
    if at.written == |flight| then Sending(at, [], [], 1, false)
    else SendNext(keys, flight, at, mtu, seal, accept, k)
  }

  /** The same, with a packet to send. */
  function SendNext(keys: Keys, flight: seq<Outgoing>, at: Position, mtu: nat, seal: nat -> nat -> Option<nat>,
        accept: nat -> int, k: nat): Sending
    requires at.written < |flight| && MidwayAt(flight, at)
    decreases |flight| - at.written, BytesLeft(flight, at), 0
  {
    var p := Pack(keys, flight, at, mtu, seal(k));
    PackCarries(keys, flight, at, mtu, seal(k), p);
    if p.error || p.pieces == [] then Sending(p.at, [], [], -1, p.at != at)
    else if accept(k) <= 0 then Sending(at, [], [], accept(k), false)
    else
      var rest := Send(keys, flight, p.at, mtu, seal, accept, k + 1);
      rest.(pieces := p.pieces + rest.pieces, lengths := [p.total] + rest.lengths)
  }

  /** What was accepted before, and the rest of the call. */
  function Sent(pieces: seq<Piece>, lengths: seq<nat>, s: Sending): Sending {
    s.(pieces := pieces + s.pieces, lengths := lengths + s.lengths)
  }

  /** The call that is under way will be this one. */
  predicate Sends(keys: Keys, flight: seq<Outgoing>, at: Position, mtu: nat, seal: nat -> nat -> Option<nat>,
        accept: nat -> int, k: nat, pieces: seq<Piece>, lengths: seq<nat>, whole: Sending)
    requires MidwayAt(flight, at)
  {
    whole == Sent(pieces, lengths, Send(keys, flight, at, mtu, seal, accept, k))
  }

  /** One packet, and the call that it ends or begins. */
  lemma {:induction false} SendUnfolds(keys: Keys, flight: seq<Outgoing>, at: Position, mtu: nat,
        seal: nat -> nat -> Option<nat>, accept: nat -> int, k: nat, p: Packet, s: Sending)
    requires at.written < |flight| && MidwayAt(flight, at) && p == Pack(keys, flight, at, mtu, seal(k))
    requires s == Send(keys, flight, at, mtu, seal, accept, k)
    ensures p.error || p.pieces == [] ==> s == Sending(p.at, [], [], -1, p.at != at)
    ensures !p.error && p.pieces != [] ==>
              && MidwayAt(flight, p.at) && Beyond(at, p.at)
              && s == if accept(k) <= 0 then Sending(at, [], [], accept(k), false)
                      else Sent(p.pieces, [p.total], Send(keys, flight, p.at, mtu, seal, accept, k + 1))
  {
    PackCarries(keys, flight, at, mtu, seal(k), p);
    assert s == SendNext(keys, flight, at, mtu, seal, accept, k);
  }

  lemma {:induction false} SentSent(a: seq<Piece>, m: seq<nat>, b: seq<Piece>, n: seq<nat>, s: Sending)
    ensures Sent(a, m, Sent(b, n, s)) == Sent(a + b, m + n, s)
  {
    assert a + (b + s.pieces) == a + b + s.pieces;
    assert m + (n + s.lengths) == m + n + s.lengths;
  }

  /** One turn of the sending loop. */
  lemma {:induction false} SendStep(keys: Keys, flight: seq<Outgoing>, at: Position, mtu: nat,
        seal: nat -> nat -> Option<nat>, accept: nat -> int, k: nat, p: Packet, pieces: seq<Piece>, lengths: seq<nat>,
        whole: Sending)
    requires at.written < |flight| && MidwayAt(flight, at) && p == Pack(keys, flight, at, mtu, seal(k))
    requires Sends(keys, flight, at, mtu, seal, accept, k, pieces, lengths, whole)
    ensures Builds(keys, flight, at, mtu, seal(k), [], 0, p)
    ensures p.error || p.pieces == [] ==> whole == Sending(p.at, pieces, lengths, -1, p.at != at)
    ensures !p.error && p.pieces != [] ==>
              && MidwayAt(flight, p.at) && Beyond(at, p.at)
              && if accept(k) <= 0 then whole == Sending(at, pieces, lengths, accept(k), false)
                 else Sends(keys, flight, p.at, mtu, seal, accept, k + 1, pieces + p.pieces, lengths + [p.total], whole)
  {
    assert [] + p.pieces == p.pieces;
    assert pieces + [] == pieces && lengths + [] == lengths;
    SendUnfolds(keys, flight, at, mtu, seal, accept, k, p, Send(keys, flight, at, mtu, seal, accept, k));
    if !p.error && p.pieces != [] && accept(k) > 0 {
      SentSent(pieces, lengths, p.pieces, [p.total], Send(keys, flight, p.at, mtu, seal, accept, k + 1));
    }
  }

  lemma {:induction false} SendEnds(keys: Keys, flight: seq<Outgoing>, at: Position, mtu: nat,
        seal: nat -> nat -> Option<nat>, accept: nat -> int, k: nat, pieces: seq<Piece>, lengths: seq<nat>,
        whole: Sending)
    requires at.written >= |flight| && MidwayAt(flight, at)
    requires Sends(keys, flight, at, mtu, seal, accept, k, pieces, lengths, whole)
    ensures at == Position(|flight|, 0) && whole == Sending(at, pieces, lengths, 1, false)
  {
    assert pieces + [] == pieces && lengths + [] == lengths;
  }

  /** The packets that the transport accepts during a call. */
  function Accepted(keys: Keys, flight: seq<Outgoing>, at: Position, mtu: nat, seal: nat -> nat -> Option<nat>,
        accept: nat -> int, k: nat): seq<Packet>
    requires MidwayAt(flight, at)
    decreases |flight| - at.written, BytesLeft(flight, at)
  {
    if at.written == |flight| then []
    else
      var p := Pack(keys, flight, at, mtu, seal(k));
      PackCarries(keys, flight, at, mtu, seal(k), p);
      if p.error || p.pieces == [] || accept(k) <= 0 then []
      else [p] + Accepted(keys, flight, p.at, mtu, seal, accept, k + 1)
  }

  /** Datagrams from a message on: each is as long as the records that the record layer
      made of its pieces. */
  predicate Datagrams(keys: Keys, packets: seq<Packet>, written: nat, pieces: seq<Piece>, lengths: seq<nat>,
        seal: nat -> nat -> Option<nat>, k: nat)
    decreases |packets|
  {
    if packets == [] then pieces == [] && lengths == []
    else
      var p := packets[0];
      && p.pieces <= pieces && lengths != [] && lengths[0] == WireLens(keys, p.pieces, written, seal(k))
      && Datagrams(keys, packets[1..], p.at.written, pieces[|p.pieces|..], lengths[1..], seal, k + 1)
  }

  lemma {:induction false} SentInDatagrams(keys: Keys, flight: seq<Outgoing>, at: Position, mtu: nat,
        seal: nat -> nat -> Option<nat>, accept: nat -> int, k: nat, s: Sending)
    requires MidwayAt(flight, at) && s == Send(keys, flight, at, mtu, seal, accept, k)
    ensures
      Datagrams(keys, Accepted(keys, flight, at, mtu, seal, accept, k), at.written, s.pieces, s.lengths, seal, k)
    decreases |flight| - at.written, BytesLeft(flight, at)
  {
    if at.written < |flight| {
      var p := Pack(keys, flight, at, mtu, seal(k));
      SendUnfolds(keys, flight, at, mtu, seal, accept, k, p, s);
      PacketLength(keys, flight, at, mtu, seal(k), p);
      if !p.error && p.pieces != [] && accept(k) > 0 {
        var rest := Send(keys, flight, p.at, mtu, seal, accept, k + 1);
        SentInDatagrams(keys, flight, p.at, mtu, seal, accept, k + 1, rest);
        assert s.pieces[|p.pieces|..] == rest.pieces && s.lengths[1..] == rest.lengths;
      }
    }
  }

  function MtuAfter(mtu: nat, noQuery: bool, queried: int): nat {
    if mtu >= MIN_MTU || noQuery then mtu else if MIN_MTU <= queried <= 0x4000_0000 then queried else DEFAULT_MTU
  }

  /** No datagram is longer than the MTU. */
  predicate AllWithin(lengths: seq<nat>, mtu: nat) { forall i :: 0 <= i < |lengths| ==> lengths[i] <= mtu }

  /** The pieces of a call carry the flight to some position, and it is the one the
      call left unless something was lost. */
  lemma {:induction false} SendCarries(keys: Keys, flight: seq<Outgoing>, at: Position, mtu: nat,
        seal: nat -> nat -> Option<nat>, accept: nat -> int, k: nat)
    returns (to: Position)
    requires MidwayAt(flight, at)
    ensures
      var s := Send(keys, flight, at, mtu, seal, accept, k);
      && Carries(flight, at, s.pieces, to) && MidwayAt(flight, s.at) && AllWithin(s.lengths, mtu)
      && (s.lost <==> to != s.at)
      && (s.ret > 0 ==> !s.lost && s.at == Position(|flight|, 0))
    decreases |flight| - at.written, BytesLeft(flight, at)
  {
    to := at;
    if at.written < |flight| {
      var p := Pack(keys, flight, at, mtu, seal(k));
      PackCarries(keys, flight, at, mtu, seal(k), p);
      if !p.error && p.pieces != [] && accept(k) > 0 {
        var rest := Send(keys, flight, p.at, mtu, seal, accept, k + 1);
        to := SendCarries(keys, flight, p.at, mtu, seal, accept, k + 1);
        CarriesOn(flight, at, p.pieces, p.at, rest.pieces, to);
      }
    }
  }

  /** A call carries on what was carried before. */
  lemma {:induction false} SendGoesOn(keys: Keys, flight: seq<Outgoing>, at: Position, mtu: nat,
        seal: nat -> nat -> Option<nat>, accept: nat -> int, lost: bool, before: seq<Piece>, lengths: seq<nat>,
        s: Sending)
    requires MidwayAt(flight, at) && (!lost ==> Carries(flight, Position(0, 0), before, at)) && AllWithin(lengths, mtu)
    requires s == Send(keys, flight, at, mtu, seal, accept, 0)
    ensures MidwayAt(flight, s.at) && AllWithin(lengths + s.lengths, mtu)
    ensures s.ret > 0 ==> !s.lost && s.at == Position(|flight|, 0)
    ensures !lost && !s.lost ==> Carries(flight, Position(0, 0), before + s.pieces, s.at)
    ensures NeverRefuses(seal) && AllSendable(keys, flight, at) ==> !s.lost
  {
    var to := SendCarries(keys, flight, at, mtu, seal, accept, 0);
    if NeverRefuses(seal) && AllSendable(keys, flight, at) { NeverLost(keys, flight, at, mtu, seal, accept, 0); }
    if !lost { CarriesOn(flight, Position(0, 0), before, at, s.pieces, to); }
  }

  lemma {:induction false} CarriesOneWay(flight: seq<Outgoing>, a: Position, p: seq<Piece>, b: Position, c: Position)
    requires Carries(flight, a, p, b) && Carries(flight, a, p, c)
    ensures b == c
    decreases |p|
  {
    if p != [] { CarriesOneWay(flight, After(flight, a, p[0]), p[1..], b, c); }
  }

  /** The room that sealing anything of a message takes, and sealing all of it. */
  function LeastRoom(keys: Keys, m: Outgoing): nat {
    AeadFor(keys, m).overhead + (if m.isCcs then 1 else HEADER_LEN + 1)
  }

  function InputLen(m: Outgoing, offset: nat): nat
    requires !m.isCcs ==> Stored(m) && offset <= |BodyOf(m)|
  {
    if m.isCcs then 1 else HEADER_LEN + |BodyOf(m)| - offset
  }

  /** Nothing of the message can be sealed, and not because of the room. */
  predicate Refuses(keys: Keys, m: Outgoing, offset: nat, room: int, answer: Option<nat>) {
    !Sendable(keys, m, offset) || (room >= LeastRoom(keys, m) && answer.None?)
  }

  /** All of the message is sealed. */
  predicate FitsWhole(keys: Keys, m: Outgoing, offset: nat, room: int, answer: Option<nat>) {
    && Sendable(keys, m, offset) && answer.Some?
    && room >= LeastRoom(keys, m) && room >= AeadFor(keys, m).overhead + InputLen(m, offset)
  }

  function OffsetAt(at: Position, i: nat): nat { if i == at.written then at.offset else 0 }

  /** The room left for message i, if all of the messages before it are sealed. */
  function RoomAt(keys: Keys, flight: seq<Outgoing>, at: Position, room: int, seal: nat -> Option<nat>, i: nat): int
    requires at.written <= i <= |flight|
    decreases i
  {
    if i == at.written then room
    else
      var m, before := flight[i - 1], RoomAt(keys, flight, at, room, seal, i - 1);
      if FitsWhole(keys, m, OffsetAt(at, i - 1), before, seal(i - 1))
      then before - RecordLen(AeadFor(keys, m), InputLen(m, OffsetAt(at, i - 1)), seal(i - 1).value)
      else before
  }

  /** All of the messages before message i fit, and it is refused. */
  predicate RefusedAt(keys: Keys, flight: seq<Outgoing>, at: Position, room: int, seal: nat -> Option<nat>, i: nat)
    requires at.written <= i < |flight|
  {
    && Refuses(keys, flight[i], OffsetAt(at, i), RoomAt(keys, flight, at, room, seal, i), seal(i))
    && forall j :: at.written <= j < i ==>
         FitsWhole(keys, flight[j], OffsetAt(at, j), RoomAt(keys, flight, at, room, seal, j), seal(j))
  }

  lemma {:induction false} TryGuards(keys: Keys, m: Outgoing, offset: nat, room: nat, answer: Option<nat>)
    ensures
      var a := TrySeal(keys, m, offset, room, answer);
      && (a.result.SealError? <==> Refuses(keys, m, offset, room, answer))
      && (a.result.Sealed? <==> FitsWhole(keys, m, offset, room, answer))
      && (a.result.Sealed? ==> a.len == RecordLen(AeadFor(keys, m), InputLen(m, offset), answer.value))
  {
  }

  /** The room for message i, seen from the message after the first. */
  lemma {:induction false} RoomFrom(keys: Keys, flight: seq<Outgoing>, at: Position, room: int,
        seal: nat -> Option<nat>, next: Position, left: int, i: nat)
    requires at.written < i <= |flight| && next == Position(at.written + 1, 0)
    requires left == RoomAt(keys, flight, at, room, seal, at.written + 1)
    ensures RoomAt(keys, flight, at, room, seal, i) == RoomAt(keys, flight, next, left, seal, i)
    decreases i
  {
    if i > at.written + 1 { RoomFrom(keys, flight, at, room, seal, next, left, i - 1); }
  }

  lemma {:induction false} RefusedFrom(keys: Keys, flight: seq<Outgoing>, at: Position, room: int,
        seal: nat -> Option<nat>, next: Position, left: int, i: nat)
    requires at.written < i < |flight| && next == Position(at.written + 1, 0)
    requires left == RoomAt(keys, flight, at, room, seal, at.written + 1)
    ensures RefusedAt(keys, flight, at, room, seal, i)
            <==> FitsWhole(keys, flight[at.written], at.offset, room, seal(at.written))
                 && RefusedAt(keys, flight, next, left, seal, i)
  {
    forall j | at.written < j <= i
      ensures RoomAt(keys, flight, at, room, seal, j) == RoomAt(keys, flight, next, left, seal, j)
    {
      RoomFrom(keys, flight, at, room, seal, next, left, j);
    }
    assert RoomAt(keys, flight, at, room, seal, at.written) == room && OffsetAt(at, at.written) == at.offset;
    assert forall j :: at.written < j <= i ==> OffsetAt(at, j) == OffsetAt(next, j) == 0;
    if RefusedAt(keys, flight, at, room, seal, i) {
      assert FitsWhole(keys, flight[at.written], OffsetAt(at, at.written),
                       RoomAt(keys, flight, at, room, seal, at.written), seal(at.written));
    }
  }

  /** Some message is refused behind messages that all fit. */
  predicate SomeRefused(keys: Keys, flight: seq<Outgoing>, at: Position, room: int, seal: nat -> Option<nat>, from: nat)
    requires at.written <= from
  {
    exists i :: from <= i < |flight| && RefusedAt(keys, flight, at, room, seal, i)
  }

  lemma {:induction false} ErrorFirst(keys: Keys, flight: seq<Outgoing>, at: Position, room: nat,
        seal: nat -> Option<nat>, a: Attempt)
    requires at.written < |flight| && a == TrySeal(keys, flight[at.written], at.offset, room, seal(at.written))
    ensures Pack(keys, flight, at, room, seal).error
            <==> a.result.SealError?
                 || (a.result.Sealed? && Pack(keys, flight, Next(at, a), room - a.len, seal).error)
  {
  }

  /** The first try of a packet, by the guards: it fails, or leaves this room for the
      messages behind. */
  lemma {:induction false} FirstTry(keys: Keys, flight: seq<Outgoing>, at: Position, room: nat,
        seal: nat -> Option<nat>, a: Attempt)
    requires at.written < |flight| && a == TrySeal(keys, flight[at.written], at.offset, room, seal(at.written))
    ensures a.result.SealError? <==> RefusedAt(keys, flight, at, room, seal, at.written)
    ensures a.result.Sealed? <==> FitsWhole(keys, flight[at.written], at.offset, room, seal(at.written))
    ensures a.result.Sealed? ==>
              Next(at, a) == Position(at.written + 1, 0)
              && room - a.len == RoomAt(keys, flight, at, room, seal, at.written + 1)
  {
    TryGuards(keys, flight[at.written], at.offset, room, seal(at.written));
  }

  /** A packet is given up exactly if some message is refused. */
  lemma {:induction false} ErrorIff(keys: Keys, flight: seq<Outgoing>, at: Position, room: nat,
        seal: nat -> Option<nat>)
    ensures Pack(keys, flight, at, room, seal).error <==> SomeRefused(keys, flight, at, room, seal, at.written)
    decreases |flight| - at.written
  {
    if at.written < |flight| {
      var a := TrySeal(keys, flight[at.written], at.offset, room, seal(at.written));
      ErrorFirst(keys, flight, at, room, seal, a);
      FirstTry(keys, flight, at, room, seal, a);
      var next, left := Position(at.written + 1, 0), RoomAt(keys, flight, at, room, seal, at.written + 1);
      LaterRefused(keys, flight, at, room, seal, next, left);
      if a.result.Sealed? { ErrorIff(keys, flight, next, left, seal); }
    }
  }

  /** The messages behind the first are refused as if the packet began with them. */
  lemma {:induction false} LaterRefused(keys: Keys, flight: seq<Outgoing>, at: Position, room: nat,
        seal: nat -> Option<nat>, next: Position, left: int)
    requires at.written < |flight| && next == Position(at.written + 1, 0)
    requires left == RoomAt(keys, flight, at, room, seal, at.written + 1)
    ensures SomeRefused(keys, flight, at, room, seal, at.written + 1)
            <==> FitsWhole(keys, flight[at.written], at.offset, room, seal(at.written))
                 && SomeRefused(keys, flight, next, left, seal, next.written)
    ensures SomeRefused(keys, flight, at, room, seal, at.written)
            <==> RefusedAt(keys, flight, at, room, seal, at.written)
                 || SomeRefused(keys, flight, at, room, seal, at.written + 1)
  {
    forall i | at.written < i < |flight|
      ensures RefusedAt(keys, flight, at, room, seal, i)
              <==> FitsWhole(keys, flight[at.written], at.offset, room, seal(at.written))
                   && RefusedAt(keys, flight, next, left, seal, i)
    {
      RefusedFrom(keys, flight, at, room, seal, next, left, i);
    }
  }

  /** Some packet of the call is given up after its first message was sealed: a later
      message is refused, in this packet or in one after it. */
  predicate FailsMidPacket(keys: Keys, flight: seq<Outgoing>, at: Position, mtu: nat, seal: nat -> nat -> Option<nat>,
        accept: nat -> int, k: nat)
    requires MidwayAt(flight, at)
    decreases |flight| - at.written, BytesLeft(flight, at)
  {
    at.written < |flight| &&
    (SomeRefused(keys, flight, at, mtu, seal(k), at.written + 1)
     || (Starts(keys, flight[at.written], at.offset, mtu, seal(k)(at.written)) && accept(k) > 0
         && var next := Pack(keys, flight, at, mtu, seal(k)).at;
            PackStarts(keys, flight, at, mtu, seal(k));
            FailsMidPacket(keys, flight, next, mtu, seal, accept, k + 1)))
  }

  /** Something of the message can be sealed. */
  predicate Starts(keys: Keys, m: Outgoing, offset: nat, room: nat, answer: Option<nat>) {
    Sendable(keys, m, offset) && answer.Some? && room >= LeastRoom(keys, m)
  }

  lemma {:induction false} PackStarts(keys: Keys, flight: seq<Outgoing>, at: Position, room: nat,
        seal: nat -> Option<nat>)
    requires MidwayAt(flight, at) && at.written < |flight|
    ensures
      var p := Pack(keys, flight, at, room, seal);
      && PackedFrom(flight, at, room, p)
      && (p.pieces != [] <==> Starts(keys, flight[at.written], at.offset, room, seal(at.written)))
  {
    PackCarries(keys, flight, at, room, seal, Pack(keys, flight, at, room, seal));
    TryContinues(flight, keys, at, room, seal(at.written));
  }

  lemma {:induction false} MovesIfSealed(keys: Keys, flight: seq<Outgoing>, at: Position, room: nat,
        seal: nat -> Option<nat>)
    requires MidwayAt(flight, at) && at.written < |flight|
    ensures
      var p := Pack(keys, flight, at, room, seal);
      p.error ==> (p.at != at <==> TrySeal(keys, flight[at.written], at.offset, room, seal(at.written)).result.Sealed?)
  {
    PackCarries(keys, flight, at, room, seal, Pack(keys, flight, at, room, seal));
  }

  /** A packet is given up after it moved the position exactly if a message behind its
      first is refused. */
  lemma {:induction false} MovesButFails(keys: Keys, flight: seq<Outgoing>, at: Position, room: nat,
        seal: nat -> Option<nat>, p: Packet)
    requires MidwayAt(flight, at) && at.written < |flight| && p == Pack(keys, flight, at, room, seal)
    ensures p.error && p.at != at <==> SomeRefused(keys, flight, at, room, seal, at.written + 1)
  {
    var a := TrySeal(keys, flight[at.written], at.offset, room, seal(at.written));
    MovesIfSealed(keys, flight, at, room, seal);
    ErrorIff(keys, flight, at, room, seal);
    FirstTry(keys, flight, at, room, seal, a);
    LaterRefused(keys, flight, at, room, seal, Position(at.written + 1, 0),
                 RoomAt(keys, flight, at, room, seal, at.written + 1));
  }

  lemma {:induction false} LostIff(keys: Keys, flight: seq<Outgoing>, at: Position, mtu: nat,
        seal: nat -> nat -> Option<nat>, accept: nat -> int, k: nat)
    requires MidwayAt(flight, at)
    ensures Send(keys, flight, at, mtu, seal, accept, k).lost
            <==> FailsMidPacket(keys, flight, at, mtu, seal, accept, k)
    decreases |flight| - at.written, BytesLeft(flight, at)
  {
    if at.written < |flight| {
      var p := Pack(keys, flight, at, mtu, seal(k));
      PackStarts(keys, flight, at, mtu, seal(k));
      MovesButFails(keys, flight, at, mtu, seal(k), p);
      SendUnfolds(keys, flight, at, mtu, seal, accept, k, p, Send(keys, flight, at, mtu, seal, accept, k));
      if p.pieces != [] && accept(k) > 0 { LostIff(keys, flight, p.at, mtu, seal, accept, k + 1); }
    }
  }

  /** What the transport accepted carries the flight up to the position that the
      call leaves, exactly unless a packet is given up after its first message was
      sealed: then messages are passed over. */
  lemma {:induction false} AccountHoldsIff(keys: Keys, flight: seq<Outgoing>, at: Position, mtu: nat,
        seal: nat -> nat -> Option<nat>, accept: nat -> int)
    requires MidwayAt(flight, at)
    ensures
      var s := Send(keys, flight, at, mtu, seal, accept, 0);
      Carries(flight, at, s.pieces, s.at) <==> !FailsMidPacket(keys, flight, at, mtu, seal, accept, 0)
  {
    var s := Send(keys, flight, at, mtu, seal, accept, 0);
    var to := SendCarries(keys, flight, at, mtu, seal, accept, 0);
    LostIff(keys, flight, at, mtu, seal, accept, 0);
    if Carries(flight, at, s.pieces, s.at) { CarriesOneWay(flight, at, s.pieces, to, s.at); }
  }

  lemma {:induction false} RawIsStored(m: Message, k: nat, epoch: nat)
    requires |m.body| < 0x100_0000 && k < 0x1_0000
    ensures
      var o := Outgoing(Raw(m, k), epoch, false);
      Stored(o) && HeaderOf(o) == Header(m.kind, |m.body|, k, 0, |m.body|) && BodyOf(o) == m.body
  {
    var h := Header(m.kind, |m.body|, k, 0, |m.body|);
    ParseEncoded(h, m.body, []);
    assert EncodeHeader(h) + m.body + [] == Raw(m, k);
  }

  /** The client's last flight without a certificate: a ClientKeyExchange, the
      ChangeCipherSpec, and what follows under the next epoch. */
  function LastFlight(body: seq<byte>, number: nat, more: seq<Outgoing>): seq<Outgoing>
    requires |body| < 0x100_0000 && number < 0x1_0000
  {
    [Outgoing(Raw(Message(16, body), number), 0, false), Outgoing([], 0, true)] + more
  }

  /** Two messages go into one packet and the second is not sealed: the first is
      never sent, and the next call goes on behind it. */
  lemma {:induction false} PassesOverAMessage(body: seq<byte>, number: nat, more: seq<Outgoing>, current: Protection,
        mtu: nat, accept: nat -> int)
    requires number < 0x1_0000 && |body| < 0x100_0000 && |body| + 39 <= mtu
    ensures
      var keys := Keys(1, current, Aead(13, 13));
      var seal: nat -> nat -> Option<nat> := k => i => if i == 0 then Some(|body| + 25) else None;
      var s := Send(keys, LastFlight(body, number, more), Position(0, 0), mtu, seal, accept, 0);
      s == Sending(Position(1, 0), [], [], -1, true)
  {
    var keys, flight := Keys(1, current, Aead(13, 13)), LastFlight(body, number, more);
    var seal: nat -> nat -> Option<nat> := k => i => if i == 0 then Some(|body| + 25) else None;
    RawIsStored(Message(16, body), number, 0);
    var first := TrySeal(keys, flight[0], 0, mtu, seal(0)(0));
    assert first.result.Sealed? && first.len == |body| + 25;
    var room := mtu - first.len;
    assert TrySeal(keys, flight[1], 0, room, seal(0)(1)).result.SealError?;
    assert Pack(keys, flight, Position(1, 0), room, seal(0)) == Packet(Position(1, 0), [], 0, true);
    assert Pack(keys, flight, Position(0, 0), mtu, seal(0)) == Packet(Position(1, 0), [first.piece], first.len, true);
  }

  ghost predicate NeverRefuses(seal: nat -> nat -> Option<nat>) { forall k, i :: seal(k)(i).Some? }

  /** From a position on, every message can be sent. */
  predicate AllSendable(keys: Keys, flight: seq<Outgoing>, at: Position) {
    forall i :: at.written <= i < |flight| ==> Sendable(keys, flight[i], if i == at.written then at.offset else 0)
  }

  lemma {:induction false} SendableAfter(keys: Keys, flight: seq<Outgoing>, at: Position, next: Position)
    requires AllSendable(keys, flight, at) && MidwayAt(flight, next) && Beyond(at, next)
    ensures AllSendable(keys, flight, next)
  {
    forall i | next.written <= i < |flight|
      ensures Sendable(keys, flight[i], if i == next.written then next.offset else 0)
    {
      assert Sendable(keys, flight[i], if i == at.written then at.offset else 0);
    }
  }

  /** With enough room and a record layer that seals, a packet makes progress. */
  lemma {:induction false} PackSucceeds(keys: Keys, flight: seq<Outgoing>, at: Position, room: nat,
        seal: nat -> Option<nat>)
    requires MidwayAt(flight, at) && AllSendable(keys, flight, at) && forall i :: seal(i).Some?
    ensures !Pack(keys, flight, at, room, seal).error
    ensures at.written < |flight| && room >= Enough(keys) ==> Pack(keys, flight, at, room, seal).pieces != []
    decreases |flight| - at.written
  {
    if at.written < |flight| {
      var a := TrySeal(keys, flight[at.written], at.offset, room, seal(at.written));
      TryContinues(flight, keys, at, room, seal(at.written));
      if a.result.Sealed? {
        SendableAfter(keys, flight, at, Next(at, a));
        PackSucceeds(keys, flight, Next(at, a), room - a.len, seal);
      }
    }
  }

  /** If the record layer never refuses and every message can be sent, the account
      holds, whatever the transport does. */
  lemma {:induction false} NeverLost(keys: Keys, flight: seq<Outgoing>, at: Position, mtu: nat,
        seal: nat -> nat -> Option<nat>, accept: nat -> int, k: nat)
    requires MidwayAt(flight, at) && AllSendable(keys, flight, at) && NeverRefuses(seal)
    ensures !Send(keys, flight, at, mtu, seal, accept, k).lost
    decreases |flight| - at.written, BytesLeft(flight, at)
  {
    if at.written < |flight| {
      var p := Pack(keys, flight, at, mtu, seal(k));
      PackCarries(keys, flight, at, mtu, seal(k), p);
      PackSucceeds(keys, flight, at, mtu, seal(k));
      if p.pieces != [] && accept(k) > 0 {
        SendableAfter(keys, flight, at, p.at);
        NeverLost(keys, flight, p.at, mtu, seal, accept, k + 1);
      }
    }
  }

  /** If nothing stands in the way, neither the room, nor the record layer, nor the
      transport, nor a message, one call sends the whole flight. */
  lemma {:induction false} SendsAll(keys: Keys, flight: seq<Outgoing>, at: Position, mtu: nat,
        seal: nat -> nat -> Option<nat>, accept: nat -> int, k: nat)
    requires MidwayAt(flight, at) && AllSendable(keys, flight, at) && mtu >= Enough(keys)
    requires NeverRefuses(seal) && forall j :: accept(j) > 0
    ensures Send(keys, flight, at, mtu, seal, accept, k).ret == 1
    decreases |flight| - at.written, BytesLeft(flight, at)
  {
    if at.written < |flight| {
      var p := Pack(keys, flight, at, mtu, seal(k));
      PackCarries(keys, flight, at, mtu, seal(k), p);
      PackSucceeds(keys, flight, at, mtu, seal(k));
      SendableAfter(keys, flight, at, p.at);
      SendsAll(keys, flight, p.at, mtu, seal, accept, k + 1);
    }
  }
}
