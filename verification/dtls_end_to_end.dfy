/** From the sender's flight to the receiver's messages. */
module DtlsEndToEnd {
  import opened Bytes
  import opened DtlsFragment
  import opened DtlsPacking
  import opened DtlsRun
  import D = DtlsDelivery
  import R = DtlsRing
  import S = DtlsSender
  import V = DtlsReceiver

  /** The bytes of the fragments, in order. */
  function Payload(pieces: seq<Piece>): seq<byte> {
    if pieces == [] then [] else Carried(pieces[0]) + Payload(pieces[1..])
  }

  function Carried(x: Piece): seq<byte> { if x.FragmentPiece? then x.body else [] }

  predicate AllStored(flight: seq<Outgoing>) { forall i :: 0 <= i < |flight| && !flight[i].isCcs ==> Stored(flight[i]) }

  function BytesOf(m: Outgoing): seq<byte>
    requires !m.isCcs ==> Stored(m)
  {
    if m.isCcs then [] else BodyOf(m)
  }

  predicate Within(flight: seq<Outgoing>, at: Position)
    requires AllStored(flight)
  {
    at.written <= |flight| && (at.offset > 0 ==> at.written < |flight| && at.offset <= |BytesOf(flight[at.written])|)
  }

  /** The message bytes of a flight from a position on. */
  function Remaining(flight: seq<Outgoing>, at: Position): seq<byte>
    requires AllStored(flight) && Within(flight, at)
    decreases |flight| - at.written
  {
    if at.written == |flight| then []
    else BytesOf(flight[at.written])[at.offset..] + Remaining(flight, Position(at.written + 1, 0))
  }

  lemma {:induction false} RemainingAt(flight: seq<Outgoing>, at: Position, bytes: seq<byte>, rest: seq<byte>)
    requires AllStored(flight) && at.written < |flight| && Within(flight, at)
    requires bytes == BytesOf(flight[at.written]) && rest == Remaining(flight, Position(at.written + 1, 0))
    ensures at.offset <= |bytes| && Remaining(flight, at) == bytes[at.offset..] + rest
  {
  }

  lemma {:induction false} Cut(bytes: seq<byte>, a: nat, b: nat, rest: seq<byte>)
    requires a <= b <= |bytes|
    ensures bytes[a..b] + (bytes[b..] + rest) == bytes[a..] + rest
    ensures b == |bytes| ==> bytes[b..] + rest == rest
  {
  }

  /** A piece carries a part of its message, and the position moves behind it. */
  lemma {:induction false} CarriesPart(flight: seq<Outgoing>, from: Position, x: Piece, bytes: seq<byte>, end: nat)
    requires AllStored(flight) && Continues(flight, from, x) && bytes == BytesOf(flight[from.written])
    requires end == from.offset + |Carried(x)|
    ensures end <= |bytes| && Carried(x) == bytes[from.offset..end]
    ensures After(flight, from, x)
            == if end == |bytes| then Position(from.written + 1, 0) else Position(from.written, end)
  {
  }

  lemma {:induction false} OneConserved(flight: seq<Outgoing>, from: Position, x: Piece, next: Position)
    requires AllStored(flight) && Within(flight, from) && Continues(flight, from, x) && next == After(flight, from, x)
    ensures Within(flight, next) && Carried(x) + Remaining(flight, next) == Remaining(flight, from)
  {
    var bytes, rest := BytesOf(flight[from.written]), Remaining(flight, Position(from.written + 1, 0));
    RemainingAt(flight, from, bytes, rest);
    var end := from.offset + |Carried(x)|;
    CarriesPart(flight, from, x, bytes, end);
    Cut(bytes, from.offset, end, rest);
    if end < |bytes| { RemainingAt(flight, next, bytes, rest); }
  }

  lemma {:induction false} Chain(a: seq<byte>, b: seq<byte>, r0: seq<byte>, r1: seq<byte>, r2: seq<byte>)
    requires a + r1 == r0 && b + r2 == r1
    ensures (a + b) + r2 == r0
  {
  }

  /** Sending conserves the flight: what the pieces carry, followed by what is
      still to be sent, is the flight. */
  lemma {:induction false} PayloadConserved(flight: seq<Outgoing>, from: Position, pieces: seq<Piece>, to: Position)
    requires AllStored(flight) && Within(flight, from) && Carries(flight, from, pieces, to)
    ensures Within(flight, to) && Payload(pieces) + Remaining(flight, to) == Remaining(flight, from)
    decreases |pieces|
  {
    if pieces != [] {
      var next := After(flight, from, pieces[0]);
      OneConserved(flight, from, pieces[0], next);
      PayloadConserved(flight, next, pieces[1..], to);
      Chain(Carried(pieces[0]), Payload(pieces[1..]), Remaining(flight, from), Remaining(flight, next),
            Remaining(flight, to));
    }
  }

  /** A full pass carries exactly the flight's messages. */
  lemma {:induction false} FullPass(flight: seq<Outgoing>, pieces: seq<Piece>)
    requires AllStored(flight) && Carries(flight, Position(0, 0), pieces, Position(|flight|, 0))
    ensures Payload(pieces) == Remaining(flight, Position(0, 0))
  {
    PayloadConserved(flight, Position(0, 0), pieces, Position(|flight|, 0));
  }

  /** The sender's numbered messages, as the receiver needs them. */
  lemma {:induction false} NumbersStored(messages: seq<Message>, flight: seq<Outgoing>)
    requires S.Numbers(messages, flight)
    ensures D.ValidFlight(messages) && AllStored(flight)
  {
  }

  lemma {:induction false} PieceIsCut(messages: seq<Message>, flight: seq<Outgoing>, at: Position, x: Piece)
    requires S.Numbers(messages, flight) && Continues(flight, at, x) && x.FragmentPiece?
    ensures D.CutFrom(messages, x.header, x.body)
  {
  }

  /** Every fragment sent was cut from its message. */
  lemma {:induction false} PiecesAreCut(messages: seq<Message>, flight: seq<Outgoing>, from: Position,
        pieces: seq<Piece>, to: Position, j: nat)
    requires S.Numbers(messages, flight) && Carries(flight, from, pieces, to)
    requires j < |pieces| && pieces[j].FragmentPiece?
    ensures D.CutFrom(messages, pieces[j].header, pieces[j].body)
    decreases |pieces|
  {
    if j == 0 { PieceIsCut(messages, flight, from, pieces[0]); }
    else { PiecesAreCut(messages, flight, After(flight, from, pieces[0]), pieces[1..], to, j - 1); }
  }

  predicate Before(a: Position, b: Position) {
    a.written < b.written || (a.written == b.written && a.offset <= b.offset)
  }

  /** The piece carries byte p of message i (or is the only fragment of an empty one). */
  predicate CarriesByte(flight: seq<Outgoing>, x: Piece, i: nat, p: nat)
    requires AllStored(flight) && i < |flight| && !flight[i].isCcs
  {
    && x.FragmentPiece? && x.header.seqNum == HeaderOf(flight[i]).seqNum
    && x.header.fragOff <= p && (p < x.header.fragOff + x.header.fragLen || BodyOf(flight[i]) == [])
  }

  /** Every byte between the two positions is in some piece. */
  lemma {:induction false} EveryByteSent(flight: seq<Outgoing>, from: Position, pieces: seq<Piece>, to: Position,
        i: nat, p: nat)
    returns (j: nat)
    requires AllStored(flight) && Carries(flight, from, pieces, to)
    requires i < |flight| && !flight[i].isCcs && (p < |BodyOf(flight[i])| || (p == 0 && BodyOf(flight[i]) == []))
    requires Before(from, Position(i, p)) && i < to.written
    ensures j < |pieces| && CarriesByte(flight, pieces[j], i, p)
    decreases |pieces|
  {
    var next := After(flight, from, pieces[0]);
    if Before(next, Position(i, p)) {
      j := EveryByteSent(flight, next, pieces[1..], to, i, p);
      j := j + 1;
    } else {
      j := 0;
    }
  }

  /** Every fragment was cut from its message. */
  predicate AllCut(messages: seq<Message>, pieces: seq<Piece>) {
    forall j :: 0 <= j < |pieces| && pieces[j].FragmentPiece? ==>
      D.CutFrom(messages, pieces[j].header, pieces[j].body)
  }

  lemma {:induction false} SentIsCut(messages: seq<Message>, flight: seq<Outgoing>, pieces: seq<Piece>, to: Position)
    requires S.Numbers(messages, flight) && Carries(flight, Position(0, 0), pieces, to)
    ensures AllCut(messages, pieces)
  {
    forall j | 0 <= j < |pieces| && pieces[j].FragmentPiece?
      ensures D.CutFrom(messages, pieces[j].header, pieces[j].body)
    {
      PiecesAreCut(messages, flight, Position(0, 0), pieces, to, j);
    }
  }

  /** Every fragment that arrives is one that was sent. */
  predicate FromPieces(pieces: seq<Piece>, events: seq<Event>) {
    forall i :: 0 <= i < |events| && events[i].Arrives? ==>
      exists j :: 0 <= j < |pieces| && pieces[j].FragmentPiece?
                  && pieces[j].header == events[i].header && pieces[j].body == events[i].body
  }

  lemma {:induction false} FromCutIsHonest(messages: seq<Message>, pieces: seq<Piece>, events: seq<Event>)
    requires AllCut(messages, pieces) && FromPieces(pieces, events)
    ensures D.AllHonest(messages, events)
  {
  }

  /** A fragment with this header reached the receiver's window. */
  predicate Reached(events: seq<Event>, maxLen: nat, h: Header)
    requires AllFit(events)
    decreases |events|
  {
    events != [] &&
      var before, e := events[..|events| - 1], events[|events| - 1];
      Reached(before, maxLen, h)
      || (D.Reaches(Run(before, maxLen), e, maxLen, h.seqNum) && e.header == h)
  }

  lemma {:induction false} ReachedCovers(events: seq<Event>, maxLen: nat, h: Header, p: nat)
    requires AllFit(events) && Reached(events, maxLen, h)
    ensures D.Seen(events, maxLen, h.seqNum)
    ensures h.fragOff <= p < h.fragOff + h.fragLen ==> D.Covered(events, maxLen, h.seqNum, p)
    decreases |events|
  {
    var before := events[..|events| - 1];
    if Reached(before, maxLen, h) { ReachedCovers(before, maxLen, h, p); }
  }

  /** End to end: whatever the MTUs and the retries that cut the flight into these
      pieces, and whatever order and repetition they arrive in, once all pieces of
      the receiver's next message have reached its window the message is complete,
      and its bytes are the ones the sender stored and hashed. */
  lemma {:induction false} FlightArrives(messages: seq<Message>, flight: seq<Outgoing>, pieces: seq<Piece>,
        events: seq<Event>, maxLen: nat, r: R.Ring, i: nat)
    requires S.Numbers(messages, flight) && Carries(flight, Position(0, 0), pieces, Position(|flight|, 0))
    requires D.AllHonest(messages, events) && r == Run(events, maxLen).ring
    requires i < |flight| && !flight[i].isCcs && HeaderOf(flight[i]).seqNum == r.next
    requires AllReached(events, maxLen, pieces, r.next)
    ensures R.CurrentComplete(r) && R.Current(r).data == flight[i].data
  {
    NumbersStored(messages, flight);
    var body := BodyOf(flight[i]);
    forall p | 0 <= p < |body| ensures D.Covered(events, maxLen, r.next, p) {
      var j := EveryByteSent(flight, Position(0, 0), pieces, Position(|flight|, 0), i, p);
      ReachedCovers(events, maxLen, pieces[j].header, p);
    }
    var j := EveryByteSent(flight, Position(0, 0), pieces, Position(|flight|, 0), i, 0);
    ReachedCovers(events, maxLen, pieces[j].header, 0);
    D.CompleteIffCovered(messages, events, maxLen, r);
  }

  /** All fragments of message k among the pieces reached the window. */
  predicate AllReached(events: seq<Event>, maxLen: nat, pieces: seq<Piece>, k: nat)
    requires AllFit(events)
  {
    forall j :: 0 <= j < |pieces| && pieces[j].FragmentPiece? && pieces[j].header.seqNum == k ==>
      Reached(events, maxLen, pieces[j].header)
  }

  /** Every message that a receiver has taken is the sender's, if nothing arrived but
      what was sent. */
  lemma {:induction false} ReceiverHasHistory(s: S.Sender, sent: seq<Piece>, x: V.Receiver, k: nat)
    requires s.Valid() && x.Valid() && AllCut(s.history, sent) && FromPieces(sent, x.events) && k < x.readSeq
    ensures k < |s.history| && x.delivered[k] == Raw(s.history[k], k)
  {
    FromCutIsHonest(s.history, sent, x.events);
    D.DeliversTheFlight(s.history, x.events, x.maxLen);
  }

  /** A sender and a receiver: after a flush or a retransmission that succeeded and lost
      nothing, the receiver can hand out its next message, as the sender stored it,
      once all of it that the transport accepted has reached the window. */
  lemma {:induction false} SentFlightArrives(s: S.Sender, earlier: seq<Piece>, x: V.Receiver, i: nat)
    requires s.Valid() && !s.broken && s.At() == Position(|s.messages|, 0)
    requires x.Valid() && AllCut(s.history, earlier) && FromPieces(earlier + s.accepted, x.events)
    requires i < |s.messages| && !s.messages[i].isCcs && HeaderOf(s.messages[i]).seqNum == x.readSeq
    requires AllReached(x.events, x.maxLen, s.accepted, x.readSeq)
    ensures R.CurrentComplete(x.View())
    ensures R.Current(x.View()).data == s.messages[i].data == Raw(s.history[x.readSeq], x.readSeq)
  {
    SentIsCut(s.history, s.messages, s.accepted, Position(|s.messages|, 0));
    assert AllCut(s.history, earlier + s.accepted);
    FromCutIsHonest(s.history, earlier + s.accepted, x.events);
    FlightArrives(s.history, s.messages, s.accepted, x.events, x.maxLen, x.View(), i);
  }

  /** A record that carries one fragment is read as that fragment. */
  lemma {:induction false} RecordOfPiece(r: R.Ring, epoch: nat, maxLen: nat, x: Piece)
    requires R.Valid(r) && x.FragmentPiece? && x.header.Fits() && |x.body| == x.header.fragLen
    ensures R.ReadRecord(r, epoch, maxLen, EncodeHeader(x.header) + x.body)
            == R.ReadFragment(r, epoch, maxLen, x.header, x.body)
  {
    var record := EncodeHeader(x.header) + x.body;
    ParseEncoded(x.header, x.body, []);
    assert record + [] == record;
    var step := R.ReadFragment(r, epoch, maxLen, x.header, x.body);
    assert R.ReadRecord(step.1, epoch, maxLen, []) == (R.Success, step.1);
  }
}
