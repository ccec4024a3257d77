/** The sending side as an object: the outgoing flight and its position, the write
    epoch with its protection, and the MTU. */
module DtlsSender {
  import opened Options
  import opened Bytes
  import opened DtlsFragment
  import opened DtlsPacking

  /** The handshake messages of a flight are, in unfragmented form, messages of a
      history, each under its own number, in ascending order. */
  ghost predicate Numbers(history: seq<Message>, flight: seq<Outgoing>) {
    && |history| <= 0x1_0000 && (forall m <- history :: |m.body| < 0x100_0000)
    && forall i :: 0 <= i < |flight| && !flight[i].isCcs ==>
         && Stored(flight[i])
         && var k := HeaderOf(flight[i]).seqNum;
            k < |history| && flight[i].data == Raw(history[k], k)
            && HeaderOf(flight[i]).kind == history[k].kind && BodyOf(flight[i]) == history[k].body
  }

  lemma {:induction false} NumbersMore(history: seq<Message>, flight: seq<Outgoing>, m: Message, epoch: nat)
    requires Numbers(history, flight) && |history| < 0x1_0000 && |m.body| < 0x100_0000
    ensures Numbers(history + [m], flight + [Outgoing(Raw(m, |history|), epoch, false)])
  {
    RawIsStored(m, |history|, epoch);
  }

  /** What is true of a flight that is under way stays true when a message is added. */
  lemma {:induction false} StoreKeeps(history: seq<Message>, flight: seq<Outgoing>, m: Message, outgoing: Outgoing,
        at: Position, accepted: seq<Piece>)
    requires Numbers(history, flight) && |history| < 0x1_0000 && |m.body| < 0x100_0000 && MidwayAt(flight, at)
    requires outgoing == Outgoing(Raw(m, |history|), outgoing.epoch, false)
    ensures Numbers(history + [m], flight + [outgoing]) && MidwayAt(flight + [outgoing], at)
    ensures Carries(flight, Position(0, 0), accepted, at) ==>
              Carries(flight + [outgoing], Position(0, 0), accepted, at)
  {
    NumbersMore(history, flight, m, outgoing.epoch);
    if Carries(flight, Position(0, 0), accepted, at) {
      CarriesLonger(flight, [outgoing], Position(0, 0), accepted, at);
    }
  }

  /** What a sender stores can be sent while its write epoch is the current or the
      previous one. */
  lemma {:induction false} SendableIff(history: seq<Message>, flight: seq<Outgoing>, keys: Keys, at: Position)
    requires Numbers(history, flight) && MidwayAt(flight, at)
    ensures AllSendable(keys, flight, at)
            <==> forall i :: at.written <= i < |flight| ==>
                   flight[i].epoch == keys.epoch || flight[i].epoch + 1 == keys.epoch
  {
    forall i | at.written <= i < |flight|
      ensures Sendable(keys, flight[i], if i == at.written then at.offset else 0)
              <==> flight[i].epoch == keys.epoch || flight[i].epoch + 1 == keys.epoch
    {
    }
  }

  class Sender {
    var messages: seq<Outgoing>
    var complete: bool
    var written: nat
    var offset: nat
    var epoch: nat
    var mtu: nat
    var current: Protection
    var previous: Protection
    var writeSeq: nat
    /** Every message added so far, by its number. */
    ghost var history: seq<Message>
    /** What the datagrams carry that the transport accepted since the last rewind,
        and the length of each. */
    ghost var accepted: seq<Piece>
    ghost var lengths: seq<nat>
    /** The position has moved past pieces that were not sent. */
    ghost var broken: bool

    function At(): Position
      reads `written, `offset
    {
      Position(written, offset)
    }

    function Keyring(): Keys
      reads `epoch, `current, `previous
    {
      Keys(epoch, current, previous)
    }

    /** The accepted datagrams fit the MTU and, unless the account was lost, carry
        the flight up to the position. */
    ghost predicate Valid()
      reads this
    {
      ValidAt(At())
    }

    /** Valid, if the flight were at this position. */
    ghost predicate ValidAt(at: Position)
      reads this
    {
      && |messages| <= FLIGHT && MidwayAt(messages, at)
      && |history| == writeSeq && Numbers(history, messages)
      && AllWithin(lengths, mtu)
      && Account(at)
    }

    /** What was accepted carries the flight up to the position. */
    ghost predicate Account(at: Position)
      reads this
    {
      if broken then true else Carries(messages, Position(0, 0), accepted, at)
    }

    constructor ()
      ensures Valid() && messages == [] && history == [] && !complete && !broken && epoch == 0 && mtu == 0
    {
      messages, complete, written, offset, epoch, mtu, writeSeq := [], false, 0, 0, 0, 0, 0;
      current, previous := Aead(13, 13), Aead(13, 13);
      history, accepted, lengths, broken := [], [], [], false;
    }

    /** dtls_clear_outgoing_messages. */
    method Clear()
      modifies `messages, `complete, `written, `offset, `accepted, `lengths, `broken
      ensures messages == [] && !complete && At() == Position(0, 0) && accepted == [] && lengths == [] && !broken
    {
      messages, complete, written, offset := [], false, 0, 0;
      accepted, lengths, broken := [], [], false;
    }

    /** What add_outgoing leaves of the flight before: nothing, if it was sent. */
    ghost function FlightBefore(): seq<Outgoing>
      reads `messages, `complete
    {
      if complete then [] else messages
    }

    /** add_outgoing for a ChangeCipherSpec. The first message after a flight was
        sent starts a new one; within a flight the account goes on. */
    method AddChangeCipherSpec() returns (ok: bool)
      requires Valid()
      modifies `messages, `complete, `written, `offset, `accepted, `lengths, `broken
      ensures Valid() && !complete
      ensures ok == (|old(FlightBefore())| < FLIGHT)
      ensures messages == old(FlightBefore()) + (if ok then [Outgoing([], epoch, true)] else [])
      ensures if old(complete) then !broken && accepted == [] && At() == Position(0, 0)
              else broken == old(broken) && accepted == old(accepted) && At() == old(At())
    {
      if complete { Clear(); }
      if |messages| >= FLIGHT { return false; }
      Extend(Outgoing([], epoch, true));
      return true;
    }

    /** dtls1_init_message, dtls1_finish_message and add_outgoing for a handshake
        message: it is stored in unfragmented form under the next number. The 16-bit
        number is not allowed to wrap. */
    method AddMessage(kind: byte, body: seq<byte>) returns (ok: bool)
      requires Valid() && writeSeq < 0xffff
      modifies `messages, `complete, `written, `offset, `accepted, `lengths, `broken, `writeSeq, `history
      ensures Valid()
      ensures ok == (|body| < 0x100_0000 && |old(FlightBefore())| < FLIGHT)
      ensures history == old(history) + (if ok then [Message(kind, body)] else [])
      ensures if |body| >= 0x100_0000 then messages == old(messages) && complete == old(complete)
              else !complete && messages
                   == old(FlightBefore())
                      + (if ok then [Outgoing(Raw(Message(kind, body), old(writeSeq)), epoch, false)] else [])
      ensures if |body| < 0x100_0000 && old(complete) then !broken && accepted == [] && At() == Position(0, 0)
              else broken == old(broken) && accepted == old(accepted) && At() == old(At())
    {
      if |body| >= 0x100_0000 { return false; }
      var header := Header(kind, |body|, writeSeq, 0, |body|);
      var data := EncodeHeader(header) + body;
      if complete { Clear(); }
      if |messages| >= FLIGHT || |data| > 0xffff_ffff { return false; }
      Store(data, Message(kind, body));
      return true;
    }

    /** The end of add_outgoing, for a handshake message. */
    method Store(data: seq<byte>, ghost m: Message)
      requires Valid() && |messages| < FLIGHT && writeSeq < 0xffff
      requires |m.body| < 0x100_0000 && data == Raw(m, writeSeq)
      modifies `messages, `writeSeq, `history
      ensures Valid() && messages == old(messages) + [Outgoing(data, epoch, false)] && history == old(history) + [m]
    {
      var outgoing := Outgoing(data, epoch, false);
      StoreKeeps(history, messages, m, outgoing, At(), accepted);
      messages := messages + [outgoing];
      writeSeq := writeSeq + 1;
      history := history + [m];
    }

    method Extend(m: Outgoing)
      requires Valid() && |messages| < FLIGHT && m.isCcs
      modifies `messages
      ensures Valid() && messages == old(messages) + [m]
    {
      if !broken { CarriesLonger(messages, [m], Position(0, 0), accepted, At()); }
      messages := messages + [m];
    }

    /** dtls1_set_write_state. The epoch has 16 bits. */
    method SetWriteState(aead: Protection)
      requires Valid()
      modifies `epoch, `current, `previous
      ensures Valid() && Keyring() == Keys((old(epoch) + 1) % 0x1_0000, aead, old(current))
    {
      epoch := (epoch + 1) % 0x1_0000;
      previous := current;
      current := aead;
    }

    /** seal_next_message, for the next message, if dtls_seal_record gives this
        answer. */
    method SealNextMessage(maxOut: nat, answer: Option<nat>) returns (r: SealResult, len: nat, ghost piece: Piece)
      requires written < |messages| && MidwayAt(messages, At())
      modifies `offset
      ensures Attempt(r, len, piece) == TrySeal(Keyring(), messages[written], old(offset), maxOut, answer)
      ensures offset == match r
                        case Partial => old(offset) + |BytesOfPiece(piece)|
                        case Sealed => 0
                        case _ => old(offset)
    {
      piece := NOTHING;
      var m := messages[written];
      var aead := current;
      if epoch >= 1 && m.epoch == epoch - 1 {
        aead := previous;
      } else if m.epoch != epoch {
        return SealError, 0, piece;
      }
      if m.isCcs {
        if maxOut < 1 + aead.overhead { return NoProgress, 0, piece; }
        if answer.None? { return SealError, 0, piece; }
        return Sealed, RecordLen(aead, 1, answer.value), CcsPiece(m.epoch);
      }
      r, len, piece := SealFragment(m, aead, maxOut, answer);
    }

    /** The part of seal_next_message that is about a handshake message. */
    method SealFragment(m: Outgoing, aead: Protection, maxOut: nat, answer: Option<nat>)
      returns (r: SealResult, len: nat, ghost piece: Piece)
      requires !m.isCcs && (m.epoch == epoch || m.epoch + 1 == epoch) && aead == AeadFor(Keyring(), m)
      modifies `offset
      ensures Attempt(r, len, piece) == TrySeal(Keyring(), m, old(offset), maxOut, answer)
      ensures offset == match r
                        case Partial => old(offset) + |BytesOfPiece(piece)|
                        case Sealed => 0
                        case _ => old(offset)
    {
      len, piece := 0, NOTHING;
      var parsed := ParseFragment(m.data);
      if parsed.None? { return SealError, 0, piece; }
      var h, body := parsed.value.header, parsed.value.body;
      assert Sendable(Keyring(), m, offset)
             <==> h.fragOff == 0 && h.msgLen == |body| && offset <= |body| && parsed.value.rest == [];
      if h.fragOff != 0 || h.fragLen != |body| || h.msgLen != |body| || offset > |body| || |parsed.value.rest| != 0 {
        return SealError, 0, piece;
      }
      assert HeaderOf(m) == h && BodyOf(m) == body;
      if maxOut < HEADER_LEN + 1 + aead.overhead || maxOut < aead.prefix { return NoProgress, 0, piece; }
      var left := |body| - offset;
      var todo := left;
      if todo > maxOut - HEADER_LEN - aead.overhead { todo := maxOut - HEADER_LEN - aead.overhead; }
      if answer.None? { return SealError, 0, piece; }
      len := RecordLen(aead, HEADER_LEN + todo, answer.value);
      piece := FragmentPiece(m.epoch, h.(fragOff := offset, fragLen := todo), body[offset..offset + todo]);
      if todo == left {
        offset := 0;
        return Sealed, len, piece;
      }
      offset := offset + todo;
      return Partial, len, piece;
    }

    /** The same, and the message counts as written once all of it is sealed. */
    method SealOne(room: nat, answer: Option<nat>) returns (r: SealResult, len: nat, ghost piece: Piece)
      requires written < |messages| && MidwayAt(messages, At())
      modifies `written, `offset
      ensures
        var a := Attempt(r, len, piece);
        && a == TrySeal(Keyring(), messages[old(written)], old(offset), room, answer)
        && (r.Partial? ==> piece.FragmentPiece?)
        && At() == (if r.Partial? || r.Sealed? then Next(old(At()), a) else old(At()))
    {
      ghost var keys := Keyring();
      TryContinues(messages, keys, At(), room, answer);
      r, len, piece := SealNextMessage(room, answer);
      if r.Sealed? { written := written + 1; }
    }

    /** One turn of the loop of seal_next_packet. */
    method SealTurn(room: nat, answer: Option<nat>, ghost seal: nat -> Option<nat>, ghost packet: seq<Piece>,
          ghost total: nat, ghost whole: Packet)
      returns (r: SealResult, len: nat, ghost piece: Piece)
      requires written < |messages| && answer == seal(written)
      requires Builds(Keyring(), messages, At(), room, seal, packet, total, whole)
      modifies `written, `offset
      ensures r.Partial? || r.Sealed? ==> len <= room
      ensures match r
              case Sealed =>
                && written > old(written)
                && Builds(Keyring(), messages, At(), room - len, seal, packet + [piece], total + len, whole)
              case Partial => whole == Packet(At(), packet + [piece], total + len, false)
              case _ => whole == Packet(At(), packet, total, r.SealError?)
    {
      ghost var at, keys := At(), Keyring();
      ghost var a := TrySeal(keys, messages[written], offset, room, answer);
      PackStep(keys, messages, at, room, seal, a, packet, total, whole);
      r, len, piece := SealOne(room, answer);
      assert keys == Keyring();
    }

    /** seal_next_packet: as much of the flight as fits. `whole` is the packet that
        the calls for its messages will have built. */
    method SealNextPacket(maxOut: nat, seal: nat -> Option<nat>, ghost whole: Packet) returns (ok: bool, total: nat)
      requires written < |messages| && Builds(Keyring(), messages, At(), maxOut, seal, [], 0, whole)
      modifies `written, `offset
      ensures At() == whole.at && ok == (!whole.error && whole.pieces != []) && (ok ==> total == whole.total)
    {
      ghost var packet := [];
      var madeProgress, room := false, maxOut;
      total := 0;
      while written < |messages|
        invariant written <= |messages| && madeProgress == (packet != [])
        invariant Builds(Keyring(), messages, At(), room, seal, packet, total, whole)
        decreases |messages| - written
      {
        var r, len, piece := SealTurn(room, seal(written), seal, packet, total, whole);
        if r.SealError? { return false, 0; }
        if r.NoProgress? { break; }
        room := room - len;
        total := total + len;
        packet := packet + [piece];
        madeProgress := true;
        if r.Partial? { break; }
      }
      if !madeProgress { return false, 0; }
      return true, total;
    }

    /** dtls1_update_mtu. `queried` is what the transport answers. */
    method UpdateMtu(noQuery: bool, queried: int)
      requires Valid()
      modifies `mtu
      ensures Valid() && mtu == MtuAfter(old(mtu), noQuery, queried)
      ensures mtu == if old(mtu) >= 228 || noQuery then old(mtu)
                     else if 228 <= queried <= 0x4000_0000 then queried else 1472
    {
      if mtu < MIN_MTU && !noQuery {
        if 0 <= queried <= 0x4000_0000 && queried >= MIN_MTU { mtu := queried; } else { mtu := DEFAULT_MTU; }
      }
    }

    /** One turn of the loop of send_flight: builds a packet and offers it to the
        transport. A packet that is not accepted is built again the next time, from
        the position it started at; one that could not be built may have moved it. */
    method SendPacket(seal: nat -> Option<nat>, accepts: int, ghost p: Packet) returns (ret: int, sent: bool)
      requires written < |messages| && Builds(Keyring(), messages, At(), mtu, seal, [], 0, p)
      modifies `written, `offset, `broken, `accepted, `lengths
      ensures sent == (!p.error && p.pieces != [] && accepts > 0)
      ensures if sent then At() == p.at && accepted == old(accepted) + p.pieces && lengths == old(lengths) + [p.total]
              else accepted == old(accepted) && lengths == old(lengths)
      ensures !sent ==> if !p.error && p.pieces != [] then At() == old(At()) && ret == accepts
                        else At() == p.at && ret == -1
      ensures broken <==> old(broken) || (!sent && At() != old(At()))
    {
      ghost var at := At();
      var oldWritten, oldOffset := written, offset;
      var ok, len := SealNextPacket(mtu, seal, p);
      if !ok {
        broken := broken || At() != at;
        return -1, false;
      }
      if accepts <= 0 {
        written, offset := oldWritten, oldOffset;
        return accepts, false;
      }
      accepted := accepted + p.pieces;
      lengths := lengths + [len];
      return accepts, true;
    }

    /** The record layer never refuses, and every message left can be sent. */
    ghost predicate CanSend(seal: nat -> nat -> Option<nat>)
      reads `messages, `written, `offset, `epoch, `current, `previous
    {
      NeverRefuses(seal) && AllSendable(Keyring(), messages, At())
    }

    /** What a call of send_flight does, by what the record layer and the transport
        answer. */
    ghost function Outcome(mtu: nat, seal: nat -> nat -> Option<nat>, accept: nat -> int): Sending
      requires MidwayAt(messages, At())
      reads `messages, `written, `offset, `epoch, `current, `previous
    {
      Send(Keyring(), messages, At(), mtu, seal, accept, 0)
    }

    /** One turn of the loop of send_flight. `whole` is what the call will have done. */
    method SendTurn(k: nat, seal: nat -> nat -> Option<nat>, accept: nat -> int, ghost whole: Sending)
      returns (ret: int, sent: bool)
      requires written < |messages| && MidwayAt(messages, At())
      requires Sends(Keyring(), messages, At(), mtu, seal, accept, k, accepted, lengths, whole)
      modifies `written, `offset, `broken, `accepted, `lengths
      ensures sent ==>
                && broken == old(broken) && MidwayAt(messages, At())
                && Sends(Keyring(), messages, At(), mtu, seal, accept, k + 1, accepted, lengths, whole)
                && (written > old(written) || (written == old(written) && Left() < old(Left())))
      ensures !sent ==> whole == Sending(At(), accepted, lengths, ret, whole.lost) && ret <= 0
      ensures !sent ==> (broken <==> old(broken) || whole.lost)
    {
      ghost var at, keys := At(), Keyring();
      ghost var p := Pack(keys, messages, at, mtu, seal(k));
      SendStep(keys, messages, at, mtu, seal, accept, k, p, accepted, lengths, whole);
      ret, sent := SendPacket(seal(k), accept(k), p);
      assert keys == Keyring();
    }

    /** The bytes still to be sent of the next message. */
    ghost function Left(): (n: int)
      reads `messages, `written, `offset
      ensures MidwayAt(messages, At()) ==> n >= 0
    {
      BytesLeft(messages, At())
    }

    /** The loop of send_flight. */
    method SendLoop(seal: nat -> nat -> Option<nat>, accept: nat -> int, ghost whole: Sending) returns (ret: int)
      requires MidwayAt(messages, At())
      requires Sends(Keyring(), messages, At(), mtu, seal, accept, 0, accepted, lengths, whole)
      modifies `written, `offset, `broken, `accepted, `lengths
      ensures whole == Sending(At(), accepted, lengths, ret, whole.lost)
      ensures broken <==> old(broken) || whole.lost
    {
      var k := 0;
      while written < |messages|
        invariant MidwayAt(messages, At()) && broken == old(broken)
        invariant Sends(Keyring(), messages, At(), mtu, seal, accept, k, accepted, lengths, whole)
        decreases |messages| - written, Left()
      {
        var r, sent := SendTurn(k, seal, accept, whole);
        if !sent { return r; }
        k := k + 1;
      }
      SendEnds(Keyring(), messages, At(), mtu, seal, accept, k, accepted, lengths, whole);
      return 1;
    }

    /** The loop of send_flight, from a valid state. */
    method SendRest(seal: nat -> nat -> Option<nat>, accept: nat -> int) returns (ret: int)
      requires Valid()
      modifies `written, `offset, `broken, `accepted, `lengths
      ensures Valid()
      ensures
        var s := old(Outcome(mtu, seal, accept));
        && At() == s.at && accepted == old(accepted) + s.pieces && lengths == old(lengths) + s.lengths
        && (broken <==> old(broken) || s.lost) && ret == s.ret
      ensures ret > 0 ==> broken == old(broken) && At() == Position(|messages|, 0)
      ensures old(CanSend(seal)) ==> broken == old(broken)
    {
      ghost var s := Outcome(mtu, seal, accept);
      SendGoesOn(Keyring(), messages, At(), mtu, seal, accept, broken, accepted, lengths, s);
      ret := SendLoop(seal, accept, Sent(accepted, lengths, s));
    }

    /** send_flight. The datagrams accepted since the last rewind carry the flight up
        to the position, and after a success all of it, unless this or an earlier call
        gave up a packet in its middle. */
    method SendFlight(shutdown: bool, noQuery: bool, queried: int, seal: nat -> nat -> Option<nat>, accept: nat -> int,
          flushes: bool)
      returns (ret: int)
      requires Valid()
      modifies `written, `offset, `broken, `accepted, `lengths, `mtu
      ensures Valid()
      ensures shutdown ==> ret == -1 && At() == old(At()) && accepted == old(accepted) && lengths == old(lengths)
                           && broken == old(broken) && mtu == old(mtu)
      ensures !shutdown ==>
                var s := old(Outcome(MtuAfter(mtu, noQuery, queried), seal, accept));
                && mtu == MtuAfter(old(mtu), noQuery, queried)
                && At() == s.at && accepted == old(accepted) + s.pieces && lengths == old(lengths) + s.lengths
                && (broken <==> old(broken) || s.lost)
                && ret == (if s.ret > 0 && !flushes then -1 else s.ret)
      ensures ret > 0 ==> broken == old(broken) && At() == Position(|messages|, 0)
      ensures old(CanSend(seal)) ==> broken == old(broken)
    {
      if shutdown { return -1; }
      UpdateMtu(noQuery, queried);
      ret := SendRest(seal, accept);
      if ret > 0 && !flushes { ret := -1; }
    }

    /** dtls1_flush_flight: the flight is complete, and the next message added starts
        another. */
    method FlushFlight(shutdown: bool, noQuery: bool, queried: int, seal: nat -> nat -> Option<nat>,
          accept: nat -> int, flushes: bool)
      returns (ret: int)
      requires Valid()
      modifies `complete, `written, `offset, `broken, `accepted, `lengths, `mtu
      ensures Valid() && complete
      ensures shutdown ==> ret == -1 && At() == old(At()) && accepted == old(accepted) && lengths == old(lengths)
                           && broken == old(broken) && mtu == old(mtu)
      ensures !shutdown ==>
                var s := old(Outcome(MtuAfter(mtu, noQuery, queried), seal, accept));
                && mtu == MtuAfter(old(mtu), noQuery, queried)
                && At() == s.at && accepted == old(accepted) + s.pieces && lengths == old(lengths) + s.lengths
                && (broken <==> old(broken) || s.lost)
                && ret == (if s.ret > 0 && !flushes then -1 else s.ret)
      ensures ret > 0 ==> broken == old(broken) && At() == Position(|messages|, 0)
      ensures old(CanSend(seal)) ==> broken == old(broken)
    {
      complete := true;
      ret := SendFlight(shutdown, noQuery, queried, seal, accept, flushes);
    }

    method Rewind()
      requires Valid()
      modifies `written, `offset, `broken, `accepted, `lengths
      ensures Valid() && At() == Position(0, 0) && accepted == [] && lengths == [] && !broken
    {
      written, offset := 0, 0;
      accepted, lengths, broken := [], [], false;
    }

    /** dtls1_retransmit_outgoing_messages: from the start of the flight again. After a
        success the datagrams of this call carry the whole flight, whatever happened
        before. */
    method Retransmit(shutdown: bool, noQuery: bool, queried: int, seal: nat -> nat -> Option<nat>, accept: nat -> int,
          flushes: bool)
      returns (ret: int)
      requires Valid()
      modifies `written, `offset, `broken, `accepted, `lengths, `mtu
      ensures Valid()
      ensures shutdown ==> ret == -1 && At() == Position(0, 0) && accepted == []
      ensures !shutdown ==>
                var limit := MtuAfter(old(mtu), noQuery, queried);
                var s := Send(Keyring(), messages, Position(0, 0), limit, seal, accept, 0);
                && At() == s.at && accepted == s.pieces && lengths == s.lengths && broken == s.lost
                && ret == (if s.ret > 0 && !flushes then -1 else s.ret)
      ensures ret > 0 ==> !broken && Carries(messages, Position(0, 0), accepted, Position(|messages|, 0))
      ensures NeverRefuses(seal) && AllSendable(Keyring(), messages, Position(0, 0)) ==> !broken
    {
      Rewind();
      assert Outcome(MtuAfter(mtu, noQuery, queried), seal, accept)
             == Send(Keyring(), messages, Position(0, 0), MtuAfter(mtu, noQuery, queried), seal, accept, 0);
      ret := SendFlight(shutdown, noQuery, queried, seal, accept, flushes);
    }
  }
}
