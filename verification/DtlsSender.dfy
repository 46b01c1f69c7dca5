/** The outgoing flight of DTLS in the heap: adding messages, sealing them into packets,
    handing the packets to a transport that may refuse them, and sending again. */
module DtlsSender {
  import opened ByteString
  import opened DtlsFragment
  import opened DtlsRecord
  import opened DtlsWriter
  import opened DtlsFlight
  import opened DtlsPacket
  import opened DtlsWriteSide

  const MAX_FLIGHT: nat := 7

  /** A datagram transport: every packet is taken whole or not at all, as it likes. A steady
      one takes them all. What has been accepted may have to be flushed to go out. */
  class Transport {
    const steady: bool
    ghost var accepted: seq<seq<byte>>
    ghost var flushed: nat

    constructor (steady: bool)
      ensures accepted == [] && flushed == 0 && this.steady == steady
    {
      this.steady, accepted, flushed := steady, [], 0;
    }

    method Write(packet: seq<byte>) returns (ret: int)
      modifies this`accepted
      ensures accepted == if ret > 0 then old(accepted) + [packet] else old(accepted)
      ensures steady ==> ret > 0
    {
      ret := *;
      if steady && ret <= 0 {
        ret := 1;
      }
      if ret > 0 {
        accepted := accepted + [packet];
      }
    }

    method Flush() returns (ret: int)
      modifies this`flushed
      ensures flushed == if ret > 0 then |accepted| else old(flushed)
      ensures steady ==> ret > 0
    {
      ret := *;
      if steady {
        ret := 1;
      }
      if ret > 0 {
        flushed := |accepted|;
      }
    }
  }

  datatype SealResult = SealFailed | SealNoProgress | SealPartial | SealSuccess

  /** What a sealing method did is what the attempt says. */
  ghost predicate Took(a: Attempt, w: Writer, w': Writer, offset: nat, offset': nat,
                       result: SealResult, record: seq<byte>, sent: Sent)
  {
    match a
    case SealError(x) => result == SealFailed && w' == x && offset' == offset
    case NoProgress => result == SealNoProgress && w' == w && offset' == offset
    case Progress(x, s, done) =>
      && result == (if done then SealSuccess else SealPartial)
      && w' == x && sent == s && record == s.record
      && offset' == if done then 0 else offset + s.piece.len
  }

  function Concat(packets: seq<seq<byte>>): seq<byte> {
    if packets == [] then [] else Concat(packets[..|packets| - 1]) + packets[|packets| - 1]
  }

  /** The members of `DTLS1_STATE` that hold the outgoing flight. */
  class Sender {
    const messages: array<OutMessage>
    var len: nat
    var written: nat
    var offset: nat
    var complete: bool
    var writeSeq: nat
    const write: WriteSide
    /** Every handshake message added, in the form it was hashed in. */
    ghost var transcript: seq<seq<byte>>

    ghost predicate Valid()
      reads this, messages, write, write.writeSequence, write.lastWriteSequence
    {
      && messages.Length == MAX_FLIGHT && len <= MAX_FLIGHT && writeSeq < U16
      && write.Valid() && SizedWriter(write.View())
      && GoodPosition(Msgs(), Pos())
    }

    function Msgs(): seq<OutMessage>
      requires len <= messages.Length
      reads this, messages
    {
      messages[..len]
    }

    function Pos(): Position
      reads this
    {
      Position(written, offset)
    }

    /** All of the flight from the position on can be sealed into packets of that size. */
    ghost predicate Ready(pos: Position, mtu: nat)
      requires Valid()
      reads this, messages, write, write.writeSequence, write.lastWriteSequence
    {
      Healthy(write.View(), Msgs(), pos) && RoomForAll(write.View(), Msgs(), mtu)
    }

    constructor (write: WriteSide)
      requires write.Valid() && SizedWriter(write.View())
      ensures Valid() && this.write == write && len == 0 && !complete && writeSeq == 0 && transcript == []
    {
      messages := new OutMessage[MAX_FLIGHT](_ => OutMessage([], 0, false));
      len, written, offset, complete, writeSeq := 0, 0, 0, false, 0;
      this.write := write;
      transcript := [];
    }

    /** `dtls_clear_outgoing_messages`. */
    method Clear()
      requires Valid()
      modifies this`len, this`written, this`offset, this`complete
      ensures Valid() && len == 0 && Pos() == Position(0, 0) && !complete
    {
      len, written, offset, complete := 0, 0, 0, false;
    }

    /** `add_outgoing`. Adding to a flight that was completed starts a new one. */
    method AddOutgoing(isCcs: bool, data: seq<byte>) returns (ok: bool)
      requires Valid()
      modifies this, messages
      ensures Valid()
      ensures ok <==> (old(complete) || old(len) < MAX_FLIGHT) && |data| <= 0xffff_ffff
      ensures ok ==>
                && Msgs() == (if old(complete) then [] else old(Msgs())) + [OutMessage(data, write.epoch, isCcs)]
                && transcript == old(transcript) + (if isCcs then [] else [data])
                && writeSeq == (if isCcs then old(writeSeq) else (old(writeSeq) + 1) % U16)
                && Pos() == (if old(complete) then Position(0, 0) else old(Pos()))
                && !complete
      ensures !ok ==> transcript == old(transcript) && writeSeq == old(writeSeq)
      ensures !ok ==> Msgs() == if old(complete) then [] else old(Msgs())
    {
      hide ContentOf, SizedWriter;
      if complete {
        Clear();
      }
      if len >= MAX_FLIGHT || |data| > 0xffff_ffff {
        return false;
      }
      if !isCcs {
        transcript := transcript + [data];
        writeSeq := (writeSeq + 1) % U16;
      }
      messages[len] := OutMessage(data, write.epoch, isCcs);
      len := len + 1;
      return true;
    }

    /** `seal_next_message`: moves `offset`, but not `written`, which the caller counts up. */
    method SealNextMessage(maxOut: nat) returns (result: SealResult, record: seq<byte>, ghost sent: Sent)
      requires Valid() && written < len
      modifies this`offset, write.writeSequence, write.lastWriteSequence
      ensures write.Valid()
      ensures var a := DtlsPacket.SealNextMessage(old(write.View()), Msgs(), old(Pos()), maxOut);
              Took(a, old(write.View()), write.View(), old(offset), offset, result, record, sent)
    {
      hide SealRecord, Sized, PlaintextOf, DtlsPacket.SealPiece, ContentOf, WriteSide.View;
      record := [];
      sent := Sent(Piece(0, 0, 0), Context(0, 0, []), []);
      AttemptShape(write.View(), Msgs(), Pos(), maxOut);
      var msg := messages[written];
      var use := UseFor(write.View(), msg.epoch);
      if use.None? {
        return SealFailed, record, sent;
      }
      var overhead := RT_HEADER_LENGTH + AeadFor(write.View(), use.value).MaxOverhead();
      if msg.isCcs {
        if maxOut < 1 + overhead {
          return SealNoProgress, record, sent;
        }
        result, record, sent := SealPiece(Piece(written, 0, 0), use.value, maxOut);
        return;
      }
      var c := ContentOf(msg);
      if c.Unusable? || offset > |c.body| {
        return SealFailed, record, sent;
      }
      // What is left of the body, or as much of it as the room allows.
      if maxOut < HM_HEADER_LENGTH + 1 + overhead {
        return SealNoProgress, record, sent;
      }
      var todo := |c.body| - offset;
      if todo > maxOut - HM_HEADER_LENGTH - overhead {
        todo := maxOut - HM_HEADER_LENGTH - overhead;
      }
      result, record, sent := SealPiece(Piece(written, offset, todo), use.value, maxOut);
    }

    /** Assembles a fragment, or a ChangeCipherSpec, and seals it. */
    method SealPiece(p: Piece, use: UseEpoch, maxOut: nat) returns (result: SealResult, record: seq<byte>, ghost sent: Sent)
      requires Valid() && GoodPiece(Msgs(), p) && (use.Previous? ==> write.epoch >= 1) && p.off == offset
      modifies this`offset, write.writeSequence, write.lastWriteSequence
      ensures write.Valid()
      ensures var a := DtlsPacket.SealPiece(old(write.View()), Msgs(), p, use, maxOut);
              Took(a, old(write.View()), write.View(), old(offset), offset, result, record, sent)
    {
      hide SealRecord, Sized, FragmentBytes, ContextFor, ContentOf, WriteSide.View, GoodPosition;
      var msg := messages[p.index];
      var recordType := if msg.isCcs then RT_CHANGE_CIPHER_SPEC else RT_HANDSHAKE;
      var plaintext := [MT_CCS];
      if !msg.isCcs {
        plaintext := FragmentBytes(ContentOf(msg), p.off, p.len);
      }
      sent := Sent(p, ContextFor(write.View(), use, recordType), []);
      var sealed: Option<seq<byte>>;
      ghost var used: bool;
      sealed, used := write.SealRecord(use, recordType, plaintext, maxOut);
      if sealed.None? {
        return SealFailed, [], sent;
      }
      record := sealed.value;
      sent := sent.(record := record);
      if msg.isCcs {
        return SealSuccess, record, sent;
      }
      if p.off + p.len == |ContentOf(msg).body| {
        offset := 0;
        return SealSuccess, record, sent;
      }
      offset := offset + p.len;
      return SealPartial, record, sent;
    }

    /** `seal_next_packet`. */
    method SealNextPacket(mtu: nat) returns (ok: bool, packet: seq<byte>, ghost sent: seq<Sent>)
      requires Valid() && written < len
      modifies this`written, this`offset, write.writeSequence, write.lastWriteSequence
      ensures Valid()
      ensures Packed(ok, write.View(), Pos(), sent)
           == DtlsPacket.SealNextPacket(old(write.View()), Msgs(), old(Pos()), mtu, false)
      ensures packet == Records(sent)
    {
      hide DtlsPacket.SealNextMessage, DtlsPacket.SealNextPacket, SizedWriter, GoodPosition, IsNext,
           WriteSide.View, Continued, GoodPiece, Behind, SameKeys, Records;
      var progress, maxOut := false, mtu;
      packet, sent := [], [];
      NoRecords();
      ghost var whole := DtlsPacket.SealNextPacket(write.View(), Msgs(), Pos(), mtu, false);
      NothingYet(write.View(), Msgs(), Pos(), mtu);
      while written < len
        invariant Valid() && written <= len && packet == Records(sent)
        invariant whole == Continued(write.View(), Msgs(), Pos(), maxOut, progress, sent)
        decreases len - written
      {
        AttemptIsNext(write.View(), Msgs(), Pos(), maxOut);
        ContinuedBy(write.View(), Msgs(), Pos(), maxOut, progress, sent);
        var result, record;
        ghost var s: Sent;
        result, record, s := SealNextMessage(maxOut);
        match result {
          case SealFailed => return false, packet, sent;
          case SealNoProgress => break;
          case _ =>
        }
        RecordsJoin(sent, [s]);
        OneRecord(s);
        packet, sent := packet + record, sent + [s];
        maxOut, progress := maxOut - |record|, true;
        if result == SealPartial {
          break;
        }
        written := written + 1;
      }
      if written == len {
        NothingLeft(write.View(), Msgs(), Pos(), maxOut, progress, sent);
      }
      assert whole == Packed(progress, write.View(), Pos(), sent);
      if !progress {
        return false, packet, sent;
      }
      return true, packet, sent;
    }

    /** `send_flight`. A packet the transport refuses is tried again the next time. However
        often it is interrupted, what was accepted carries on without a gap or an overlap,
        and when it returns 1 the end of the flight has been reached. */
    method SendFlight(mtu: nat, transport: Transport)
      returns (ret: int, ghost sealed: bool, ghost sent: seq<Sent>, ghost packets: seq<seq<byte>>)
      requires Valid() && mtu >= MIN_MTU
      modifies this`written, this`offset, write.writeSequence, write.lastWriteSequence, transport
      ensures Valid() && SameKeys(old(write.View()), write.View())
      ensures transport.accepted == old(transport.accepted) + packets
      ensures if sealed then Went(old(write.View()), Msgs(), old(Pos()), Pos(), mtu, sent, packets)
              else exists pos :: Went(old(write.View()), Msgs(), old(Pos()), pos, mtu, sent, packets)
      ensures ret == 1 ==> sealed && Pos() == Position(len, 0) && transport.flushed == |transport.accepted|
      ensures transport.steady && old(Ready(Pos(), mtu)) ==> ret == 1
    {
      hide SizedWriter, Went, CarriesOn, Chain, Records, Concat, DtlsPacket.SealNextPacket, ContentOf, Healthy,
           RoomForAll;
      sent, packets, sealed := [], [], true;
      ghost var w0, start := write.View(), Pos();
      WentNowhere(w0, Msgs(), start, mtu);
      while written < len
        invariant Valid() && SameKeys(w0, write.View())
        invariant transport.accepted == old(transport.accepted) + packets
        invariant Went(w0, Msgs(), start, Pos(), mtu, sent, packets)
        invariant old(Ready(Pos(), mtu)) ==> Ready(Pos(), mtu)
        decreases len - written, if written < len then |messages[written].data| - offset else 0
      {
        var oldWritten, oldOffset := written, offset;
        ghost var w, pos := write.View(), Pos();
        PacketCarriesOn(w, Msgs(), pos, mtu, false);
        ReadyPacket(w, Msgs(), pos, mtu);
        var ok, packet;
        ghost var more: seq<Sent>;
        ok, packet, more := SealNextPacket(mtu);
        WentOn(w0, w, Msgs(), start, pos, mtu, Packed(ok, write.View(), Pos(), more), sent, packets);
        if !ok {
          sealed := false;
          return -1, sealed, sent, packets;
        }
        var bioRet := transport.Write(packet);
        if bioRet <= 0 {
          // The next call seals these pieces once more, with new numbers.
          written, offset := oldWritten, oldOffset;
          return bioRet, sealed, sent, packets;
        }
        sent, packets := sent + more, packets + [packet];
      }
      var flushed := transport.Flush();
      return if flushed <= 0 then -1 else 1, sealed, sent, packets;
    }

    /** `dtls1_flush_flight`. */
    method FlushFlight(mtu: nat, transport: Transport)
      returns (ret: int, ghost sealed: bool, ghost sent: seq<Sent>, ghost packets: seq<seq<byte>>)
      requires Valid() && mtu >= MIN_MTU
      modifies this`written, this`offset, this`complete, write.writeSequence, write.lastWriteSequence, transport
      ensures Valid() && complete
      ensures transport.accepted == old(transport.accepted) + packets
      ensures if sealed then Went(old(write.View()), Msgs(), old(Pos()), Pos(), mtu, sent, packets)
              else exists pos :: Went(old(write.View()), Msgs(), old(Pos()), pos, mtu, sent, packets)
      ensures ret == 1 ==> sealed && Pos() == Position(len, 0) && transport.flushed == |transport.accepted|
      ensures transport.steady && old(Ready(Pos(), mtu)) ==> ret == 1
    {
      hide SizedWriter, Went, Healthy, RoomForAll;
      complete := true;
      ret, sealed, sent, packets := SendFlight(mtu, transport);
    }

    /** `dtls1_retransmit_outgoing_messages`: at whatever MTU, when it returns 1 the whole
        flight has been sent once more, every message tiled by the fragments sent now. */
    method Retransmit(mtu: nat, transport: Transport)
      returns (ret: int, ghost sealed: bool, ghost sent: seq<Sent>, ghost packets: seq<seq<byte>>)
      requires Valid() && mtu >= MIN_MTU
      modifies this`written, this`offset, write.writeSequence, write.lastWriteSequence, transport
      ensures Valid()
      ensures transport.accepted == old(transport.accepted) + packets
      ensures if sealed then Went(old(write.View()), Msgs(), Position(0, 0), Pos(), mtu, sent, packets)
              else exists pos :: Went(old(write.View()), Msgs(), Position(0, 0), pos, mtu, sent, packets)
      ensures ret == 1 ==> sealed && Pos() == Position(len, 0) && transport.flushed == |transport.accepted|
      ensures transport.steady && old(Ready(Position(0, 0), mtu)) ==> ret == 1
    {
      hide SizedWriter, Went, Healthy, RoomForAll;
      written, offset := 0, 0;
      ret, sealed, sent, packets := SendFlight(mtu, transport);
    }
  }

  /** The rest of a packet behind what has been sealed into it. */
  ghost function Continued(w: Writer, msgs: seq<OutMessage>, pos: Position, maxOut: nat, progress: bool,
                           sent: seq<Sent>): Packed
    requires SizedWriter(w) && GoodPosition(msgs, pos)
  {
    var r := DtlsPacket.SealNextPacket(w, msgs, pos, maxOut, progress);
    r.(sent := sent + r.sent)
  }

  /** What has been accepted since the flight stood at `start`: packets of at most the MTU,
      made of the records sent, whose pieces lead on to `pos`. */
  ghost predicate Went(w: Writer, msgs: seq<OutMessage>, start: Position, pos: Position, mtu: nat,
                       sent: seq<Sent>, packets: seq<seq<byte>>)
  {
    && Concat(packets) == Records(sent)
    && (forall p :: p in packets ==> |p| <= mtu)
    && (forall s :: s in sent ==> IsSealed(w, msgs, s))
    && Chain(msgs, Pieces(sent), start, pos)
  }

  lemma WentNowhere(w: Writer, msgs: seq<OutMessage>, start: Position, mtu: nat)
    ensures Went(w, msgs, start, start, mtu, [], [])
  {
  }

  /** One more packet. */
  lemma WentOn(w0: Writer, w: Writer, msgs: seq<OutMessage>, start: Position, pos: Position, mtu: nat, r: Packed,
               sent: seq<Sent>, packets: seq<seq<byte>>)
    requires Went(w0, msgs, start, pos, mtu, sent, packets) && SameKeys(w0, w)
    requires CarriesOn(w, msgs, pos, mtu, r)
    ensures SameKeys(w0, r.writer) && GoodPosition(msgs, r.pos)
    ensures r.sent != [] ==> Later(pos, r.pos)
    ensures r.ok ==> Went(w0, msgs, start, r.pos, mtu, sent + r.sent, packets + [Records(r.sent)])
  {
    SealedWithSameKeys(w0, w, msgs, r.sent);
    hide IsSealed, Sized, GoodPiece, Chain, Records, GoodPosition;
    if r.ok {
      RecordsJoin(sent, r.sent);
      ChainJoins(msgs, Pieces(sent), Pieces(r.sent), start, pos, r.pos);
      assert (packets + [Records(r.sent)])[..|packets|] == packets;
    }
  }

  /** A packet that can be sealed is made, and so can the rest be. */
  lemma ReadyPacket(w: Writer, msgs: seq<OutMessage>, pos: Position, mtu: nat)
    requires SizedWriter(w) && GoodPosition(msgs, pos) && pos.written < |msgs|
    ensures var r := DtlsPacket.SealNextPacket(w, msgs, pos, mtu, false);
            Healthy(w, msgs, pos) && RoomForAll(w, msgs, mtu) ==>
              r.ok && Healthy(r.writer, msgs, r.pos) && RoomForAll(r.writer, msgs, mtu)
  {
    hide DtlsPacket.SealNextPacket, CarriesOn;
    if Healthy(w, msgs, pos) && RoomForAll(w, msgs, mtu) {
      assert Sendable(w, msgs[pos.written]) && msgs[pos.written] in msgs;
      PacketSucceeds(w, msgs, pos, mtu, false);
      PacketCarriesOn(w, msgs, pos, mtu, false);
      SameRoom(w, msgs, pos, mtu, DtlsPacket.SealNextPacket(w, msgs, pos, mtu, false));
    }
  }

  lemma SameRoom(w: Writer, msgs: seq<OutMessage>, pos: Position, mtu: nat, r: Packed)
    requires RoomForAll(w, msgs, mtu) && CarriesOn(w, msgs, pos, mtu, r)
    ensures RoomForAll(r.writer, msgs, mtu)
  {
    hide Sized, IsSealed, Chain;
    forall m | m in msgs && HasKeys(r.writer, m.epoch)
      ensures LeastRoom(r.writer, m) <= mtu
    {
      assert HasKeys(w, m.epoch) && LeastRoom(w, m) <= mtu;
    }
  }

  lemma NoRecords()
    ensures Records([]) == []
  {
  }

  lemma OneRecord(s: Sent)
    ensures Records([s]) == s.record
  {
  }

  lemma NothingYet(w: Writer, msgs: seq<OutMessage>, pos: Position, maxOut: nat)
    requires SizedWriter(w) && GoodPosition(msgs, pos)
    ensures Continued(w, msgs, pos, maxOut, false, []) == DtlsPacket.SealNextPacket(w, msgs, pos, maxOut, false)
  {
    var r := DtlsPacket.SealNextPacket(w, msgs, pos, maxOut, false);
    assert [] + r.sent == r.sent;
  }

  lemma NothingLeft(w: Writer, msgs: seq<OutMessage>, pos: Position, maxOut: nat, progress: bool, sent: seq<Sent>)
    requires SizedWriter(w) && GoodPosition(msgs, pos) && pos.written == |msgs|
    ensures Continued(w, msgs, pos, maxOut, progress, sent) == Packed(progress, w, pos, sent)
  {
    assert sent + [] == sent;
  }

  /** One turn of filling a packet. */
  lemma ContinuedBy(w: Writer, msgs: seq<OutMessage>, pos: Position, maxOut: nat, progress: bool, sent: seq<Sent>)
    requires SizedWriter(w) && GoodPosition(msgs, pos) && pos.written < |msgs|
    ensures var c := Continued(w, msgs, pos, maxOut, progress, sent);
            match DtlsPacket.SealNextMessage(w, msgs, pos, maxOut)
            case SealError(w') => c == Packed(false, w', pos, sent)
            case NoProgress => c == Packed(progress, w, pos, sent)
            case Progress(w', s, complete) =>
              && SizedWriter(w') && |s.record| <= maxOut && GoodPiece(msgs, s.piece)
              && GoodPosition(msgs, Behind(msgs, s.piece))
              && Behind(msgs, s.piece) == (if complete then Position(pos.written + 1, 0)
                                           else Position(pos.written, pos.offset + s.piece.len))
              && c == (if complete then Continued(w', msgs, Behind(msgs, s.piece), maxOut - |s.record|, true, sent + [s])
                       else Packed(true, w', Behind(msgs, s.piece), sent + [s]))
  {
    hide DtlsPacket.SealNextMessage, Sized, GoodPosition, GoodPiece, Behind, IsNext, SameKeys;
    AttemptIsNext(w, msgs, pos, maxOut);
    var a := DtlsPacket.SealNextMessage(w, msgs, pos, maxOut);
    if a.Progress? {
      NextIsLegal(w, msgs, pos, maxOut, a.sent, a.complete);
      if a.complete {
        var r := DtlsPacket.SealNextPacket(a.writer, msgs, Behind(msgs, a.sent.piece), maxOut - |a.sent.record|, true);
        assert sent + ([a.sent] + r.sent) == sent + [a.sent] + r.sent;
      }
    } else {
      assert sent + [] == sent;
    }
  }
}
