/** Sealing the next message and filling the next packet of a DTLS flight, as functions on
    values, and that every packet carries on where the one before ended. */
module DtlsPacket {
  import opened ByteString
  import opened DtlsFragment
  import opened DtlsRecord
  import opened DtlsWriter
  import opened DtlsFlight

  const MIN_MTU: nat := 256 - 28

  /** What is known of the lengths of sealed records. */
  ghost predicate Sized(aead: Aead) {
    forall c, p :: aead.seal(c, p).Some? ==> |aead.seal(c, p).value| == aead.nonceLen + |p| + aead.tagLen(|p|)
  }

  ghost predicate SizedWriter(w: Writer) {
    ValidWriter(w) && Sized(w.aead) && Sized(w.lastAead)
  }

  /** A record and the piece it carries. */
  datatype Sent = Sent(piece: Piece, context: Context, record: seq<byte>)

  /** The record is the plaintext of its piece, sealed in the epoch of its message with the keys
      of that epoch. */
  ghost predicate IsSealed(w: Writer, msgs: seq<OutMessage>, s: Sent) {
    && GoodPiece(msgs, s.piece)
    && HasKeys(w, msgs[s.piece.index].epoch)
    && s.context.recordType == (if msgs[s.piece.index].isCcs then RT_CHANGE_CIPHER_SPEC else RT_HANDSHAKE)
    && InEpoch(w, msgs[s.piece.index].epoch, s.context)
    && var sealed := KeysOf(w, msgs[s.piece.index].epoch).seal(s.context, PlaintextOf(msgs, s.piece));
       sealed.Some? && |sealed.value| < U16 && s.record == EncRecord(s.context, sealed.value)
  }

  /** The context of a record of an epoch, whatever its number. */
  predicate InEpoch(w: Writer, epoch: nat, c: Context) {
    c.version == w.aead.version && |c.sequence| == 8 && c.sequence[..2] == EncBE(epoch, 2)
  }

  // ---------------------------------------------------------------- one message

  datatype Attempt = SealError(writer: Writer) | NoProgress | Progress(writer: Writer, sent: Sent, complete: bool)

  /** Seals one piece. */
  function SealPiece(w: Writer, msgs: seq<OutMessage>, p: Piece, use: UseEpoch, maxOut: nat): Attempt
    requires ValidWriter(w) && GoodPiece(msgs, p) && (use.Previous? ==> w.epoch >= 1)
  {
    var recordType := if msgs[p.index].isCcs then RT_CHANGE_CIPHER_SPEC else RT_HANDSHAKE;
    var r := SealRecord(w, use, recordType, PlaintextOf(msgs, p), maxOut);
    if r.record.None? then SealError(r.writer)
    else Progress(r.writer, Sent(p, ContextFor(w, use, recordType), r.record.value), Behind(msgs, p).offset == 0)
  }

  /** `seal_next_message`. */
  function SealNextMessage(w: Writer, msgs: seq<OutMessage>, pos: Position, maxOut: nat): Attempt
    requires ValidWriter(w) && pos.written < |msgs|
  {
    var msg := msgs[pos.written];
    var use := UseFor(w, msg.epoch);
    if use.None? then SealError(w)
    else
      var aead := AeadFor(w, use.value);
      var overhead := RT_HEADER_LENGTH + aead.MaxOverhead();
      if msg.isCcs then
        if maxOut < 1 + overhead then NoProgress else SealPiece(w, msgs, Piece(pos.written, 0, 0), use.value, maxOut)
      else
        var c := ContentOf(msg);
        if c.Unusable? || pos.offset > |c.body| then SealError(w)
        else if maxOut < HM_HEADER_LENGTH + 1 + overhead then NoProgress
        else SealPiece(w, msgs, NextPiece(w, msgs, pos, maxOut), use.value, maxOut)
  }

  /** Positions the code keeps to: in a handshake message inside its body, elsewhere at the start. */
  predicate GoodPosition(msgs: seq<OutMessage>, pos: Position) {
    && pos.written <= |msgs|
    && (pos.written == |msgs| || msgs[pos.written].isCcs ==> pos.offset == 0)
    && (pos.written < |msgs| ==> pos.offset <= |msgs[pos.written].data|)
  }

  /** What was sealed is the piece at the position, and fits. */
  ghost predicate IsNext(w: Writer, msgs: seq<OutMessage>, pos: Position, maxOut: nat, sent: Sent, complete: bool) {
    && IsSealed(w, msgs, sent)
    && pos == Position(sent.piece.index, sent.piece.off)
    && |sent.record| <= maxOut
    && GoodPosition(msgs, Behind(msgs, sent.piece))
    && var next := Behind(msgs, sent.piece);
       (if complete then next == Position(pos.written + 1, 0)
        else next.written == pos.written && next.offset == pos.offset + sent.piece.len > pos.offset)
  }

  lemma AttemptIsNext(w: Writer, msgs: seq<OutMessage>, pos: Position, maxOut: nat)
    requires SizedWriter(w) && pos.written < |msgs| && GoodPosition(msgs, pos)
    ensures var a := SealNextMessage(w, msgs, pos, maxOut);
            && (!a.NoProgress? ==> SizedWriter(a.writer) && SameKeys(w, a.writer))
            && (a.Progress? ==> IsNext(w, msgs, pos, maxOut, a.sent, a.complete))
  {
    hide Sized, SealNextMessage, SealPiece, IsSealed, NextPiece;
    AttemptShape(w, msgs, pos, maxOut);
    var a, use := SealNextMessage(w, msgs, pos, maxOut), UseFor(w, msgs[pos.written].epoch);
    var p := NextPiece(w, msgs, pos, maxOut);
    if use.Some? && GoodPiece(msgs, p) && p.index == pos.written {
      PieceIsSealed(w, msgs, p, use.value, maxOut);
    }
  }

  /** A piece is tried only at the position, and only a good one. */
  lemma AttemptShape(w: Writer, msgs: seq<OutMessage>, pos: Position, maxOut: nat)
    requires ValidWriter(w) && pos.written < |msgs| && GoodPosition(msgs, pos)
    ensures var a, use := SealNextMessage(w, msgs, pos, maxOut), UseFor(w, msgs[pos.written].epoch);
            var p := NextPiece(w, msgs, pos, maxOut);
            a == NoProgress || a == SealError(w)
            || (use.Some? && GoodPiece(msgs, p) && pos == Position(p.index, p.off)
                && a == SealPiece(w, msgs, p, use.value, maxOut))
  {
    hide SealPiece, ContentOf;
  }

  /** The piece that is tried at a position. */
  function NextPiece(w: Writer, msgs: seq<OutMessage>, pos: Position, maxOut: nat): Piece
    requires pos.written < |msgs|
  {
    var msg := msgs[pos.written];
    var use := UseFor(w, msg.epoch);
    if use.None? || msg.isCcs then Piece(pos.written, 0, 0)
    else
      var c, overhead := ContentOf(msg), RT_HEADER_LENGTH + AeadFor(w, use.value).MaxOverhead();
      if c.Unusable? || pos.offset > |c.body| || maxOut < HM_HEADER_LENGTH + 1 + overhead then Piece(pos.written, 0, 0)
      else
        var room := maxOut - HM_HEADER_LENGTH - overhead;
        Piece(pos.written, pos.offset, if |c.body| - pos.offset > room then room else |c.body| - pos.offset)
  }

  lemma PieceIsSealed(w: Writer, msgs: seq<OutMessage>, p: Piece, use: UseEpoch, maxOut: nat)
    requires SizedWriter(w) && GoodPiece(msgs, p) && UseFor(w, msgs[p.index].epoch) == Some(use)
    ensures var a := SealPiece(w, msgs, p, use, maxOut);
            && SizedWriter(a.writer) && SameKeys(w, a.writer)
            && (a.Progress? ==> a.sent.piece == p && IsSealed(w, msgs, a.sent) && |a.sent.record| <= maxOut)
            && (a.Progress? ==> (a.complete <==> Behind(msgs, p).offset == 0))
  {
    var recordType := if msgs[p.index].isCcs then RT_CHANGE_CIPHER_SPEC else RT_HANDSHAKE;
    SealedFits(w, use, recordType, PlaintextOf(msgs, p), maxOut);
    UsesOwnEpoch(w, msgs[p.index].epoch);
    hide SealRecord;
  }

  ghost predicate SameKeys(w: Writer, w': Writer) {
    w'.epoch == w.epoch && w'.aead == w.aead && w'.lastAead == w.lastAead
  }

  lemma SealedFits(w: Writer, use: UseEpoch, recordType: byte, plaintext: seq<byte>, maxOut: nat)
    requires SizedWriter(w) && (use.Previous? ==> w.epoch >= 1)
    ensures var r := SealRecord(w, use, recordType, plaintext, maxOut);
            && SameKeys(w, r.writer)
            && (r.record.Some? ==> |r.record.value| <= maxOut)
            && (r.record.Some? ==> AeadFor(w, use).seal(ContextFor(w, use, recordType), plaintext).Some?)
            && var c := ContextFor(w, use, recordType);
               InEpoch(w, EpochFor(w, use), c) && (r.record.Some? ==>
                 r.record.value == EncRecord(c, AeadFor(w, use).seal(c, plaintext).value)
                 && |AeadFor(w, use).seal(c, plaintext).value| < U16)
  {
    hide EncBE;
    assert Sequence(EpochFor(w, use), NumberFor(w, use))[..2] == EncBE(EpochFor(w, use), 2);
  }

  // ----------------------------------------------------------------- one packet

  datatype Packed = Packed(ok: bool, writer: Writer, pos: Position, sent: seq<Sent>)

  function Records(sent: seq<Sent>): seq<byte> {
    if sent == [] then [] else sent[0].record + Records(sent[1..])
  }

  function Pieces(sent: seq<Sent>): (p: seq<Piece>)
    ensures |p| == |sent|
  {
    if sent == [] then [] else [sent[0].piece] + Pieces(sent[1..])
  }

  /** `seal_next_packet`, from the turn on at which `progress` has been made or not. */
  function SealNextPacket(w: Writer, msgs: seq<OutMessage>, pos: Position, maxOut: nat, progress: bool): Packed
    requires SizedWriter(w) && GoodPosition(msgs, pos)
    decreases |msgs| - pos.written
  {
    if pos.written == |msgs| then Packed(progress, w, pos, [])
    else
      AttemptIsNext(w, msgs, pos, maxOut);
      match SealNextMessage(w, msgs, pos, maxOut)
      case SealError(w') => Packed(false, w', pos, [])
      case NoProgress => Packed(progress, w, pos, [])
      case Progress(w', sent, complete) =>
        if !complete then Packed(true, w', Behind(msgs, sent.piece), [sent])
        else
          var r := SealNextPacket(w', msgs, Behind(msgs, sent.piece), maxOut - |sent.record|, true);
          r.(sent := [sent] + r.sent)
  }

  lemma SealedWithSameKeys(w: Writer, w': Writer, msgs: seq<OutMessage>, sent: seq<Sent>)
    requires SameKeys(w, w') && forall s :: s in sent ==> IsSealed(w', msgs, s)
    ensures forall s :: s in sent ==> IsSealed(w, msgs, s)
  {
  }

  lemma PiecesOfMore(s: Sent, sent: seq<Sent>)
    ensures Pieces([s] + sent) == [s.piece] + Pieces(sent)
    ensures Records([s] + sent) == s.record + Records(sent) && Records([]) == []
  {
    assert ([s] + sent)[1..] == sent;
  }

  lemma ChainOfMore(msgs: seq<OutMessage>, p: Piece, pieces: seq<Piece>, end: Position)
    requires GoodPiece(msgs, p) && Chain(msgs, pieces, Behind(msgs, p), end)
    ensures Chain(msgs, [p] + pieces, Position(p.index, p.off), end)
  {
    assert ([p] + pieces)[1..] == pieces;
  }

  lemma {:induction false} RecordsJoin(a: seq<Sent>, b: seq<Sent>)
    ensures Records(a + b) == Records(a) + Records(b)
    ensures Pieces(a + b) == Pieces(a) + Pieces(b)
  {
    if a == [] {
      assert a + b == b;
    } else {
      assert (a + b)[0] == a[0] && (a + b)[1..] == a[1..] + b;
      RecordsJoin(a[1..], b);
    }
  }

  predicate Later(a: Position, b: Position) {
    a.written < b.written || (a.written == b.written && a.offset < b.offset)
  }

  /** A packet carries on from the position, its records fit, and it makes progress. */
  ghost predicate CarriesOn(w: Writer, msgs: seq<OutMessage>, pos: Position, maxOut: nat, r: Packed) {
    && SizedWriter(r.writer) && SameKeys(w, r.writer) && GoodPosition(msgs, r.pos)
    && |Records(r.sent)| <= maxOut
    && (forall s :: s in r.sent ==> IsSealed(w, msgs, s))
    && (r.ok ==> Chain(msgs, Pieces(r.sent), pos, r.pos))
    && (if r.sent == [] then r.pos == pos else Later(pos, r.pos))
  }

  lemma {:induction false} PacketCarriesOn(w: Writer, msgs: seq<OutMessage>, pos: Position, maxOut: nat, progress: bool)
    requires SizedWriter(w) && GoodPosition(msgs, pos)
    ensures CarriesOn(w, msgs, pos, maxOut, SealNextPacket(w, msgs, pos, maxOut, progress))
    ensures var r := SealNextPacket(w, msgs, pos, maxOut, progress);
            r.ok && !progress && pos.written < |msgs| ==> r.sent != []
    decreases |msgs| - pos.written
  {
    hide SealNextMessage, CarriesOn, IsNext, Sized;
    if pos.written == |msgs| {
      NothingCarriesOn(w, w, msgs, pos, maxOut, progress);
    } else {
      AttemptIsNext(w, msgs, pos, maxOut);
      var a := SealNextMessage(w, msgs, pos, maxOut);
      match a {
        case SealError(w') => NothingCarriesOn(w, w', msgs, pos, maxOut, false);
        case NoProgress => NothingCarriesOn(w, w, msgs, pos, maxOut, progress);
        case Progress(w', sent, complete) =>
          NextIsLegal(w, msgs, pos, maxOut, sent, complete);
          if complete {
            var next := Behind(msgs, sent.piece);
            PacketCarriesOn(w', msgs, next, maxOut - |sent.record|, true);
            MoreCarriesOn(w, w', msgs, pos, maxOut, sent, SealNextPacket(w', msgs, next, maxOut - |sent.record|, true));
          } else {
            LastCarriesOn(w, w', msgs, pos, maxOut, sent);
          }
      }
    }
  }

  lemma NextIsLegal(w: Writer, msgs: seq<OutMessage>, pos: Position, maxOut: nat, sent: Sent, complete: bool)
    requires IsNext(w, msgs, pos, maxOut, sent, complete)
    ensures GoodPiece(msgs, sent.piece) && GoodPosition(msgs, Behind(msgs, sent.piece)) && |sent.record| <= maxOut
    ensures Behind(msgs, sent.piece)
         == if complete then Position(pos.written + 1, 0) else Position(pos.written, pos.offset + sent.piece.len)
  {
  }

  lemma NothingCarriesOn(w: Writer, w': Writer, msgs: seq<OutMessage>, pos: Position, maxOut: nat, ok: bool)
    requires SizedWriter(w') && SameKeys(w, w') && GoodPosition(msgs, pos)
    ensures CarriesOn(w, msgs, pos, maxOut, Packed(ok, w', pos, []))
  {
  }

  lemma LastCarriesOn(w: Writer, w': Writer, msgs: seq<OutMessage>, pos: Position, maxOut: nat, sent: Sent)
    requires SizedWriter(w') && SameKeys(w, w') && IsNext(w, msgs, pos, maxOut, sent, false)
    ensures CarriesOn(w, msgs, pos, maxOut, Packed(true, w', Behind(msgs, sent.piece), [sent]))
  {
    hide IsSealed;
    NextIsLegal(w, msgs, pos, maxOut, sent, false);
    PiecesOfMore(sent, []);
    ChainOfMore(msgs, sent.piece, [], Behind(msgs, sent.piece));
    assert [sent] + [] == [sent] && [sent.piece] + [] == [sent.piece];
  }

  lemma MoreCarriesOn(w: Writer, w': Writer, msgs: seq<OutMessage>, pos: Position, maxOut: nat, sent: Sent, r: Packed)
    requires SameKeys(w, w') && IsNext(w, msgs, pos, maxOut, sent, true)
    requires GoodPiece(msgs, sent.piece)
    requires |sent.record| <= maxOut && CarriesOn(w', msgs, Behind(msgs, sent.piece), maxOut - |sent.record|, r)
    ensures CarriesOn(w, msgs, pos, maxOut, r.(sent := [sent] + r.sent))
  {
    SealedWithSameKeys(w, w', msgs, r.sent);
    hide IsSealed, Sized, Behind, GoodPiece;
    PiecesOfMore(sent, r.sent);
    if r.ok {
      ChainOfMore(msgs, sent.piece, Pieces(r.sent), r.pos);
    }
  }

  // ------------------------------------------------- when it succeeds, when it does not

  /** The cipher seals everything, within its declared overhead. */
  ghost predicate Willing(aead: Aead) {
    && (forall c, p :: aead.seal(c, p).Some?)
    && (forall n :: aead.tagLen(n) <= aead.maxTag)
  }

  /** A message that is whole, and belongs to one of the two epochs and a cipher that is willing. */
  ghost predicate Sendable(w: Writer, m: OutMessage) {
    && HasKeys(w, m.epoch)
    && Willing(KeysOf(w, m.epoch))
    && (m.isCcs || ContentOf(m).Message?)
  }

  /** The headers of a record and a fragment, the overhead, and one byte. */
  function LeastRoom(w: Writer, m: OutMessage): nat
    requires HasKeys(w, m.epoch)
  {
    RT_HEADER_LENGTH + KeysOf(w, m.epoch).MaxOverhead() + 1 + if m.isCcs then 0 else HM_HEADER_LENGTH
  }

  /** The least MTU is room enough, under any cipher that adds no more than 202 bytes. */
  lemma MinMtuSuffices(w: Writer, m: OutMessage)
    requires HasKeys(w, m.epoch)
    ensures KeysOf(w, m.epoch).MaxOverhead() <= 202 ==> LeastRoom(w, m) <= MIN_MTU
    ensures !m.isCcs && LeastRoom(w, m) <= MIN_MTU ==> KeysOf(w, m.epoch).MaxOverhead() <= 202
  {
  }

  /** Such a message makes progress if and only if there is the least room; in less room
      nothing is done. */
  lemma AttemptSucceedsIff(w: Writer, msgs: seq<OutMessage>, pos: Position, maxOut: nat)
    requires SizedWriter(w) && pos.written < |msgs| && GoodPosition(msgs, pos) && maxOut < 0x1_0000
    requires Sendable(w, msgs[pos.written])
    requires NextNumber(w, msgs[pos.written].epoch) < SEQUENCES - 1
    requires msgs[pos.written].isCcs || pos.offset <= |ContentOf(msgs[pos.written]).body|
    ensures var needed := LeastRoom(w, msgs[pos.written]);
            && (maxOut >= needed <==> SealNextMessage(w, msgs, pos, maxOut).Progress?)
            && (maxOut < needed <==> SealNextMessage(w, msgs, pos, maxOut).NoProgress?)
  {
    hide ContentOf, SealRecord, PlaintextOf, Willing;
    UsesOwnEpoch(w, msgs[pos.written].epoch);
    var use, p := UseFor(w, msgs[pos.written].epoch).value, NextPiece(w, msgs, pos, maxOut);
    AttemptShape(w, msgs, pos, maxOut);
    if GoodPiece(msgs, p) && p.index == pos.written && maxOut >= LeastRoom(w, msgs[pos.written]) {
      PlaintextIsAsLong(msgs, p);
      RecordSucceeds(w, use, if msgs[p.index].isCcs then RT_CHANGE_CIPHER_SPEC else RT_HANDSHAKE,
                     PlaintextOf(msgs, p), maxOut);
    }
  }

  lemma PlaintextIsAsLong(msgs: seq<OutMessage>, p: Piece)
    requires GoodPiece(msgs, p)
    ensures |PlaintextOf(msgs, p)| == if msgs[p.index].isCcs then 1 else HM_HEADER_LENGTH + p.len
  {
  }

  lemma RecordSucceeds(w: Writer, use: UseEpoch, recordType: byte, plaintext: seq<byte>, maxOut: nat)
    requires SizedWriter(w) && (use.Previous? ==> w.epoch >= 1) && maxOut < 0x1_0000
    requires Willing(AeadFor(w, use)) && NumberFor(w, use) < SEQUENCES - 1
    requires |plaintext| + AeadFor(w, use).MaxOverhead() + RT_HEADER_LENGTH <= maxOut
    ensures SealRecord(w, use, recordType, plaintext, maxOut).record.Some?
  {
    var aead := AeadFor(w, use);
    assert aead.seal(ContextFor(w, use, recordType), plaintext).Some?;
    assert aead.tagLen(|plaintext|) <= aead.maxTag;
  }

  /** A fragment holds all that is left of its message, or as much as there is room for. */
  lemma PieceFillsRoom(w: Writer, msgs: seq<OutMessage>, pos: Position, maxOut: nat)
    requires SizedWriter(w) && pos.written < |msgs| && GoodPosition(msgs, pos)
    ensures var a := SealNextMessage(w, msgs, pos, maxOut);
            a.Progress? ==>
              && a.sent.piece.index == pos.written && HasKeys(w, msgs[pos.written].epoch)
              && (a.complete <==> Behind(msgs, a.sent.piece) == Position(pos.written + 1, 0))
              && (!a.complete ==>
                    a.sent.piece.len + 12 + 13 + KeysOf(w, msgs[pos.written].epoch).MaxOverhead() == maxOut)
  {
    hide Sized, SealRecord, PlaintextOf, ContextFor;
    UsesOwnEpoch(w, msgs[pos.written].epoch);
    AttemptShape(w, msgs, pos, maxOut);
  }

  /** A bound for the records that the messages from number `k` on can take. */
  function Work(msgs: seq<OutMessage>, k: nat): nat
    requires k <= |msgs|
    decreases |msgs| - k
  {
    if k == |msgs| then 0 else |msgs[k].data| + 1 + Work(msgs, k + 1)
  }

  function Left(msgs: seq<OutMessage>, pos: Position): int
    requires pos.written <= |msgs|
  {
    Work(msgs, pos.written) - pos.offset
  }

  /** Everything from the position on can be sealed: no counter will be spent. */
  ghost predicate Healthy(w: Writer, msgs: seq<OutMessage>, pos: Position) {
    && SizedWriter(w) && GoodPosition(msgs, pos)
    && (forall i :: pos.written <= i < |msgs| ==> Sendable(w, msgs[i]))
    && (pos.written < |msgs| && !msgs[pos.written].isCcs ==> pos.offset <= |ContentOf(msgs[pos.written]).body|)
    && w.seqNo + Left(msgs, pos) < SEQUENCES && w.lastSeqNo + Left(msgs, pos) < SEQUENCES
  }

  ghost predicate RoomForAll(w: Writer, msgs: seq<OutMessage>, mtu: nat) {
    mtu < 0x1_0000 && forall m :: m in msgs && HasKeys(w, m.epoch) ==> LeastRoom(w, m) <= mtu
  }

  lemma HealthyIsLeft(w: Writer, msgs: seq<OutMessage>, pos: Position)
    requires Healthy(w, msgs, pos) && pos.written < |msgs|
    ensures Sendable(w, msgs[pos.written])
    ensures NextNumber(w, msgs[pos.written].epoch) < SEQUENCES - 1
  {
    assert Left(msgs, pos) >= 1;
  }

  /** What is sealed leaves the rest healthy. */
  lemma AttemptIsHealthy(w: Writer, msgs: seq<OutMessage>, pos: Position, maxOut: nat)
    requires Healthy(w, msgs, pos) && pos.written < |msgs| && maxOut < 0x1_0000
    ensures var a := SealNextMessage(w, msgs, pos, maxOut);
            && !a.SealError?
            && (maxOut >= LeastRoom(w, msgs[pos.written]) ==> a.Progress?)
            && (a.Progress? ==> GoodPiece(msgs, a.sent.piece) && Healthy(a.writer, msgs, Behind(msgs, a.sent.piece)))
  {
    HealthyIsLeft(w, msgs, pos);
    AttemptSucceedsIff(w, msgs, pos, maxOut);
    AttemptIsNext(w, msgs, pos, maxOut);
    NumberIsUsed(w, msgs, pos, maxOut);
    var a := SealNextMessage(w, msgs, pos, maxOut);
    if a.Progress? {
      NextIsHealthy(w, a.writer, msgs, pos, maxOut, a.sent, a.complete);
    }
  }

  lemma NumberIsUsed(w: Writer, msgs: seq<OutMessage>, pos: Position, maxOut: nat)
    requires ValidWriter(w) && pos.written < |msgs| && GoodPosition(msgs, pos)
    ensures var a := SealNextMessage(w, msgs, pos, maxOut);
            a.Progress? ==> a.writer.seqNo <= w.seqNo + 1 && a.writer.lastSeqNo <= w.lastSeqNo + 1
  {
    hide SealNextMessage, GoodPosition, NextPiece, ContentOf, Behind, PlaintextOf, UseFor, SealRecord, ContextFor;
    AttemptShape(w, msgs, pos, maxOut);
    var use, p := UseFor(w, msgs[pos.written].epoch), NextPiece(w, msgs, pos, maxOut);
    if use.Some? && GoodPiece(msgs, p) {
      NumberCounts(w, use.value, if msgs[p.index].isCcs then RT_CHANGE_CIPHER_SPEC else RT_HANDSHAKE,
                   PlaintextOf(msgs, p), maxOut);
    }
  }

  lemma NumberCounts(w: Writer, use: UseEpoch, recordType: byte, plaintext: seq<byte>, maxOut: nat)
    requires ValidWriter(w) && (use.Previous? ==> w.epoch >= 1)
    ensures var w' := SealRecord(w, use, recordType, plaintext, maxOut).writer;
            w'.seqNo <= w.seqNo + 1 && w'.lastSeqNo <= w.lastSeqNo + 1
  {
  }

  lemma {:induction false} NextIsHealthy(w: Writer, w': Writer, msgs: seq<OutMessage>, pos: Position, maxOut: nat,
                                         sent: Sent, complete: bool)
    requires Healthy(w, msgs, pos) && IsNext(w, msgs, pos, maxOut, sent, complete) && pos.written < |msgs|
    requires SizedWriter(w') && SameKeys(w, w') && w'.seqNo <= w.seqNo + 1 && w'.lastSeqNo <= w.lastSeqNo + 1
    ensures GoodPiece(msgs, sent.piece) && Healthy(w', msgs, Behind(msgs, sent.piece))
  {
    hide Sized, IsSealed;
    NextIsLegal(w, msgs, pos, maxOut, sent, complete);
    var next := Behind(msgs, sent.piece);
    assert Left(msgs, next) < Left(msgs, pos);
    forall i | next.written <= i < |msgs|
      ensures Sendable(w', msgs[i])
    {
      assert Sendable(w, msgs[i]);
    }
  }

  /** Where everything can be sealed and there is the least room, a packet is made, and the
      rest can be sealed as well. */
  lemma {:induction false} PacketSucceeds(w: Writer, msgs: seq<OutMessage>, pos: Position, maxOut: nat, progress: bool)
    requires Healthy(w, msgs, pos) && maxOut < 0x1_0000
    requires progress || (pos.written < |msgs| && LeastRoom(w, msgs[pos.written]) <= maxOut)
    ensures var r := SealNextPacket(w, msgs, pos, maxOut, progress);
            r.ok && Healthy(r.writer, msgs, r.pos)
    decreases |msgs| - pos.written
  {
    hide SealNextMessage, Healthy, Sized, GoodPiece, LeastRoom, IsSealed;
    HealthyIsGood(w, msgs, pos);
    if pos.written < |msgs| {
      AttemptIsHealthy(w, msgs, pos, maxOut);
      AttemptIsNext(w, msgs, pos, maxOut);
      var a := SealNextMessage(w, msgs, pos, maxOut);
      if a.Progress? && a.complete {
        PacketSucceeds(a.writer, msgs, Behind(msgs, a.sent.piece), maxOut - |a.sent.record|, true);
      }
    }
  }

  lemma SameLeastRoom(w: Writer, w': Writer, m: OutMessage)
    requires SameKeys(w, w') && HasKeys(w, m.epoch)
    ensures HasKeys(w', m.epoch) && LeastRoom(w', m) == LeastRoom(w, m)
  {
  }

  /** How long the record of a piece is at least. */
  lemma RecordIsLong(w: Writer, msgs: seq<OutMessage>, s: Sent)
    requires SizedWriter(w) && IsSealed(w, msgs, s) && !msgs[s.piece.index].isCcs
    ensures |s.record| >= 13 + KeysOf(w, msgs[s.piece.index].epoch).nonceLen + 12 + s.piece.len
  {
    PlaintextIsAsLong(msgs, s.piece);
    hide PlaintextOf, ContentOf;
  }

  /** Packets are filled: the flight is at its end, or not even one byte of its next message would
      fit behind what is in the packet. */
  lemma {:induction false} PacketIsFull(w: Writer, msgs: seq<OutMessage>, pos: Position, maxOut: nat, progress: bool)
    requires Healthy(w, msgs, pos) && maxOut < 0x1_0000
    ensures var r := SealNextPacket(w, msgs, pos, maxOut, progress);
            && r.pos.written <= |msgs|
            && (r.pos.written < |msgs| ==>
                  && HasKeys(w, msgs[r.pos.written].epoch)
                  && maxOut - |Records(r.sent)| < LeastRoom(w, msgs[r.pos.written]))
    decreases |msgs| - pos.written
  {
    hide SealNextMessage, Healthy, Sized, GoodPiece, LeastRoom, IsSealed, IsNext, Behind, KeysOf, HasKeys, GoodPosition,
         Records;
    HealthyIsGood(w, msgs, pos);
    if pos.written < |msgs| {
      AttemptIsHealthy(w, msgs, pos, maxOut);
      AttemptIsNext(w, msgs, pos, maxOut);
      var a := SealNextMessage(w, msgs, pos, maxOut);
      if a.Progress? {
        var next := Behind(msgs, a.sent.piece);
        NextIsLegal(w, msgs, pos, maxOut, a.sent, a.complete);
        HealthyIsGood(a.writer, msgs, next);
        if a.complete {
          var r := SealNextPacket(a.writer, msgs, next, maxOut - |a.sent.record|, true);
          PacketIsFull(a.writer, msgs, next, maxOut - |a.sent.record|, true);
          PiecesOfMore(a.sent, r.sent);
          if r.pos.written < |msgs| {
            SameLeastRoom(a.writer, w, msgs[r.pos.written]);
          }
        } else {
          PieceFillsRoom(w, msgs, pos, maxOut);
          PartialIsFull(w, msgs, pos, maxOut, a.sent);
          PiecesOfMore(a.sent, []);
          assert [a.sent] + [] == [a.sent];
        }
      }
    }
  }

  lemma PartialIsFull(w: Writer, msgs: seq<OutMessage>, pos: Position, maxOut: nat, s: Sent)
    requires SizedWriter(w) && IsNext(w, msgs, pos, maxOut, s, false)
    requires s.piece.index < |msgs| && HasKeys(w, msgs[s.piece.index].epoch)
    requires s.piece.len + 12 + 13 + KeysOf(w, msgs[s.piece.index].epoch).MaxOverhead() == maxOut
    ensures maxOut - |s.record| < LeastRoom(w, msgs[s.piece.index])
  {
    hide Sized, ContentOf, PlaintextOf;
    if !msgs[s.piece.index].isCcs {
      RecordIsLong(w, msgs, s);
    }
  }

  lemma HealthyIsGood(w: Writer, msgs: seq<OutMessage>, pos: Position)
    requires Healthy(w, msgs, pos)
    ensures SizedWriter(w) && GoodPosition(msgs, pos)
    ensures pos.written < |msgs| ==> HasKeys(w, msgs[pos.written].epoch)
  {
    assert pos.written < |msgs| ==> Sendable(w, msgs[pos.written]);
  }

  /** When a packet fails, nothing of it is sent, and yet the position has moved on, if and only
      if something could be sealed at the position: only a failed transport write restores it. */
  lemma FailedSealLosesPosition(w: Writer, msgs: seq<OutMessage>, pos: Position, maxOut: nat)
    requires SizedWriter(w) && pos.written < |msgs| && GoodPosition(msgs, pos)
    ensures var r := SealNextPacket(w, msgs, pos, maxOut, false);
            !r.ok ==> (r.pos != pos <==> SealNextMessage(w, msgs, pos, maxOut).Progress?)
  {
    hide SealNextMessage, IsNext, Sized, SizedWriter, GoodPiece, GoodPosition, Behind, IsSealed;
    PacketCarriesOn(w, msgs, pos, maxOut, false);
    FirstIsSent(w, msgs, pos, maxOut);
  }

  lemma FirstIsSent(w: Writer, msgs: seq<OutMessage>, pos: Position, maxOut: nat)
    requires SizedWriter(w) && pos.written < |msgs| && GoodPosition(msgs, pos)
    ensures SealNextPacket(w, msgs, pos, maxOut, false).sent != [] <==> SealNextMessage(w, msgs, pos, maxOut).Progress?
  {
    hide SealNextMessage, Sized, GoodPiece, IsSealed, Behind;
    AttemptIsNext(w, msgs, pos, maxOut);
  }

  /** A cipher that does nothing. */
  const NO_CIPHER := Aead(true, 0xfeff, 0, 0, n => 0, (c, p) => Some(p), (c, p) => Some(p))

  const TWO_BYTES := [OutMessage([], 0, true), OutMessage([], 0, true)]

  /** A byte is sealed with a number if that is not the last one there is. */
  lemma SealsByte(seqNo: nat, i: nat, maxOut: nat)
    requires seqNo < SEQUENCES && i < 2 && maxOut >= 14
    ensures var w := Writer(0, seqNo, 0, NO_CIPHER, NO_CIPHER);
            var a := SealNextMessage(w, TWO_BYTES, Position(i, 0), maxOut);
            && SizedWriter(w)
            && (seqNo < SEQUENCES - 1 ==> a.Progress? && a.complete && a.sent.piece == Piece(i, 0, 0)
                                          && |a.sent.record| == 14 && a.writer == w.(seqNo := seqNo + 1))
            && (seqNo == SEQUENCES - 1 ==> a.SealError?)
  {
    hide SealNextMessage, SealRecord, EncRecord, Sequence, PlaintextOf;
    var w := Writer(0, seqNo, 0, NO_CIPHER, NO_CIPHER);
    TriesByte(w, i, maxOut);
    ByteRecord(seqNo, maxOut);
  }

  lemma {:induction false} TriesByte(w: Writer, i: nat, maxOut: nat)
    requires ValidWriter(w) && w.epoch == 0 && w.aead == NO_CIPHER && i < 2 && maxOut >= 14
    ensures GoodPiece(TWO_BYTES, Piece(i, 0, 0)) && PlaintextOf(TWO_BYTES, Piece(i, 0, 0)) == [MT_CCS]
    ensures SealNextMessage(w, TWO_BYTES, Position(i, 0), maxOut)
         == SealPiece(w, TWO_BYTES, Piece(i, 0, 0), Current, maxOut)
    ensures Behind(TWO_BYTES, Piece(i, 0, 0)) == Position(i + 1, 0)
  {
    hide SealPiece, ContentOf;
    assert TWO_BYTES[i] == OutMessage([], 0, true);
  }

  lemma ByteRecord(seqNo: nat, maxOut: nat)
    requires seqNo < SEQUENCES && maxOut >= 14
    ensures var w := Writer(0, seqNo, 0, NO_CIPHER, NO_CIPHER);
            var c := ContextFor(w, Current, RT_CHANGE_CIPHER_SPEC);
            SealRecord(w, Current, RT_CHANGE_CIPHER_SPEC, [MT_CCS], maxOut)
            == (if seqNo == SEQUENCES - 1 then Sealed(w.(seqNo := 0), None, true)
                else Sealed(w.(seqNo := seqNo + 1), Some(EncRecord(c, [MT_CCS])), true))
  {
    hide Sequence, EncRecord;
    var c := ContextFor(Writer(0, seqNo, 0, NO_CIPHER, NO_CIPHER), Current, RT_CHANGE_CIPHER_SPEC);
    assert NO_CIPHER.seal(c, [MT_CCS]) == Some([MT_CCS]) && NO_CIPHER.tagLen(1) == 0;
  }

  /** The number of the first record is the last but one there is; two messages of a byte each
      would fit the packet. The second one cannot be sealed, and the first one is passed over. */
  lemma PositionIsLost()
    ensures var w := Writer(0, SEQUENCES - 2, 0, NO_CIPHER, NO_CIPHER);
            && SizedWriter(w)
            && !SealNextPacket(w, TWO_BYTES, Position(0, 0), 228, false).ok
            && SealNextPacket(w, TWO_BYTES, Position(0, 0), 228, false).pos == Position(1, 0)
  {
    hide SealNextMessage, Sized, IsSealed;
    SealsByte(SEQUENCES - 2, 0, 228);
    SealsByte(SEQUENCES - 1, 1, 214);
    var w := Writer(0, SEQUENCES - 2, 0, NO_CIPHER, NO_CIPHER);
    AttemptIsNext(w, TWO_BYTES, Position(0, 0), 228);
    assert Behind(TWO_BYTES, Piece(0, 0, 0)) == Position(1, 0);
  }
}
