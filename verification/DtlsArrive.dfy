/** A packet that has just been sealed gets through whole: a reader in one of its epochs that has
    seen only earlier numbers takes every record of that epoch out of it. */
module DtlsArrive {
  import opened ByteString
  import opened DtlsFlight
  import opened DtlsOpen
  import opened DtlsPacket
  import opened DtlsRecord
  import opened DtlsWindow
  import opened DtlsWriter
  import DtlsWire

  // ------------------------------------------------------------------- numbers

  lemma {:induction false} DecodedParts(a: seq<byte>, b: seq<byte>)
    ensures DecBE(a + b) == DecBE(a) * Pow256(|b|) + DecBE(b)
  {
    if b == [] {
      assert a + b == a;
    } else {
      var front, last := b[..|b| - 1], b[|b| - 1];
      assert (a + b)[..|a + b| - 1] == a + front;
      DecodedParts(a, front);
      Distribute(DecBE(a), Pow256(|front|), DecBE(front), last);
    }
  }

  lemma Distribute(x: nat, p: nat, y: nat, z: nat)
    ensures (x * p + y) * 256 + z == x * (256 * p) + (y * 256 + z)
  {
  }

  /** The 64-bit number of a record: its epoch and its number in it. */
  lemma SequenceIs(epoch: nat, seqNo: nat)
    requires epoch < EPOCHS && seqNo < SEQUENCES
    ensures DecBE(Sequence(epoch, seqNo)) == epoch * SEQUENCES + seqNo
    ensures EpochOf(Sequence(epoch, seqNo)) == epoch
  {
    Pow256Values();
    BigEndianRoundTrip(epoch, 2);
    BigEndianRoundTrip(seqNo, 6);
    DecodedParts(EncBE(epoch, 2), EncBE(seqNo, 6));
    hide EncBE, DecBE, Pow256;
    assert Sequence(epoch, seqNo)[..2] == EncBE(epoch, 2);
  }

  /** The writer when one number of an epoch has been used. */
  function After(w: Writer, epoch: nat): Writer {
    if epoch == w.epoch then w.(seqNo := w.seqNo + 1) else w.(lastSeqNo := w.lastSeqNo + 1)
  }

  /** The records have the next numbers of their epochs, one after the other, and none is the last. */
  ghost predicate InTurn(w: Writer, msgs: seq<OutMessage>, sent: seq<Sent>, end: Writer)
    decreases |sent|
  {
    if sent == [] then end == w
    else
      && sent[0].piece.index < |msgs|
      && var epoch := msgs[sent[0].piece.index].epoch;
         && HasKeys(w, epoch) && NextNumber(w, epoch) < SEQUENCES - 1
         && sent[0].context.sequence == Sequence(epoch, NextNumber(w, epoch))
         && InTurn(After(w, epoch), msgs, sent[1..], end)
  }

  lemma PieceHasNextNumber(w: Writer, msgs: seq<OutMessage>, p: Piece, use: UseEpoch, maxOut: nat)
    requires ValidWriter(w) && GoodPiece(msgs, p) && UseFor(w, msgs[p.index].epoch) == Some(use)
    ensures var a, epoch := SealPiece(w, msgs, p, use, maxOut), msgs[p.index].epoch;
            a.Progress? ==>
              && a.sent.piece == p && NextNumber(w, epoch) < SEQUENCES - 1
              && a.sent.context.sequence == Sequence(epoch, NextNumber(w, epoch)) && a.writer == After(w, epoch)
  {
    hide EncRecord, EncBE, PlaintextOf, Behind, Sequence;
    UsesOwnEpoch(w, msgs[p.index].epoch);
  }

  lemma AttemptHasNextNumber(w: Writer, msgs: seq<OutMessage>, pos: Position, maxOut: nat)
    requires SizedWriter(w) && pos.written < |msgs| && GoodPosition(msgs, pos)
    ensures var a, epoch := SealNextMessage(w, msgs, pos, maxOut), msgs[pos.written].epoch;
            a.Progress? ==>
              && a.sent.piece.index == pos.written && HasKeys(w, epoch) && NextNumber(w, epoch) < SEQUENCES - 1
              && a.sent.context.sequence == Sequence(epoch, NextNumber(w, epoch)) && a.writer == After(w, epoch)
  {
    hide SealNextMessage, SealPiece, NextPiece, GoodPiece, Sequence, ContentOf, Sized;
    UsesOwnEpoch(w, msgs[pos.written].epoch);
    AttemptShape(w, msgs, pos, maxOut);
    var use, p := UseFor(w, msgs[pos.written].epoch), NextPiece(w, msgs, pos, maxOut);
    if use.Some? && GoodPiece(msgs, p) && p.index == pos.written {
      PieceHasNextNumber(w, msgs, p, use.value, maxOut);
    }
  }

  lemma TurnOfMore(w: Writer, w': Writer, msgs: seq<OutMessage>, s: Sent, sent: seq<Sent>, end: Writer)
    requires s.piece.index < |msgs|
    requires var epoch := msgs[s.piece.index].epoch;
             && HasKeys(w, epoch) && NextNumber(w, epoch) < SEQUENCES - 1
             && s.context.sequence == Sequence(epoch, NextNumber(w, epoch)) && w' == After(w, epoch)
    requires InTurn(w', msgs, sent, end)
    ensures InTurn(w, msgs, [s] + sent, end)
  {
    assert ([s] + sent)[1..] == sent;
  }

  /** The records of a packet take the next numbers, of both epochs. */
  lemma {:induction false} PacketInTurn(w: Writer, msgs: seq<OutMessage>, pos: Position, maxOut: nat, progress: bool)
    requires SizedWriter(w) && GoodPosition(msgs, pos)
    ensures var p := SealNextPacket(w, msgs, pos, maxOut, progress);
            p.ok ==> InTurn(w, msgs, p.sent, p.writer)
    decreases |msgs| - pos.written
  {
    hide SealNextMessage, Sized, IsSealed, IsNext, Behind, GoodPiece, Sequence;
    if pos.written < |msgs| {
      AttemptIsNext(w, msgs, pos, maxOut);
      AttemptHasNextNumber(w, msgs, pos, maxOut);
      var a := SealNextMessage(w, msgs, pos, maxOut);
      if a.Progress? {
        NextIsLegal(w, msgs, pos, maxOut, a.sent, a.complete);
        if a.complete {
          var next := Behind(msgs, a.sent.piece);
          PacketInTurn(a.writer, msgs, next, maxOut - |a.sent.record|, true);
          var more := SealNextPacket(a.writer, msgs, next, maxOut - |a.sent.record|, true);
          if more.ok {
            TurnOfMore(w, a.writer, msgs, a.sent, more.sent, more.writer);
          }
        } else {
          TurnOfMore(w, a.writer, msgs, a.sent, [], a.writer);
          assert [a.sent] + [] == [a.sent];
        }
      }
    }
  }

  // ------------------------------------------------------------------- arriving

  /** What the pieces of one epoch are to the receiver. */
  ghost function Payload(w: Writer, msgs: seq<OutMessage>, sent: seq<Sent>, epoch: nat): seq<Got>
    requires forall s :: s in sent ==> IsSealed(w, msgs, s)
  {
    if sent == [] then []
    else
      var s := sent[0];
      assert IsSealed(w, msgs, s);
      (if msgs[s.piece.index].epoch == epoch
       then [Got(if msgs[s.piece.index].isCcs then RT_CHANGE_CIPHER_SPEC else RT_HANDSHAKE, s.context.sequence,
                 PlaintextOf(msgs, s.piece))]
       else [])
      + Payload(w, msgs, sent[1..], epoch)
  }

  ghost function KnownsOf(w: Writer, msgs: seq<OutMessage>, sent: seq<Sent>): seq<Known>
    requires forall s :: s in sent ==> IsSealed(w, msgs, s)
  {
    if sent == [] then []
    else
      assert IsSealed(w, msgs, sent[0]);
      [DtlsWire.KnownOf(w, msgs, sent[0])] + KnownsOf(w, msgs, sent[1..])
  }

  /** The reader has seen none of the numbers that the writer will use in its epoch. */
  ghost predicate Behindhand(r: Reader, seen: set<nat>, w: Writer) {
    && HasKeys(w, r.epoch) && r.epoch < EPOCHS && Exact(r.window, seen)
    && (forall n :: n in seen ==> n < r.epoch * SEQUENCES + NextNumber(w, r.epoch))
    && r.window.max <= r.epoch * SEQUENCES + NextNumber(w, r.epoch)
  }

  lemma {:induction false} KnownsAreBytes(keys: DtlsWire.Keys, w: Writer, msgs: seq<OutMessage>, sent: seq<Sent>,
                                          r: Reader)
    requires DtlsWire.GoodKeys(keys) && SizedWriter(w) && HasKeys(w, r.epoch) && r.epoch < EPOCHS
    requires w.aead == keys(w.epoch) && (w.epoch >= 1 ==> w.lastAead == keys(w.epoch - 1))
    requires forall s :: s in sent ==> IsSealed(w, msgs, s)
    requires VersionOk(keys(r.epoch), w.aead.version) && |Records(sent)| <= MAX_ENCRYPTED_LENGTH
    ensures Bytes(KnownsOf(w, msgs, sent)) == Records(sent)
    ensures AllGenuine(r.epoch, keys(r.epoch), KnownsOf(w, msgs, sent))
  {
    hide IsSealed, Sized, EncRecord, VersionOk, Genuine;
    if sent != [] {
      KnownsAreBytes(keys, w, msgs, sent[1..], r);
      KnownIsGenuine(w, msgs, sent[0], r.epoch);
      var k, more := DtlsWire.KnownOf(w, msgs, sent[0]), KnownsOf(w, msgs, sent[1..]);
      assert ([k] + more)[1..] == more;
      assert forall x :: x in [k] + more ==> x == k || x in more;
    }
  }

  lemma KnownIsGenuine(w: Writer, msgs: seq<OutMessage>, s: Sent, epoch: nat)
    requires SizedWriter(w) && HasKeys(w, epoch) && epoch < EPOCHS && IsSealed(w, msgs, s)
    requires VersionOk(KeysOf(w, epoch), w.aead.version) && |s.record| <= MAX_ENCRYPTED_LENGTH
    ensures var k := DtlsWire.KnownOf(w, msgs, s);
            && s.record == EncRecord(k.context, k.body) && Genuine(epoch, KeysOf(w, epoch), k)
  {
    hide PlaintextOf, ContentOf, EncBE, DecBE, VersionOk, Sized, KeysOf, Pow256;
    Pow256Values();
    BigEndianRoundTrip(msgs[s.piece.index].epoch, 2);
  }

  lemma KnownIsNew(w0: Writer, w: Writer, msgs: seq<OutMessage>, s: Sent, epoch: nat, seen: set<nat>, max: nat)
    requires SizedWriter(w0)
    requires IsSealed(w0, msgs, s) && SameKeys(w0, w) && HasKeys(w, epoch) && epoch < EPOCHS
    requires |s.record| <= MAX_PLAIN_LENGTH
    requires NextNumber(w, msgs[s.piece.index].epoch) < SEQUENCES - 1
    requires s.context.sequence == Sequence(msgs[s.piece.index].epoch, NextNumber(w, msgs[s.piece.index].epoch))
    requires forall n :: n in seen ==> n < epoch * SEQUENCES + NextNumber(w, epoch)
    requires max <= epoch * SEQUENCES + NextNumber(w, epoch)
    ensures var k := DtlsWire.KnownOf(w0, msgs, s);
            && |k.context.sequence| == 8 && (IsNew(epoch, seen, max, k) <==> msgs[s.piece.index].epoch == epoch)
            && k.context == s.context && k.plaintext == PlaintextOf(msgs, s.piece)
            && k.context.recordType == (if msgs[s.piece.index].isCcs then RT_CHANGE_CIPHER_SPEC else RT_HANDSHAKE)
            && (msgs[s.piece.index].epoch == epoch ==>
                  DecBE(k.context.sequence) == epoch * SEQUENCES + NextNumber(w, epoch))
  {
    var e := msgs[s.piece.index].epoch;
    SequenceIs(e, NextNumber(w, e));
    hide DecBE, EncBE, Sequence, GoodPiece, PlaintextOf, EpochOf;
    var k := DtlsWire.KnownOf(w0, msgs, s);
    assert KeysOf(w0, e).seal(k.context, k.plaintext).Some?;
  }

  predicate Below(got: seq<Got>, bound: nat) {
    forall g :: g in got ==> DecBE(g.sequence) < bound
  }

  /** All the records of the reader's epoch are new to it. */
  lemma {:induction false} AllAreNew(w0: Writer, w: Writer, msgs: seq<OutMessage>, sent: seq<Sent>, end: Writer,
                                     epoch: nat, seen: set<nat>, max: nat)
    requires SizedWriter(w0)
    requires forall s :: s in sent ==> IsSealed(w0, msgs, s)
    requires forall k :: k in KnownsOf(w0, msgs, sent) ==> |k.context.sequence| == 8
    requires InTurn(w, msgs, sent, end) && SameKeys(w0, w) && HasKeys(w, epoch) && epoch < EPOCHS
    requires |Records(sent)| <= MAX_PLAIN_LENGTH
    requires forall n :: n in seen ==> n < epoch * SEQUENCES + NextNumber(w, epoch)
    requires max <= epoch * SEQUENCES + NextNumber(w, epoch)
    ensures NewOnes(epoch, seen, max, KnownsOf(w0, msgs, sent)) == Payload(w0, msgs, sent, epoch)
    ensures SameKeys(w0, end) && NextNumber(w, epoch) <= NextNumber(end, epoch)
    ensures Below(Payload(w0, msgs, sent, epoch), epoch * SEQUENCES + NextNumber(end, epoch))
    decreases |sent|
  {
    hide IsSealed, Sized, DecBE, Sequence, IsNew;
    if sent != [] {
      var s, e, knowns := sent[0], msgs[sent[0].piece.index].epoch, KnownsOf(w0, msgs, sent);
      var k, more := DtlsWire.KnownOf(w0, msgs, s), KnownsOf(w0, msgs, sent[1..]);
      assert knowns[0] == k && knowns[1..] == more;
      KnownIsNew(w0, w, msgs, s, epoch, seen, max);
      var n := DecBE(k.context.sequence);
      var isNew := IsNew(epoch, seen, max, k);
      AllAreNew(w0, After(w, e), msgs, sent[1..], end, epoch, if isNew then seen + {n} else seen,
                if isNew then Max(n, max) else max);
      assert [k] + more == knowns;
    }
  }

  /** Whatever a packet holds of the reader's epoch comes out of it again, in order and complete,
      and the reader is as far behind the writer as before: so does the next packet. */
  lemma PacketArrives(keys: DtlsWire.Keys, w: Writer, msgs: seq<OutMessage>, pos: Position, mtu: nat,
                      r: Reader, seen: set<nat>)
    requires DtlsWire.GoodKeys(keys) && SizedWriter(w) && GoodPosition(msgs, pos)
    requires w.aead == keys(w.epoch) && (w.epoch >= 1 ==> w.lastAead == keys(w.epoch - 1))
    requires Behindhand(r, seen, w) && VersionOk(keys(r.epoch), w.aead.version) && mtu <= MAX_PLAIN_LENGTH
    ensures var p := SealNextPacket(w, msgs, pos, mtu, false);
            p.ok ==>
              && (forall s :: s in p.sent ==> IsSealed(w, msgs, s))
              && var e := OpenPacket(r, keys(r.epoch), Records(p.sent));
                 && e.got == Payload(w, msgs, p.sent, r.epoch)
                 && Behindhand(e.reader, seen + NumbersOf(e.got), p.writer)
  {
    hide IsSealed, Sized, DecBE, EncRecord, VersionOk, SealNextPacket, OpenPacket, InTurn, GoodPosition, Exact;
    var p := SealNextPacket(w, msgs, pos, mtu, false);
    PacketCarriesOn(w, msgs, pos, mtu, false);
    PacketInTurn(w, msgs, pos, mtu, false);
    if p.ok {
      KnownsAreBytes(keys, w, msgs, p.sent, r);
      var records := KnownsOf(w, msgs, p.sent);
      PacketOpens(r, keys(r.epoch), seen, records);
      AllAreNew(w, w, msgs, p.sent, p.writer, r.epoch, seen, r.window.max);
    }
  }
}
