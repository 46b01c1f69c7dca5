/** Flights that span a change of the write keys, such as the last one of a handshake: the messages
    added before the change are sealed with the keys that were in use then, the others with the
    present ones, and messages of any other epoch are never sealed. */
module DtlsKeyChange {
  import opened ByteString
  import opened DtlsFragment
  import opened DtlsRecord
  import opened DtlsWriter
  import opened DtlsFlight
  import opened DtlsPacket
  import opened DtlsSender
  import opened DtlsWriteSide

  // ------------------------------------------------------------------- one message

  /** What has been sealed carries the epoch of its message, and is what the keys of that epoch
      make of the next fragment. */
  lemma SealedInOwnEpoch(w: Writer, msgs: seq<OutMessage>, pos: Position, maxOut: nat)
    requires SizedWriter(w) && pos.written < |msgs| && GoodPosition(msgs, pos)
    ensures var a, epoch := SealNextMessage(w, msgs, pos, maxOut), msgs[pos.written].epoch;
            a.Progress? ==>
              && (epoch == w.epoch || (w.epoch >= 1 && epoch == w.epoch - 1))
              && GoodPiece(msgs, a.sent.piece) && a.sent.piece.index == pos.written
              && |a.sent.context.sequence| == 8 && a.sent.context.sequence[..2] == EncBE(epoch, 2)
              && var sealed := (if epoch == w.epoch then w.aead else w.lastAead)
                               .seal(a.sent.context, PlaintextOf(msgs, a.sent.piece));
                 sealed.Some? && a.sent.record == EncRecord(a.sent.context, sealed.value)
  {
    AttemptIsNext(w, msgs, pos, maxOut);
    hide SealNextMessage, Sized, EncBE, EncRecord, PlaintextOf, ContentOf;
  }

  /** A message that was added two key changes ago, or before, is not sealed any more. */
  lemma OtherEpochsFail(w: Writer, msgs: seq<OutMessage>, pos: Position, maxOut: nat)
    requires ValidWriter(w) && pos.written < |msgs|
    requires msgs[pos.written].epoch != w.epoch && (w.epoch == 0 || msgs[pos.written].epoch != w.epoch - 1)
    ensures SealNextMessage(w, msgs, pos, maxOut) == SealError(w)
  {
  }

  // ---------------------------------------------------------------- a whole flight

  /** The first `k` messages were added before the last key change, the others after it. */
  ghost predicate Spans(w: Writer, msgs: seq<OutMessage>, k: nat) {
    && k <= |msgs| && (k > 0 ==> w.epoch >= 1)
    && (forall i :: 0 <= i < |msgs| ==> msgs[i].isCcs || ContentOf(msgs[i]).Message?)
    && (forall i :: 0 <= i < k ==> msgs[i].epoch == w.epoch - 1)
    && (forall i :: k <= i < |msgs| ==> msgs[i].epoch == w.epoch)
  }

  /** The ciphers of both epochs seal everything and add no more than 202 bytes, and neither
      counter is near its end. */
  ghost predicate Capable(w: Writer, msgs: seq<OutMessage>) {
    && SizedWriter(w) && Willing(w.aead) && Willing(w.lastAead)
    && w.aead.MaxOverhead() <= 202 && w.lastAead.MaxOverhead() <= 202
    && w.seqNo + Work(msgs, 0) < SEQUENCES && w.lastSeqNo + Work(msgs, 0) < SEQUENCES
  }

  /** All of a flight that spans a key change can be sealed, at any MTU that is not too small. */
  lemma SpanningIsHealthy(w: Writer, msgs: seq<OutMessage>, k: nat, mtu: nat)
    requires Spans(w, msgs, k) && Capable(w, msgs) && MIN_MTU <= mtu < 0x1_0000
    ensures Healthy(w, msgs, Position(0, 0)) && RoomForAll(w, msgs, mtu)
  {
    hide Sized, Willing, ContentOf;
    forall i | 0 <= i < |msgs|
      ensures Sendable(w, msgs[i])
    {
      assert i < k || msgs[i].epoch == w.epoch;
    }
    forall m | m in msgs && HasKeys(w, m.epoch)
      ensures LeastRoom(w, m) <= mtu
    {
      MinMtuSuffices(w, m);
    }
  }

  function FlightOf(epoch: nat, first: seq<byte>, last: seq<byte>): seq<OutMessage> {
    [OutMessage(first, epoch, false), OutMessage([], epoch, true), OutMessage(last, epoch + 1, false)]
  }

  /** The end of a side's handshake is added: a handshake message and a ChangeCipherSpec, and
      another message when the keys have been changed. */
  method AddLastFlight(sender: Sender, first: seq<byte>, keys: Aead, last: seq<byte>)
    requires sender.Valid() && sender.complete && sender.write.epoch < EPOCHS - 1
    requires keys.version < U16 && Sized(keys)
    requires |first| <= 0xffff_ffff && |last| <= 0xffff_ffff
    modifies sender, sender.messages, sender.write, sender.write.writeSequence, sender.write.lastWriteSequence
    ensures sender.Valid() && sender.Pos() == Position(0, 0) && !sender.complete
    ensures sender.transcript == old(sender.transcript) + [first, last]
    ensures sender.write.View() == NextWriteEpoch(old(sender.write.View()), keys)
    ensures sender.Msgs() == FlightOf(old(sender.write.epoch), first, last)
  {
    hide Sized, ContentOf, WriteSide.View;
    var ok := sender.AddOutgoing(false, first);
    ok := sender.AddOutgoing(true, []);
    assert sender.Msgs() == [OutMessage(first, sender.write.epoch, false), OutMessage([], sender.write.epoch, true)];
    ghost var msgs := sender.Msgs();
    sender.write.SetWriteState(keys);
    assert sender.Msgs() == msgs;
    ok := sender.AddOutgoing(false, last);
    assert sender.Msgs() == FlightOf(old(sender.write.epoch), first, last);
  }

  /** Such a flight spans the key change. */
  lemma FlightOfSpans(w: Writer, w': Writer, first: seq<byte>, keys: Aead, last: seq<byte>)
    requires SizedWriter(w) && w.epoch < EPOCHS - 1 && keys.version < U16 && Sized(keys)
    requires w' == NextWriteEpoch(w, keys)
    requires Willing(keys) && Willing(w.aead) && keys.MaxOverhead() <= 202 && w.aead.MaxOverhead() <= 202
    requires ContentOf(OutMessage(first, 0, false)).Message? && ContentOf(OutMessage(last, 0, false)).Message?
    requires w.seqNo + |first| + |last| + 3 < SEQUENCES
    ensures Spans(w', FlightOf(w.epoch, first, last), 2) && Capable(w', FlightOf(w.epoch, first, last))
  {
    hide Sized, Willing, ParseFragment;
    var msgs := FlightOf(w.epoch, first, last);
    assert Work(msgs, 3) == 0;
    assert Work(msgs, 2) == |last| + 1;
    assert Work(msgs, 1) == 1 + Work(msgs, 2);
    assert Work(msgs, 0) == |first| + 1 + Work(msgs, 1);
  }

  /** A transport that takes every packet gets the whole flight, cut as the MTU demands, every
      record sealed in the epoch its message was added in. */
  method SendLastFlight(sender: Sender, first: seq<byte>, keys: Aead, last: seq<byte>, mtu: nat, transport: Transport)
    returns (ret: int, ghost sent: seq<Sent>, ghost packets: seq<seq<byte>>)
    requires sender.Valid() && sender.complete && transport.steady && sender.write.epoch < EPOCHS - 1
    requires keys.version < U16 && Sized(keys) && MIN_MTU <= mtu < 0x1_0000
    requires Willing(keys) && Willing(sender.write.aead)
    requires keys.MaxOverhead() <= 202 && sender.write.aead.MaxOverhead() <= 202
    requires |first| <= 0xffff_ffff && |last| <= 0xffff_ffff
    requires ContentOf(OutMessage(first, 0, false)).Message? && ContentOf(OutMessage(last, 0, false)).Message?
    requires sender.write.View().seqNo + |first| + |last| + 3 < SEQUENCES
    modifies sender, sender.messages, sender.write, sender.write.writeSequence, sender.write.lastWriteSequence, transport
    ensures sender.Valid() && ret == 1 && sender.Pos() == Position(3, 0)
    ensures transport.flushed == |transport.accepted|
    ensures transport.accepted == old(transport.accepted) + packets
    ensures var w, msgs := NextWriteEpoch(old(sender.write.View()), keys),
                           FlightOf(old(sender.write.epoch), first, last);
            Went(w, msgs, Position(0, 0), Position(3, 0), mtu, sent, packets)
  {
    hide Sized, Willing, ContentOf, Spans, Capable, Went, Healthy, RoomForAll, WriteSide.View;
    FlightOfSpans(sender.write.View(), NextWriteEpoch(sender.write.View(), keys), first, keys, last);
    AddLastFlight(sender, first, keys, last);
    SpanningIsHealthy(sender.write.View(), sender.Msgs(), 2, mtu);
    ghost var sealed;
    ret, sealed, sent, packets := sender.FlushFlight(mtu, transport);
  }
}
