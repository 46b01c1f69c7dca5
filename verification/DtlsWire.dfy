/** The DTLS handshake transport down to the datagrams: a sender that fills packets for any MTU
    and is interrupted, goes on, starts over and changes its keys; a network that loses,
    duplicates and reorders packets; a receiver that opens the records of a packet one after the
    other. Every run of it is one of `DtlsRun`, so what is released is what was added. */
module DtlsWire {
  import opened ByteString
  import opened DtlsFlight
  import opened DtlsOpen
  import opened DtlsPacket
  import DtlsRecord
  import DtlsRing
  import DtlsRun
  import DtlsWriter

  type Keys = nat -> DtlsRecord.Aead

  /** The sender: every message added, in the form it was hashed in; the flight and whether it
      is complete; the next message number; its write state; where it stands in the flight.
      The network: every packet the transport took. The receiver: its read state, what is left
      of the packet it is reading, its ring, and the messages it has released. */
  datatype Wire = Wire(added: seq<seq<byte>>, msgs: seq<OutMessage>, complete: bool, writeSeq: nat,
                       writer: DtlsWriter.Writer, pos: Position, packets: set<seq<byte>>,
                       reader: DtlsRecord.Reader, buffer: seq<byte>, ring: DtlsRing.Ring, released: seq<seq<byte>>)

  datatype Event =
    | AddMessage(msgType: byte, body: seq<byte>)
    | AddChangeCipherSpec
    | NewWriteKeys
    | Complete
    | Rewind
    | SendPacket(mtu: nat, taken: bool)
    | Arrive(packet: seq<byte>)
    | ReadRecord(maxLen: nat)
    | NewReadKeys
    | Release

  /** Both sides use the same keys in an epoch, and each cipher opens what it sealed. */
  ghost predicate GoodKeys(keys: Keys) {
    forall epoch :: keys(epoch).Ideal() && keys(epoch).version < DtlsWriter.U16
  }

  /** There are such keys: ciphers that do nothing. */
  lemma KeysExist()
    ensures GoodKeys(epoch => NO_CIPHER)
  {
  }

  /** The write state has the keys of its two epochs, and the sender stands in its flight. */
  ghost predicate Legal(keys: Keys, s: Wire) {
    && DtlsRing.ValidRing(s.ring) && SizedWriter(s.writer) && GoodPosition(s.msgs, s.pos)
    && s.writer.aead == keys(s.writer.epoch)
    && (s.writer.epoch >= 1 ==> s.writer.lastAead == keys(s.writer.epoch - 1))
  }

  ghost function Initial(keys: Keys): Wire {
    Wire([], [], false, 0, DtlsWriter.Writer(0, 0, 0, keys(0), keys(0)), Position(0, 0), {},
         DtlsRecord.Begin(keys(0)).reader, [], DtlsRing.EMPTY_RING, [])
  }

  /** `add_outgoing`: adding to a complete flight starts a new one. */
  function AddOutgoing(s: Wire, isCcs: bool, data: seq<byte>): Wire {
    if !s.complete && |s.msgs| >= DtlsRing.MAX_FLIGHT then s
    else
      s.(msgs := (if s.complete then [] else s.msgs) + [OutMessage(data, s.writer.epoch, isCcs)],
         pos := if s.complete then Position(0, 0) else s.pos,
         complete := false,
         added := s.added + (if isCcs then [] else [data]),
         writeSeq := if isCcs then s.writeSeq else (s.writeSeq + 1) % DtlsWriter.U16)
  }

  /** What opening the next record of the packet does. */
  function Opened(keys: Keys, s: Wire): DtlsRecord.Arrival {
    DtlsRecord.OpenRecord(s.reader, keys(s.reader.epoch), s.buffer)
  }

  ghost function Step(keys: Keys, s: Wire, e: Event): Wire
    requires GoodKeys(keys) && Legal(keys, s)
  {
    match e
    case AddMessage(msgType, body) =>
      if |body| >= 0x100_0000 then s else AddOutgoing(s, false, Finished(Unfinished(msgType, s.writeSeq, body)))
    case AddChangeCipherSpec => AddOutgoing(s, true, [])
    case NewWriteKeys =>
      s.(writer := DtlsWriter.NextWriteEpoch(s.writer, keys((s.writer.epoch + 1) % DtlsRecord.EPOCHS)))
    case Complete => s.(complete := true)
    case Rewind => s.(pos := Position(0, 0))
    case SendPacket(mtu, taken) =>
      if s.pos.written == |s.msgs| then s
      else
        var r := SealNextPacket(s.writer, s.msgs, s.pos, mtu, false);
        if !r.ok then s.(writer := r.writer, pos := r.pos)
        else if !taken then s.(writer := r.writer)
        else s.(writer := r.writer, pos := r.pos, packets := s.packets + {Records(r.sent)})
    case Arrive(packet) => if packet in s.packets then s.(buffer := packet) else s
    case ReadRecord(maxLen) =>
      var a := Opened(keys, s);
      var s' := s.(reader := a.reader, buffer := s.buffer[a.consumed..]);
      if a.result.Accepted? && a.result.recordType == RT_HANDSHAKE
      then s'.(ring := DtlsRing.TakeRecord(s.ring, a.result.plaintext, s.reader.epoch, maxLen).ring)
      else s'
    case NewReadKeys => s.(reader := DtlsRecord.NextReadEpoch(s.reader))
    case Release =>
      var m := DtlsRing.Current(s.ring);
      if m.None? then s else s.(ring := DtlsRing.Advance(s.ring), released := s.released + [m.value.Raw()])
  }

  // ---------------------------------------------------- what packets are made of

  /** It was sealed with the keys of its epoch, from a fragment that was sent if it is a
      handshake record. */
  ghost predicate IsKnown(keys: Keys, network: set<seq<byte>>, k: Known) {
    && |k.context.sequence| == 8 && k.context.version < DtlsWriter.U16 && |k.body| < DtlsWriter.U16
    && keys(DtlsRecord.EpochOf(k.context.sequence)).seal(k.context, k.plaintext) == Some(k.body)
    && (k.context.recordType == RT_HANDSHAKE ==> k.plaintext in network)
  }

  ghost predicate AllKnown(keys: Keys, network: set<seq<byte>>, records: seq<Known>) {
    forall k :: k in records ==> IsKnown(keys, network, k)
  }

  ghost predicate IsPacket(keys: Keys, network: set<seq<byte>>, bytes: seq<byte>) {
    exists records :: bytes == Bytes(records) && AllKnown(keys, network, records)
  }

  lemma NothingIsPacket(keys: Keys, network: set<seq<byte>>)
    ensures IsPacket(keys, network, [])
  {
    assert Bytes([]) == [] && AllKnown(keys, network, []);
  }

  /** More fragments in the network do not matter. */
  lemma StaysPacket(keys: Keys, network: set<seq<byte>>, more: set<seq<byte>>, bytes: seq<byte>)
    requires IsPacket(keys, network, bytes) && network <= more
    ensures IsPacket(keys, more, bytes)
  {
    var records :| bytes == Bytes(records) && AllKnown(keys, network, records);
    assert AllKnown(keys, more, records);
  }

  // ------------------------------------------------------ opening what was sealed

  /** A record that is known is opened to what was sealed in it, or not accepted; what follows it
      is left, unless its version or its length is refused. */
  lemma OpenKnown(keys: Keys, network: set<seq<byte>>, r: DtlsRecord.Reader, k: Known, rest: seq<byte>)
    requires GoodKeys(keys) && IsKnown(keys, network, k)
    ensures var s := DtlsRecord.EncRecord(k.context, k.body) + rest;
            var a := DtlsRecord.OpenRecord(r, keys(r.epoch), s);
            && s[a.consumed..] == (if DtlsRecord.VersionOk(keys(r.epoch), k.context.version)
                                      && |k.body| <= DtlsRecord.MAX_ENCRYPTED_LENGTH then rest else [])
            && (a.result.Accepted? ==>
                  a.result.recordType == k.context.recordType && a.result.plaintext == k.plaintext)
  {
    hide DtlsRecord.EncRecord, DtlsRecord.ParseRecord;
    DtlsRecord.ParseRecordBack(k.context, k.body, rest);
    RecordIsConsumed(r, keys(r.epoch), k.context, k.body, rest);
    var aead := keys(DtlsRecord.EpochOf(k.context.sequence));
    assert aead.open(k.context, aead.seal(k.context, k.plaintext).value) == Some(k.plaintext);
  }

  lemma ReadKnown(keys: Keys, network: set<seq<byte>>, r: DtlsRecord.Reader, buffer: seq<byte>)
    requires GoodKeys(keys) && IsPacket(keys, network, buffer)
    ensures var a := DtlsRecord.OpenRecord(r, keys(r.epoch), buffer);
            && IsPacket(keys, network, buffer[a.consumed..])
            && (a.result.Accepted? && a.result.recordType == RT_HANDSHAKE ==> a.result.plaintext in network)
  {
    var records :| buffer == Bytes(records) && AllKnown(keys, network, records);
    NothingIsPacket(keys, network);
    if records == [] {
      assert buffer == [];
    } else {
      assert records[0] in records;
      OpenKnown(keys, network, r, records[0], Bytes(records[1..]));
      assert AllKnown(keys, network, records[1..]);
      assert IsPacket(keys, network, Bytes(records[1..]));
    }
  }

  // ------------------------------------------------------------- sealing a packet

  ghost function KnownOf(w: DtlsWriter.Writer, msgs: seq<OutMessage>, s: Sent): Known
    requires IsSealed(w, msgs, s)
  {
    var keys := DtlsWriter.KeysOf(w, msgs[s.piece.index].epoch);
    Known(s.context, PlaintextOf(msgs, s.piece), keys.seal(s.context, PlaintextOf(msgs, s.piece)).value)
  }

  /** The fragments in some pieces are in the network. */
  ghost predicate AllSent(msgs: seq<OutMessage>, pieces: seq<Piece>, network: set<seq<byte>>) {
    forall p :: p in pieces && GoodPiece(msgs, p) && !msgs[p.index].isCcs ==> PlaintextOf(msgs, p) in network
  }

  lemma SentIsKnown(keys: Keys, w: DtlsWriter.Writer, msgs: seq<OutMessage>, s: Sent, network: set<seq<byte>>)
    requires DtlsWriter.ValidWriter(w) && w.aead == keys(w.epoch) && (w.epoch >= 1 ==> w.lastAead == keys(w.epoch - 1))
    requires IsSealed(w, msgs, s) && AllSent(msgs, [s.piece], network)
    ensures IsKnown(keys, network, KnownOf(w, msgs, s))
    ensures s.record == DtlsRecord.EncRecord(KnownOf(w, msgs, s).context, KnownOf(w, msgs, s).body)
  {
    Pow256Values();
    BigEndianRoundTrip(msgs[s.piece.index].epoch, 2);
    assert s.piece in [s.piece];
    hide PlaintextOf, DtlsRecord.EncRecord, EncBE, DecBE;
  }

  lemma {:induction false} PacketIsKnown(keys: Keys, w: DtlsWriter.Writer, msgs: seq<OutMessage>, sent: seq<Sent>,
                                         network: set<seq<byte>>)
    requires DtlsWriter.ValidWriter(w) && w.aead == keys(w.epoch) && (w.epoch >= 1 ==> w.lastAead == keys(w.epoch - 1))
    requires forall s :: s in sent ==> IsSealed(w, msgs, s)
    requires AllSent(msgs, Pieces(sent), network)
    ensures IsPacket(keys, network, Records(sent))
  {
    hide IsSealed, IsKnown, PlaintextOf, GoodPiece;
    if sent == [] {
      NothingIsPacket(keys, network);
    } else {
      assert Pieces(sent) == [sent[0].piece] + Pieces(sent[1..]);
      PacketIsKnown(keys, w, msgs, sent[1..], network);
      SentIsKnown(keys, w, msgs, sent[0], network);
      var records :| Records(sent[1..]) == Bytes(records) && AllKnown(keys, network, records);
      var all := [KnownOf(w, msgs, sent[0])] + records;
      assert all[1..] == records && Bytes(all) == Records(sent) && AllKnown(keys, network, all);
    }
  }

  // ------------------------------------------------- the runs it is one of

  function Steps(a: DtlsRun.System, events: seq<DtlsRun.Event>): (a': DtlsRun.System)
    requires DtlsRing.ValidRing(a.ring)
    ensures DtlsRing.ValidRing(a'.ring)
    decreases |events|
  {
    if events == [] then a
    else
      DtlsRun.StepKeepsRing(a, events[0]);
      Steps(DtlsRun.Step(a, events[0]), events[1..])
  }

  lemma {:induction false} RunGoesOn(history: seq<DtlsRun.Event>, events: seq<DtlsRun.Event>)
    ensures DtlsRun.Run(history + events) == Steps(DtlsRun.Run(history), events)
    decreases |events|
  {
    hide DtlsRun.Step, DtlsRing.ValidRing;
    if events == [] {
      assert history + events == history;
    } else {
      var more := history + [events[0]];
      assert more[..|more| - 1] == history && more + events[1..] == history + events;
      RunGoesOn(more, events[1..]);
    }
  }

  /** The fragments in some pieces are sent. */
  function Transmits(pieces: seq<Piece>): seq<DtlsRun.Event> {
    if pieces == [] then [] else [DtlsRun.Transmit(pieces[0])] + Transmits(pieces[1..])
  }

  lemma {:induction false} TransmitsSend(a: DtlsRun.System, pieces: seq<Piece>)
    requires DtlsRing.ValidRing(a.ring)
    ensures var a' := Steps(a, Transmits(pieces));
            && a' == a.(network := a'.network) && a.network <= a'.network
            && AllSent(a.flight, pieces, a'.network)
    decreases |pieces|
  {
    hide PlaintextOf, GoodPiece, DtlsRing.ValidRing;
    if pieces != [] {
      var events := Transmits(pieces);
      assert events[0] == DtlsRun.Transmit(pieces[0]) && events[1..] == Transmits(pieces[1..]);
      TransmitsSend(DtlsRun.Step(a, events[0]), pieces[1..]);
      assert forall p :: p in pieces ==> p == pieces[0] || p in pieces[1..];
    }
  }

  /** What a step is there. */
  ghost function Events(keys: Keys, s: Wire, e: Event): seq<DtlsRun.Event>
    requires GoodKeys(keys) && Legal(keys, s)
  {
    match e
    case AddMessage(msgType, body) => [DtlsRun.Add(msgType, body)]
    case AddChangeCipherSpec => [DtlsRun.AddChangeCipherSpec]
    case NewWriteKeys => [DtlsRun.Rekey]
    case Complete => [DtlsRun.Flush]
    case SendPacket(mtu, taken) =>
      if s.pos.written == |s.msgs| then []
      else
        var r := SealNextPacket(s.writer, s.msgs, s.pos, mtu, false);
        if r.ok && taken then Transmits(Pieces(r.sent)) else []
    case ReadRecord(maxLen) =>
      var a := Opened(keys, s);
      if a.result.Accepted? && a.result.recordType == RT_HANDSHAKE
      then [DtlsRun.Deliver([a.result.plaintext], s.reader.epoch, maxLen)] else []
    case Release => [DtlsRun.Release]
    case Rewind => []
    case Arrive(packet) => []
    case NewReadKeys => []
  }

  /** The same messages and the same ring; every packet is made of fragments that were sent. */
  ghost predicate Matches(keys: Keys, s: Wire, a: DtlsRun.System) {
    && s.added == DtlsRun.Raws(a.transcript) && s.writeSeq == |a.transcript| % DtlsWriter.U16
    && s.msgs == a.flight && s.complete == a.flushed && s.writer.epoch == a.epoch
    && s.ring == a.ring && s.released == a.released
    && InNetwork(keys, s, a.network)
  }

  ghost predicate InNetwork(keys: Keys, s: Wire, network: set<seq<byte>>) {
    && (forall p :: p in s.packets ==> IsPacket(keys, network, p))
    && IsPacket(keys, network, s.buffer)
  }

  lemma OneStep(a: DtlsRun.System, e: DtlsRun.Event)
    requires DtlsRing.ValidRing(a.ring)
    ensures Steps(a, [e]) == DtlsRun.Step(a, e) && Steps(a, []) == a
  {
    assert [e][1..] == [];
  }

  /** `add_outgoing` is what the flight of the other system does. */
  lemma AddOutgoingMatches(keys: Keys, s: Wire, a: DtlsRun.System, isCcs: bool, data: seq<byte>)
    requires Legal(keys, s) && Matches(keys, s, a) && (|s.msgs| < DtlsRing.MAX_FLIGHT || s.complete)
    ensures var s', a' := AddOutgoing(s, isCcs, data), DtlsRun.FlightWith(a, OutMessage(data, a.epoch, isCcs));
            && Legal(keys, s') && s'.msgs == a'.flight && s'.complete == a'.flushed
            && s'.writer.epoch == a'.epoch && s'.ring == a'.ring && s'.released == a'.released
            && InNetwork(keys, s', a'.network)
  {
    hide SizedWriter, IsPacket;
  }

  lemma AddMessageMatches(keys: Keys, s: Wire, a: DtlsRun.System, msgType: byte, body: seq<byte>)
    requires GoodKeys(keys) && Legal(keys, s) && Matches(keys, s, a)
    ensures Legal(keys, Step(keys, s, AddMessage(msgType, body)))
    ensures Matches(keys, Step(keys, s, AddMessage(msgType, body)), Steps(a, [DtlsRun.Add(msgType, body)]))
  {
    hide IsPacket, SizedWriter, DtlsRing.ValidRing, Whole, Finished, Unfinished, GoodPosition;
    OneStep(a, DtlsRun.Add(msgType, body));
    var n := |a.transcript|;
    FinishedIsWhole(msgType, n % DtlsWriter.U16, body);
    CountsOn(n);
    if |body| < 0x100_0000 && (|s.msgs| < DtlsRing.MAX_FLIGHT || s.complete) {
      var data, c := Whole(msgType, n % DtlsWriter.U16, body), Message(msgType, n % DtlsWriter.U16, body);
      AddOutgoingMatches(keys, s, a, false, data);
      assert DtlsRun.Raws(a.transcript + [c]) == DtlsRun.Raws(a.transcript) + [data];
    }
  }

  lemma CountsOn(n: nat)
    ensures (n % DtlsWriter.U16 + 1) % DtlsWriter.U16 == (n + 1) % DtlsWriter.U16
  {
  }

  lemma AddCcsMatches(keys: Keys, s: Wire, a: DtlsRun.System)
    requires GoodKeys(keys) && Legal(keys, s) && Matches(keys, s, a)
    ensures Legal(keys, Step(keys, s, AddChangeCipherSpec))
    ensures Matches(keys, Step(keys, s, AddChangeCipherSpec), Steps(a, [DtlsRun.AddChangeCipherSpec]))
  {
    hide IsPacket, SizedWriter, DtlsRing.ValidRing, GoodPosition;
    OneStep(a, DtlsRun.AddChangeCipherSpec);
    if |s.msgs| < DtlsRing.MAX_FLIGHT || s.complete {
      AddOutgoingMatches(keys, s, a, true, []);
    }
    assert s.added + [] == s.added;
  }

  /** The keys of the epoch left are those of the previous one now. */
  lemma WriteKeysMatch(keys: Keys, s: Wire, a: DtlsRun.System)
    requires GoodKeys(keys) && Legal(keys, s) && Matches(keys, s, a)
    ensures Legal(keys, Step(keys, s, NewWriteKeys))
    ensures Matches(keys, Step(keys, s, NewWriteKeys), Steps(a, [DtlsRun.Rekey]))
  {
    hide IsPacket, DtlsRing.ValidRing, GoodPosition;
    OneStep(a, DtlsRun.Rekey);
    assert keys((s.writer.epoch + 1) % DtlsRecord.EPOCHS).Ideal();
  }

  lemma SendMatches(keys: Keys, s: Wire, a: DtlsRun.System, mtu: nat, taken: bool)
    requires GoodKeys(keys) && Legal(keys, s) && Matches(keys, s, a)
    ensures Legal(keys, Step(keys, s, SendPacket(mtu, taken)))
    ensures Matches(keys, Step(keys, s, SendPacket(mtu, taken)), Steps(a, Events(keys, s, SendPacket(mtu, taken))))
  {
    hide IsPacket, Sized, DtlsRing.ValidRing, GoodPosition, SealNextPacket, Steps, Transmits, Records, Pieces,
         IsSealed, AllSent;
    OneStep(a, DtlsRun.Rekey);
    if s.pos.written != |s.msgs| {
      PacketCarriesOn(s.writer, s.msgs, s.pos, mtu, false);
      var r := SealNextPacket(s.writer, s.msgs, s.pos, mtu, false);
      if r.ok && taken {
        TransmitsSend(a, Pieces(r.sent));
        var network := Steps(a, Transmits(Pieces(r.sent))).network;
        PacketIsKnown(keys, s.writer, s.msgs, r.sent, network);
        MorePackets(keys, s, a.network, network, Records(r.sent));
      }
    }
  }

  lemma MorePackets(keys: Keys, s: Wire, network: set<seq<byte>>, more: set<seq<byte>>, packet: seq<byte>)
    requires InNetwork(keys, s, network) && network <= more && IsPacket(keys, more, packet)
    ensures InNetwork(keys, s.(packets := s.packets + {packet}), more)
  {
    hide IsPacket;
    forall p | p in s.packets
      ensures IsPacket(keys, more, p)
    {
      StaysPacket(keys, network, more, p);
    }
    StaysPacket(keys, network, more, s.buffer);
  }

  lemma ReadMatches(keys: Keys, s: Wire, a: DtlsRun.System, maxLen: nat)
    requires GoodKeys(keys) && Legal(keys, s) && Matches(keys, s, a)
    ensures Legal(keys, Step(keys, s, ReadRecord(maxLen)))
    ensures Matches(keys, Step(keys, s, ReadRecord(maxLen)), Steps(a, Events(keys, s, ReadRecord(maxLen))))
  {
    hide IsPacket, SizedWriter, DtlsRing.ValidRing, DtlsRing.TakeRecord, GoodPosition, DtlsRecord.OpenRecord, Steps;
    ReadKnown(keys, a.network, s.reader, s.buffer);
    var o := Opened(keys, s);
    if o.result.Accepted? {
      OneStep(a, DtlsRun.Deliver([o.result.plaintext], s.reader.epoch, maxLen));
      assert DtlsRun.Joined([o.result.plaintext]) == o.result.plaintext + DtlsRun.Joined([]) == o.result.plaintext;
    } else {
      OneStep(a, DtlsRun.Release);
    }
  }

  lemma ReleaseMatches(keys: Keys, s: Wire, a: DtlsRun.System)
    requires GoodKeys(keys) && Legal(keys, s) && Matches(keys, s, a)
    ensures Legal(keys, Step(keys, s, Release))
    ensures Matches(keys, Step(keys, s, Release), Steps(a, [DtlsRun.Release]))
  {
    hide IsPacket, SizedWriter, GoodPosition;
    OneStep(a, DtlsRun.Release);
    DtlsRun.StepKeepsRing(a, DtlsRun.Release);
  }

  /** The flight is marked or started over, a packet comes in, the read keys change. */
  lemma OtherMatches(keys: Keys, s: Wire, a: DtlsRun.System, e: Event)
    requires GoodKeys(keys) && Legal(keys, s) && Matches(keys, s, a)
    requires e.Complete? || e.Rewind? || e.Arrive? || e.NewReadKeys?
    ensures Legal(keys, Step(keys, s, e)) && Matches(keys, Step(keys, s, e), Steps(a, Events(keys, s, e)))
  {
    hide IsPacket, SizedWriter, DtlsRing.ValidRing;
    OneStep(a, DtlsRun.Flush);
  }

  lemma StepMatches(keys: Keys, s: Wire, a: DtlsRun.System, e: Event)
    requires GoodKeys(keys) && Legal(keys, s) && Matches(keys, s, a)
    ensures var s' := Step(keys, s, e);
            Legal(keys, s') && Matches(keys, s', Steps(a, Events(keys, s, e)))
  {
    hide Legal, Matches, Step, Steps, Opened, SealNextPacket, GoodKeys;
    match e {
      case AddMessage(msgType, body) => AddMessageMatches(keys, s, a, msgType, body);
      case AddChangeCipherSpec => AddCcsMatches(keys, s, a);
      case NewWriteKeys => WriteKeysMatch(keys, s, a);
      case SendPacket(mtu, taken) => SendMatches(keys, s, a, mtu, taken);
      case ReadRecord(maxLen) => ReadMatches(keys, s, a, maxLen);
      case Release => ReleaseMatches(keys, s, a);
      case _ => OtherMatches(keys, s, a, e);
    }
  }

  // ------------------------------------------------------------------- whole runs

  ghost function Run(keys: Keys, events: seq<Event>): (s: Wire)
    requires GoodKeys(keys)
    ensures exists history :: Matches(keys, s, DtlsRun.Run(history))
    ensures Legal(keys, s)
  {
    if events == [] then
      InitialMatches(keys);
      Initial(keys)
    else
      var s := Run(keys, events[..|events| - 1]);
      StepIsRun(keys, s, events[|events| - 1]);
      Step(keys, s, events[|events| - 1])
  }

  lemma InitialMatches(keys: Keys)
    requires GoodKeys(keys)
    ensures Legal(keys, Initial(keys)) && Matches(keys, Initial(keys), DtlsRun.Run([]))
  {
    assert keys(0).Ideal();
    NothingIsPacket(keys, {});
  }

  lemma StepIsRun(keys: Keys, s: Wire, e: Event)
    requires GoodKeys(keys) && Legal(keys, s) && exists history :: Matches(keys, s, DtlsRun.Run(history))
    ensures Legal(keys, Step(keys, s, e))
    ensures exists history :: Matches(keys, Step(keys, s, e), DtlsRun.Run(history))
  {
    hide Matches, Legal, Step, DtlsRun.Run;
    var history :| Matches(keys, s, DtlsRun.Run(history));
    StepMatches(keys, s, DtlsRun.Run(history), e);
    RunGoesOn(history, Events(keys, s, e));
    assert Matches(keys, Step(keys, s, e), DtlsRun.Run(history + Events(keys, s, e)));
  }

  /** Whatever the MTUs, the interruptions and the key changes, and whatever packets are lost,
      duplicated and reordered: the messages released are the first ones of those added, byte
      for byte in the form they were hashed in, as long as there are fewer than 65536. */
  lemma ReleasedIsPrefix(keys: Keys, events: seq<Event>)
    requires GoodKeys(keys) && |Run(keys, events).added| < DtlsWriter.U16
    ensures Run(keys, events).released <= Run(keys, events).added
  {
    var s := Run(keys, events);
    var history :| Matches(keys, s, DtlsRun.Run(history));
    DtlsRun.ReleasedIsPrefix(history);
  }
}
