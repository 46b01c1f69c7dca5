/** How a flight of DTLS handshake messages is cut into records and packets, as functions
    on values, and what all its pieces together are. */
module DtlsFlight {
  import opened ByteString
  import opened DtlsFragment
  import opened DtlsRecord
  import opened DtlsWriter

  const RT_CHANGE_CIPHER_SPEC: byte := 20
  const RT_HANDSHAKE: byte := 22
  const MT_CCS: byte := 1

  // ------------------------------------------------------------------- messages

  /** A message of the current flight, serialized as a single fragment, and the write epoch
      it was added in. */
  datatype OutMessage = OutMessage(data: seq<byte>, epoch: nat, isCcs: bool)

  /** What `dtls1_init_message` and the body leave in the buffer: the length of the message
      is not known yet, the length of the fragment is filled in behind it. */
  function Unfinished(msgType: byte, seqNo: nat, body: seq<byte>): seq<byte> {
    [msgType] + EncBE(0, 3) + EncBE(seqNo, 2) + EncBE(0, 3) + EncBE(|body|, 3) + body
  }

  /** `dtls1_finish_message`: the fragment length is copied to the message length. */
  function Finished(s: seq<byte>): seq<byte>
    requires |s| >= HM_HEADER_LENGTH
  {
    s[..1] + s[HM_HEADER_LENGTH - 3..HM_HEADER_LENGTH] + s[4..]
  }

  /** The single-fragment form of a message. */
  function Whole(msgType: byte, seqNo: nat, body: seq<byte>): (s: seq<byte>)
    ensures |s| == HM_HEADER_LENGTH + |body|
  {
    EncHeader(Header(msgType, |body|, seqNo, 0, |body|)) + body
  }

  lemma FinishedIsWhole(msgType: byte, seqNo: nat, body: seq<byte>)
    ensures Finished(Unfinished(msgType, seqNo, body)) == Whole(msgType, seqNo, body)
  {
    var s := Unfinished(msgType, seqNo, body);
    hide EncBE;
    assert s[1..4] == EncBE(0, 3) && s[9..12] == EncBE(|body|, 3);
    assert s[4..] == EncBE(seqNo, 2) + EncBE(0, 3) + EncBE(|body|, 3) + body;
  }

  /** The message in `data`, if it is a single whole fragment. */
  datatype Content = Unusable | Message(msgType: byte, seqNo: nat, body: seq<byte>)

  function ContentOf(m: OutMessage): (c: Content)
    ensures c.Message? ==> |c.body| < 0x100_0000 && c.seqNo < 0x1_0000 && |c.body| <= |m.data|
  {
    var p := ParseFragment(m.data);
    if p.Malformed? || p.header.fragOff != 0 || p.header.msgLen != |p.body| || p.rest != [] then Unusable
    else Message(p.header.msgType, p.header.seqNo, p.body)
  }

  lemma ContentOfWhole(msgType: byte, seqNo: nat, body: seq<byte>, epoch: nat)
    requires seqNo < 0x1_0000 && |body| < 0x100_0000
    ensures ContentOf(OutMessage(Whole(msgType, seqNo, body), epoch, false)) == Message(msgType, seqNo, body)
  {
    var h := Header(msgType, |body|, seqNo, 0, |body|);
    ParseBack(h, body, []);
    assert EncHeader(h) + body + [] == Whole(msgType, seqNo, body);
  }

  /** A message of a flight is usable if and only if it is the single-fragment form of some message. */
  lemma UsableIsWhole(m: OutMessage)
    ensures var c := ContentOf(m); c.Message? ==> m.data == Whole(c.msgType, c.seqNo, c.body)
  {
    hide EncHeader, ParseFragment;
    ParsedIsFragment(m.data);
    var p := ParseFragment(m.data);
    if p.Fragment? && p.rest == [] {
      assert EncHeader(p.header) + p.body + [] == EncHeader(p.header) + p.body;
    }
  }

  // --------------------------------------------------------------------- pieces

  /** A part of message number `index` of the flight: all of a ChangeCipherSpec, or the
      bytes from `off` on of a handshake message. */
  datatype Piece = Piece(index: nat, off: nat, len: nat)

  /** Message number `written` is next, `offset` bytes of it have been sent. */
  datatype Position = Position(written: nat, offset: nat)

  /** The plaintext of a handshake fragment. */
  function FragmentBytes(c: Content, off: nat, len: nat): seq<byte>
    requires c.Message? && off + len <= |c.body|
  {
    EncHeader(Header(c.msgType, |c.body|, c.seqNo, off, len)) + c.body[off..off + len]
  }

  /** A piece fits its message, and makes progress unless the message is empty. */
  predicate GoodPiece(msgs: seq<OutMessage>, p: Piece) {
    && p.index < |msgs|
    && (if msgs[p.index].isCcs then p.off == 0 && p.len == 0
        else
          var c := ContentOf(msgs[p.index]);
          && c.Message? && p.off + p.len <= |c.body| && (p.len > 0 || p.off == |c.body|))
  }

  function PlaintextOf(msgs: seq<OutMessage>, p: Piece): seq<byte>
    requires GoodPiece(msgs, p)
  {
    if msgs[p.index].isCcs then [MT_CCS] else FragmentBytes(ContentOf(msgs[p.index]), p.off, p.len)
  }

  /** Where the flight stands behind a piece. */
  function Behind(msgs: seq<OutMessage>, p: Piece): Position
    requires GoodPiece(msgs, p)
  {
    if msgs[p.index].isCcs || p.off + p.len == |ContentOf(msgs[p.index]).body| then Position(p.index + 1, 0)
    else Position(p.index, p.off + p.len)
  }

  /** The pieces lead from one position to another, each starting where the one before ends. */
  predicate Chain(msgs: seq<OutMessage>, pieces: seq<Piece>, start: Position, end: Position)
    decreases |pieces|
  {
    if pieces == [] then start == end
    else
      var p := pieces[0];
      && GoodPiece(msgs, p)
      && start == Position(p.index, p.off)
      && Chain(msgs, pieces[1..], Behind(msgs, p), end)
  }

  lemma {:induction false} ChainJoins(msgs: seq<OutMessage>, a: seq<Piece>, b: seq<Piece>,
                                      start: Position, middle: Position, end: Position)
    requires Chain(msgs, a, start, middle) && Chain(msgs, b, middle, end)
    ensures Chain(msgs, a + b, start, end)
    decreases |a|
  {
    hide GoodPiece, Behind;
    if a == [] {
      assert a + b == b;
    } else {
      assert (a + b)[0] == a[0] && (a + b)[1..] == a[1..] + b;
      ChainJoins(msgs, a[1..], b, Behind(msgs, a[0]), middle, end);
    }
  }

  /** The bytes of message `i` that the pieces carry, in the order of the pieces. */
  function Carried(msgs: seq<OutMessage>, pieces: seq<Piece>, i: nat): seq<byte>
    requires forall p :: p in pieces ==> GoodPiece(msgs, p)
  {
    if pieces == [] then []
    else
      var p := pieces[0];
      assert GoodPiece(msgs, p);
      (if p.index == i && !msgs[p.index].isCcs then ContentOf(msgs[p.index]).body[p.off..p.off + p.len] else [])
      + Carried(msgs, pieces[1..], i)
  }

  /** How many of the pieces are of message `i`. */
  function CountOf(pieces: seq<Piece>, i: nat): nat {
    if pieces == [] then 0 else (if pieces[0].index == i then 1 else 0) + CountOf(pieces[1..], i)
  }

  lemma {:induction false} ChainIsGood(msgs: seq<OutMessage>, pieces: seq<Piece>, start: Position, end: Position)
    requires Chain(msgs, pieces, start, end)
    ensures forall p :: p in pieces ==> GoodPiece(msgs, p) && p.index >= start.written
    decreases |pieces|
  {
    if pieces != [] {
      ChainIsGood(msgs, pieces[1..], Behind(msgs, pieces[0]), end);
      assert forall p :: p in pieces ==> p == pieces[0] || p in pieces[1..];
    }
  }

  /** From some position to the end of the flight, the pieces carry what is left of every
      message: no byte twice and none left out. */
  lemma {:induction false} ChainCarries(msgs: seq<OutMessage>, pieces: seq<Piece>, start: Position, i: nat)
    requires Chain(msgs, pieces, start, Position(|msgs|, 0)) && start.written <= i < |msgs|
    requires forall p :: p in pieces ==> GoodPiece(msgs, p)
    requires !msgs[i].isCcs ==> ContentOf(msgs[i]).Message?
    requires start.written == i && !msgs[i].isCcs ==> start.offset <= |ContentOf(msgs[i]).body|
    ensures !msgs[i].isCcs ==>
              Carried(msgs, pieces, i) == ContentOf(msgs[i]).body[if start.written == i then start.offset else 0..]
    ensures msgs[i].isCcs ==> CountOf(pieces, i) == 1
    decreases |pieces|
  {
    hide ContentOf;
    var p := pieces[0];
    var next := Behind(msgs, p);
    assert pieces == [p] + pieces[1..];
    if next.written <= i {
      ChainCarries(msgs, pieces[1..], next, i);
    } else {
      ChainSkips(msgs, pieces[1..], next, Position(|msgs|, 0), i);
    }
  }

  /** Pieces behind a message carry nothing of it. */
  lemma {:induction false} ChainSkips(msgs: seq<OutMessage>, pieces: seq<Piece>, start: Position, end: Position, i: nat)
    requires Chain(msgs, pieces, start, end) && i < start.written
    requires forall p :: p in pieces ==> GoodPiece(msgs, p)
    ensures Carried(msgs, pieces, i) == [] && CountOf(pieces, i) == 0
    decreases |pieces|
  {
    if pieces != [] {
      ChainSkips(msgs, pieces[1..], Behind(msgs, pieces[0]), end, i);
    }
  }

  /** A flight sent from its start to its end is tiled by its pieces: the fragments of every
      handshake message carry its body, and every ChangeCipherSpec is sent once. */
  lemma FlightIsTiled(msgs: seq<OutMessage>, pieces: seq<Piece>, i: nat)
    requires Chain(msgs, pieces, Position(0, 0), Position(|msgs|, 0)) && i < |msgs|
    requires !msgs[i].isCcs ==> ContentOf(msgs[i]).Message?
    ensures forall p :: p in pieces ==> GoodPiece(msgs, p)
    ensures !msgs[i].isCcs ==> Carried(msgs, pieces, i) == ContentOf(msgs[i]).body
    ensures msgs[i].isCcs ==> CountOf(pieces, i) == 1
  {
    ChainIsGood(msgs, pieces, Position(0, 0), Position(|msgs|, 0));
    ChainCarries(msgs, pieces, Position(0, 0), i);
  }
}
