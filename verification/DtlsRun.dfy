/** The DTLS handshake transport end to end: a sender that cuts its messages as it likes and
    sends them again and again, a network that loses, duplicates and reorders, and the ring
    of the receiver. Whatever happens, the messages released are those that were added. */
module DtlsRun {
  import opened ByteString
  import opened DtlsFragment
  import opened DtlsFlight
  import opened DtlsRing

  /** The sender: every handshake message added so far; the current flight; whether it has
      been flushed; the write epoch. The network: the plaintext of every handshake record
      ever sent. The receiver: its ring, and the messages it has released. */
  datatype System = System(transcript: seq<Content>, flight: seq<OutMessage>, flushed: bool, epoch: nat,
                           network: set<seq<byte>>, ring: Ring, released: seq<seq<byte>>)

  const INITIAL := System([], [], false, 0, {}, EMPTY_RING, [])

  datatype Event =
    | Add(msgType: byte, body: seq<byte>)
    | AddChangeCipherSpec
    | Rekey
    | Flush
    | Transmit(piece: Piece)
    | Deliver(fragments: seq<seq<byte>>, readEpoch: nat, maxLen: nat)
    | Release

  /** The flight behind one more message; adding to a flushed flight starts a new one. */
  function FlightWith(s: System, m: OutMessage): System {
    var flight := if s.flushed then [] else s.flight;
    s.(flight := flight + [m], flushed := false)
  }

  function Joined(fragments: seq<seq<byte>>): seq<byte> {
    if fragments == [] then [] else fragments[0] + Joined(fragments[1..])
  }

  /** One step. Fragments are sent of the current flight only, in any order and any size, any
      number of times; what arrives is a record made of anything that was ever sent. */
  function Step(s: System, e: Event): System
    requires ValidRing(s.ring)
  {
    match e
    case Add(msgType, body) =>
      if |body| >= 0x100_0000 || (|s.flight| >= MAX_FLIGHT && !s.flushed) then s
      else
        var seqNo := |s.transcript| % U16;
        FlightWith(s, OutMessage(Whole(msgType, seqNo, body), s.epoch, false))
          .(transcript := s.transcript + [Message(msgType, seqNo, body)])
    case AddChangeCipherSpec =>
      if |s.flight| >= MAX_FLIGHT && !s.flushed then s else FlightWith(s, OutMessage([], s.epoch, true))
    case Rekey => s.(epoch := (s.epoch + 1) % U16)
    case Flush => s.(flushed := true)
    case Transmit(p) =>
      if GoodPiece(s.flight, p) && !s.flight[p.index].isCcs
      then s.(network := s.network + {PlaintextOf(s.flight, p)}) else s
    case Deliver(fragments, readEpoch, maxLen) =>
      if forall f :: f in fragments ==> f in s.network
      then s.(ring := TakeRecord(s.ring, Joined(fragments), readEpoch, maxLen).ring) else s
    case Release =>
      var m := Current(s.ring);
      if m.None? then s else s.(ring := Advance(s.ring), released := s.released + [m.value.Raw()])
  }

  function Run(events: seq<Event>): (s: System)
    ensures ValidRing(s.ring)
  {
    if events == [] then INITIAL
    else
      var s := Run(events[..|events| - 1]);
      StepKeepsRing(s, events[|events| - 1]);
      Step(s, events[|events| - 1])
  }

  lemma StepKeepsRing(s: System, e: Event)
    requires ValidRing(s.ring)
    ensures ValidRing(Step(s, e).ring)
  {
    if e.Release? && Current(s.ring).Some? {
      AdvanceKeepsRing(s.ring);
    }
  }

  // ------------------------------------------------------------------ the invariant

  /** Message number `k`, with its number in it. */
  predicate IsMessage(transcript: seq<Content>, k: nat) {
    && k < |transcript|
    && transcript[k].Message?
    && transcript[k].seqNo == k
    && |transcript[k].body| < 0x100_0000
  }

  /** A fragment of message number `k`. */
  ghost predicate FragmentOf(transcript: seq<Content>, f: seq<byte>, k: nat, off: nat, len: nat) {
    IsMessage(transcript, k) && off + len <= |transcript[k].body| && f == FragmentBytes(transcript[k], off, len)
  }

  ghost predicate IsFragment(transcript: seq<Content>, f: seq<byte>) {
    exists k, off, len :: FragmentOf(transcript, f, k, off, len)
  }

  /** A message under reassembly holds bytes of the message of its number. */
  predicate Consistent(transcript: seq<Content>, f: Frag) {
    && IsMessage(transcript, f.seqNo)
    && f.msgType == transcript[f.seqNo].msgType
    && f.msgLen == |transcript[f.seqNo].body|
    && forall j :: j in f.content ==> j < f.msgLen && f.content[j] == transcript[f.seqNo].body[j]
  }

  predicate ConsistentRing(transcript: seq<Content>, r: Ring)
    requires ValidRing(r)
  {
    forall i :: 0 <= i < MAX_FLIGHT && r.slots[i].Some? ==> Consistent(transcript, r.slots[i].value)
  }

  function RawOf(c: Content): seq<byte> {
    if c.Message? then Whole(c.msgType, c.seqNo, c.body) else []
  }

  /** What was added, in the form it was hashed in. */
  function Raws(transcript: seq<Content>): (raws: seq<seq<byte>>)
    ensures |raws| == |transcript|
  {
    seq(|transcript|, i requires 0 <= i < |transcript| => RawOf(transcript[i]))
  }

  ghost predicate Faithful(s: System) {
    && ValidRing(s.ring)
    && (|s.transcript| < U16 ==>
          && (forall k :: 0 <= k < |s.transcript| ==> IsMessage(s.transcript, k))
          && (forall m :: m in s.flight && !m.isCcs ==> ContentOf(m) in s.transcript)
          && (forall f :: f in s.network ==> IsFragment(s.transcript, f))
          && ConsistentRing(s.transcript, s.ring)
          && s.ring.readSeq == |s.released| <= |s.transcript|
          && s.released == Raws(s.transcript)[..|s.released|])
  }

  // --------------------------------------------------------------------- the steps

  /** More messages do not disturb what is known of the others. */
  lemma MoreMessages(s: System, c: Content)
    requires Faithful(s) && |s.transcript| + 1 < U16
    requires c.Message? && c.seqNo == |s.transcript| && |c.body| < 0x100_0000
    ensures var t := s.transcript + [c];
            && (forall k :: 0 <= k < |t| ==> IsMessage(t, k))
            && (forall f :: f in s.network ==> IsFragment(t, f))
            && ConsistentRing(t, s.ring)
            && s.released == Raws(t)[..|s.released|]
  {
    var t := s.transcript + [c];
    forall k | 0 <= k < |t|
      ensures IsMessage(t, k)
    {
      assert k < |s.transcript| ==> IsMessage(s.transcript, k);
    }
    forall f | f in s.network
      ensures IsFragment(t, f)
    {
      assert IsFragment(s.transcript, f);
      var k, off, len :| FragmentOf(s.transcript, f, k, off, len);
      assert FragmentOf(t, f, k, off, len);
    }
    assert Raws(t)[..|s.transcript|] == Raws(s.transcript);
  }

  lemma AddKeeps(s: System, msgType: byte, body: seq<byte>)
    requires Faithful(s)
    ensures Faithful(Step(s, Add(msgType, body)))
  {
    hide Whole, ContentOf, ValidRing, IsFragment, ConsistentRing, Raws, IsMessage;
    var s' := Step(s, Add(msgType, body));
    if |s'.transcript| == |s.transcript| + 1 < U16 {
      var c := Message(msgType, |s.transcript|, body);
      MoreMessages(s, c);
      ContentOfWhole(msgType, |s.transcript|, body, s.epoch);
      assert s'.transcript == s.transcript + [c];
      forall m | m in s'.flight && !m.isCcs
        ensures ContentOf(m) in s'.transcript
      {
        if m != s'.flight[|s'.flight| - 1] {
          assert m in s.flight;
        }
      }
    }
  }

  lemma TransmitKeeps(s: System, p: Piece)
    requires Faithful(s)
    ensures Faithful(Step(s, Transmit(p)))
  {
    if GoodPiece(s.flight, p) && !s.flight[p.index].isCcs && |s.transcript| < U16 {
      var m := s.flight[p.index];
      assert m in s.flight;
      var k :| 0 <= k < |s.transcript| && s.transcript[k] == ContentOf(m);
      hide ValidRing, FragmentBytes, ContentOf;
      assert IsMessage(s.transcript, k);
      assert FragmentOf(s.transcript, PlaintextOf(s.flight, p), k, p.off, p.len);
    }
  }

  /** A fragment of a message of the transcript leaves the ring consistent, whether it is
      merged, ignored or refused. */
  lemma FragmentKeeps(transcript: seq<Content>, r: Ring, h: Header, body: seq<byte>, epoch: nat, maxLen: nat)
    requires ValidRing(r) && ConsistentRing(transcript, r)
    requires IsMessage(transcript, h.seqNo) && h.Encodable() && |body| == h.fragLen
    requires h.msgType == transcript[h.seqNo].msgType && h.msgLen == |transcript[h.seqNo].body|
    requires h.fragOff + h.fragLen <= h.msgLen
    requires body == transcript[h.seqNo].body[h.fragOff..h.fragOff + h.fragLen]
    ensures var o := TakeFragment(r, h, body, epoch, maxLen);
            o.Next? ==> ConsistentRing(transcript, o.ring)
  {
    var o := TakeFragment(r, h, body, epoch, maxLen);
    var r' := WithMessage(r, h);
    if o.Next? && r'.Some? && o.ring != r {
      SlotIsOwn(r, h);
      var i := SlotOf(h.seqNo);
      var f := r'.value.slots[i].value;
      assert Consistent(transcript, f);
      MergeConsistent(transcript, f, h.fragOff, body);
    }
  }

  lemma MergeConsistent(transcript: seq<Content>, f: Frag, off: nat, body: seq<byte>)
    requires Consistent(transcript, f) && off + |body| <= f.msgLen
    requires body == transcript[f.seqNo].body[off..off + |body|]
    ensures Consistent(transcript, Merge(f, off, body))
  {
    var f' := Merge(f, off, body);
    forall j | j in f'.content
      ensures j < f.msgLen && f'.content[j] == transcript[f.seqNo].body[j]
    {
      if j in Placed(off, body) {
        assert off <= j < off + |body|;
      }
    }
  }

  lemma {:induction false} RecordKeeps(transcript: seq<Content>, r: Ring, fragments: seq<seq<byte>>, epoch: nat, maxLen: nat)
    requires ValidRing(r) && ConsistentRing(transcript, r) && |transcript| < U16
    requires forall f :: f in fragments ==> IsFragment(transcript, f)
    ensures ConsistentRing(transcript, TakeRecord(r, Joined(fragments), epoch, maxLen).ring)
    decreases |fragments|
  {
    hide ParseFragment, EncHeader, TakeFragment, ValidRing, ConsistentRing, IsFragment;
    if fragments != [] {
      var h, body := Parts(transcript, fragments[0], Joined(fragments[1..]));
      FragmentKeeps(transcript, r, h, body, epoch, maxLen);
      var o := TakeFragment(r, h, body, epoch, maxLen);
      if o.Next? {
        RecordKeeps(transcript, o.ring, fragments[1..], epoch, maxLen);
      }
    }
  }

  /** What the receiver parses at the front of a record is the fragment that was sent. */
  lemma Parts(transcript: seq<Content>, f: seq<byte>, rest: seq<byte>) returns (h: Header, body: seq<byte>)
    requires IsFragment(transcript, f) && |transcript| < U16
    ensures IsMessage(transcript, h.seqNo) && h.Encodable() && |body| == h.fragLen
    ensures h.msgType == transcript[h.seqNo].msgType && h.msgLen == |transcript[h.seqNo].body|
    ensures h.fragOff + h.fragLen <= h.msgLen
    ensures body == transcript[h.seqNo].body[h.fragOff..h.fragOff + h.fragLen]
    ensures f + rest != [] && ParseFragment(f + rest) == Fragment(h, body, rest)
  {
    var k: nat, off: nat, len: nat :| FragmentOf(transcript, f, k, off, len);
    var c := transcript[k];
    h := Header(c.msgType, |c.body|, k, off, len);
    body := c.body[off..off + len];
    ParseBack(h, body, rest);
  }

  /** The current message, once complete, is byte for byte the one that was hashed. */
  lemma CurrentIsRaw(transcript: seq<Content>, r: Ring)
    requires ValidRing(r) && ConsistentRing(transcript, r) && Current(r).Some?
    ensures r.readSeq < |transcript| && Current(r).value.Raw() == RawOf(transcript[r.readSeq])
  {
    var f := Current(r).value;
    var c := transcript[f.seqNo];
    assert Consistent(transcript, f);
    assert f.Body() == c.body;
  }

  lemma ReleaseKeeps(s: System)
    requires Faithful(s)
    ensures Faithful(Step(s, Release))
  {
    StepKeepsRing(s, Release);
    if Current(s.ring).Some? && |s.transcript| < U16 {
      CurrentIsRaw(s.transcript, s.ring);
      var s' := Step(s, Release);
      hide ValidRing, Consistent, Current, RawOf;
      var n := |s.released|;
      assert Raws(s.transcript)[..n + 1] == Raws(s.transcript)[..n] + [RawOf(s.transcript[n])];
    }
  }

  lemma DeliverKeeps(s: System, fragments: seq<seq<byte>>, readEpoch: nat, maxLen: nat)
    requires Faithful(s)
    ensures Faithful(Step(s, Deliver(fragments, readEpoch, maxLen)))
  {
    hide ValidRing, ConsistentRing, IsFragment, TakeRecord;
    if |s.transcript| < U16 && forall f :: f in fragments ==> f in s.network {
      RecordKeeps(s.transcript, s.ring, fragments, readEpoch, maxLen);
    }
  }

  lemma StepKeeps(s: System, e: Event)
    requires Faithful(s)
    ensures Faithful(Step(s, e))
  {
    match e {
      case Add(msgType, body) => AddKeeps(s, msgType, body);
      case Transmit(p) => TransmitKeeps(s, p);
      case Deliver(fragments, readEpoch, maxLen) => DeliverKeeps(s, fragments, readEpoch, maxLen);
      case Release => ReleaseKeeps(s);
      case AddChangeCipherSpec =>
        assert forall m :: m in Step(s, e).flight && !m.isCcs ==> m in s.flight;
      case Rekey =>
      case Flush =>
    }
  }

  lemma {:induction false} RunIsFaithful(events: seq<Event>)
    ensures Faithful(Run(events))
  {
    hide Step, Faithful;
    if events == [] {
      InitialIsFaithful();
    } else {
      RunIsFaithful(events[..|events| - 1]);
      StepKeeps(Run(events[..|events| - 1]), events[|events| - 1]);
    }
  }

  lemma InitialIsFaithful()
    ensures Faithful(INITIAL)
  {
  }

  /** For every run with fewer than 65536 messages: the messages released are the first ones
      of those added, in their order, none left out and none twice, and each is byte for
      byte the single-fragment form that its sender hashed. */
  lemma ReleasedIsPrefix(events: seq<Event>)
    requires |Run(events).transcript| < U16
    ensures Run(events).released <= Raws(Run(events).transcript)
  {
    RunIsFaithful(events);
    var s := Run(events);
    assert Raws(s.transcript)[..|s.released|] <= Raws(s.transcript);
  }

  // ------------------------------------------------------------------ and it gets there

  /** A part of the current message, as it arrives. */
  datatype Arrived = Arrived(off: nat, body: seq<byte>)

  predicate InRange(c: Content, a: Arrived) {
    c.Message? && a.off + |a.body| <= |c.body|
  }

  /** The bytes covered by some parts. */
  function Cover(parts: seq<Arrived>): set<nat> {
    if parts == [] then {} else Range(parts[0].off, parts[0].off + |parts[0].body|) + Cover(parts[1..])
  }

  function TakeParts(r: Ring, c: Content, parts: seq<Arrived>, epoch: nat, maxLen: nat): Step
    requires ValidRing(r) && c.Message? && c.seqNo < U16 && |c.body| < 0x100_0000
    requires forall a :: a in parts ==> InRange(c, a)
    decreases |parts|
  {
    if parts == [] then Next(r)
    else
      assert InRange(c, parts[0]);
      var h := Header(c.msgType, |c.body|, c.seqNo, parts[0].off, |parts[0].body|);
      match TakeFragment(r, h, parts[0].body, epoch, maxLen)
      case Refused => Refused
      case Next(r') => TakeParts(r', c, parts[1..], epoch, maxLen)
  }

  /** Nothing known of the message, or a message of its type and length under reassembly. */
  predicate Agrees(r: Ring, c: Content)
    requires ValidRing(r) && c.Message?
  {
    var s := r.slots[SlotOf(c.seqNo)];
    s.Some? ==> s.value.msgType == c.msgType && s.value.msgLen == |c.body|
  }

  function KnownOf(r: Ring, c: Content): set<nat>
    requires ValidRing(r) && c.Message?
  {
    var s := r.slots[SlotOf(c.seqNo)];
    if s.None? then {} else s.value.content.Keys
  }

  lemma PartIsTaken(r: Ring, c: Content, a: Arrived, epoch: nat, maxLen: nat)
    requires ValidRing(r) && c.Message? && c.seqNo < U16 && |c.body| < 0x100_0000 && |c.body| <= maxLen
    requires r.readSeq <= c.seqNo < r.readSeq + MAX_FLIGHT && Agrees(r, c) && InRange(c, a)
    requires epoch != 1 || c.seqNo == r.readSeq
    ensures var h := Header(c.msgType, |c.body|, c.seqNo, a.off, |a.body|);
            var o := TakeFragment(r, h, a.body, epoch, maxLen);
            && o.Next? && Agrees(o.ring, c) && o.ring.slots[SlotOf(c.seqNo)].Some?
            && KnownOf(o.ring, c) == KnownOf(r, c) + Range(a.off, a.off + |a.body|)
  {
    var h := Header(c.msgType, |c.body|, c.seqNo, a.off, |a.body|);
    SlotIsOwn(r, h);
  }

  /** Parts of a message within the window are all accepted, in any order and however they
      overlap, and what is known of it is the union of what arrived. In the first encrypted
      epoch that goes for the current message only. */
  lemma {:induction false} PartsAreUnited(r: Ring, c: Content, parts: seq<Arrived>, epoch: nat, maxLen: nat)
    requires ValidRing(r) && c.Message? && c.seqNo < U16 && |c.body| < 0x100_0000 && |c.body| <= maxLen
    requires r.readSeq <= c.seqNo < r.readSeq + MAX_FLIGHT && Agrees(r, c)
    requires (epoch != 1 || c.seqNo == r.readSeq) && forall a :: a in parts ==> InRange(c, a)
    ensures var o := TakeParts(r, c, parts, epoch, maxLen);
            && o.Next? && ValidRing(o.ring) && o.ring.readSeq == r.readSeq && Agrees(o.ring, c)
            && KnownOf(o.ring, c) == KnownOf(r, c) + Cover(parts)
            && (parts != [] || r.slots[SlotOf(c.seqNo)].Some? ==> o.ring.slots[SlotOf(c.seqNo)].Some?)
    decreases |parts|
  {
    hide ValidRing, TakeFragment, Range;
    if parts != [] {
      PartIsTaken(r, c, parts[0], epoch, maxLen);
      var h := Header(c.msgType, |c.body|, c.seqNo, parts[0].off, |parts[0].body|);
      var o := TakeFragment(r, h, parts[0].body, epoch, maxLen);
      PartsAreUnited(o.ring, c, parts[1..], epoch, maxLen);
    }
  }

  /** Once its parts cover the current message, in whatever epoch they come, it can be released,
      and not before. */
  lemma ReleasedWhenCovered(r: Ring, c: Content, parts: seq<Arrived>, epoch: nat, maxLen: nat)
    requires ValidRing(r) && c.Message? && |c.body| < 0x100_0000 && |c.body| <= maxLen
    requires c.seqNo == r.readSeq && r.slots[SlotOf(c.seqNo)].None?
    requires forall a :: a in parts ==> InRange(c, a)
    ensures TakeParts(r, c, parts, epoch, maxLen).Next?
    ensures ValidRing(TakeParts(r, c, parts, epoch, maxLen).ring)
    ensures Current(TakeParts(r, c, parts, epoch, maxLen).ring).Some?
       <==> parts != [] && Cover(parts) == Range(0, |c.body|)
  {
    hide Range;
    PartsAreUnited(r, c, parts, epoch, maxLen);
  }
}
