/** The receiving side of the DTLS handshake: a ring of seven messages under reassembly
    (sections 4.2.3 and 4.2.4 of RFC 6347), as functions on values. */
module DtlsRing {
  import opened ByteString
  import opened DtlsFragment

  const MAX_FLIGHT: nat := 7
  const U16: nat := 0x1_0000

  // ------------------------------------------------------------------ the ring

  datatype Ring = Ring(readSeq: nat, slots: seq<Option<Frag>>)

  /** The message in slot `i` belongs there, is one of the next seven, and holds bytes of itself only. */
  predicate Placeable(readSeq: nat, i: nat, f: Frag) {
    && f.seqNo % MAX_FLIGHT == i
    && readSeq <= f.seqNo < readSeq + MAX_FLIGHT
    && f.seqNo < U16
    && f.msgLen < 0x100_0000
    && f.content.Keys <= Range(0, f.msgLen)
  }

  /** The ring is never confused. */
  predicate ValidRing(r: Ring) {
    && r.readSeq < U16
    && |r.slots| == MAX_FLIGHT
    && forall i :: 0 <= i < MAX_FLIGHT && r.slots[i].Some? ==> Placeable(r.readSeq, i, r.slots[i].value)
  }

  const EMPTY_RING := Ring(0, [None, None, None, None, None, None, None])

  function SlotOf(seqNo: nat): (i: nat)
    ensures i < MAX_FLIGHT
  {
    seqNo % MAX_FLIGHT
  }

  /** Numbers less than seven apart have different slots. */
  lemma SlotsApart(a: nat, b: nat)
    requires a <= b < a + MAX_FLIGHT && SlotOf(a) == SlotOf(b)
    ensures a == b
  {
  }

  /** The ring with a message in place for `h`, or nothing when there can be none
      (`dtls1_get_incoming_message`). */
  function WithMessage(r: Ring, h: Header): (r': Option<Ring>)
    requires ValidRing(r) && h.Encodable()
    ensures r'.Some? ==> ValidRing(r'.value) && r'.value.readSeq == r.readSeq
  {
    var i := SlotOf(h.seqNo);
    if h.seqNo < r.readSeq || h.seqNo - r.readSeq >= MAX_FLIGHT then None
    else if r.slots[i].Some? then
      if r.slots[i].value.msgType != h.msgType || r.slots[i].value.msgLen != h.msgLen then None else Some(r)
    else Some(r.(slots := r.slots[i := Some(Frag(h.msgType, h.seqNo, h.msgLen, map[]))]))
  }

  /** Wherever a fragment is accepted its slot holds the message of its own number, type
      and length: what the code asserts. */
  lemma SlotIsOwn(r: Ring, h: Header)
    requires ValidRing(r) && h.Encodable() && WithMessage(r, h).Some?
    ensures var s := WithMessage(r, h).value.slots[SlotOf(h.seqNo)];
            s.Some? && s.value.seqNo == h.seqNo && s.value.msgType == h.msgType && s.value.msgLen == h.msgLen
  {
    var s := WithMessage(r, h).value.slots[SlotOf(h.seqNo)];
    if s.value.seqNo <= h.seqNo {
      SlotsApart(s.value.seqNo, h.seqNo);
    } else {
      SlotsApart(h.seqNo, s.value.seqNo);
    }
  }

  /** The bytes of a fragment merged into the message in slot `i`. */
  function WithBytes(r: Ring, i: nat, off: nat, body: seq<byte>): (r': Ring)
    requires ValidRing(r) && i < MAX_FLIGHT && r.slots[i].Some?
    requires off + |body| <= r.slots[i].value.msgLen
    ensures ValidRing(r') && r'.readSeq == r.readSeq
  {
    r.(slots := r.slots[i := Some(Merge(r.slots[i].value, off, body))])
  }

  /** What becomes of one fragment: an error, nothing, or its bytes are merged in. */
  datatype Step = Refused | Next(ring: Ring)

  /** One turn of the loop of `dtls1_read_message`, in read epoch `epoch`. */
  function TakeFragment(r: Ring, h: Header, body: seq<byte>, epoch: nat, maxLen: nat): (s: Step)
    requires ValidRing(r) && h.Encodable() && |body| == h.fragLen
    ensures s.Next? ==> ValidRing(s.ring) && s.ring.readSeq == r.readSeq
  {
    if h.fragOff > h.msgLen || h.fragOff + h.fragLen > h.msgLen || h.msgLen > maxLen then Refused
    // Epoch 1 carries Finished and nothing else.
    else if epoch == 1 && h.seqNo != r.readSeq then Refused
    // Outside the window on either side nothing is done.
    else if h.seqNo < r.readSeq || h.seqNo > r.readSeq + MAX_FLIGHT then Next(r)
    else
      var r' := WithMessage(r, h);
      if r'.None? then Refused
      else
        SlotIsOwn(r, h);
        Next(WithBytes(r'.value, SlotOf(h.seqNo), h.fragOff, body))
  }

  /** The two tests on the number do not agree: the eighth message counted from the current
      one is neither ignored nor accepted, but ends the connection. */
  lemma EighthIsRefused(r: Ring, h: Header, body: seq<byte>, epoch: nat, maxLen: nat)
    requires ValidRing(r) && h.Encodable() && |body| == h.fragLen && epoch != 1
    requires h.fragOff + h.fragLen <= h.msgLen <= maxLen
    ensures h.seqNo == r.readSeq + MAX_FLIGHT ==> TakeFragment(r, h, body, epoch, maxLen).Refused?
    ensures h.seqNo > r.readSeq + MAX_FLIGHT || h.seqNo < r.readSeq ==>
              TakeFragment(r, h, body, epoch, maxLen) == Next(r)
    ensures r.readSeq <= h.seqNo < r.readSeq + MAX_FLIGHT && r.slots[SlotOf(h.seqNo)].None? ==>
              TakeFragment(r, h, body, epoch, maxLen).Next?
  {
    if r.readSeq <= h.seqNo < r.readSeq + MAX_FLIGHT && r.slots[SlotOf(h.seqNo)].None? {
      SlotIsOwn(r, h);
    }
  }

  /** A fragment is an error if and only if it does not lie in its message, the message is too long,
      in epoch 1 it is not of the current message, it is the eighth one counted from the current,
      or parts of a message with its number and another type or length have arrived. Otherwise
      it is merged in, if its message is one of the next seven, and nothing else changes. */
  lemma FragmentOutcome(r: Ring, h: Header, body: seq<byte>, epoch: nat, maxLen: nat)
    requires ValidRing(r) && h.Encodable() && |body| == h.fragLen
    ensures var s, held := TakeFragment(r, h, body, epoch, maxLen), r.slots[h.seqNo % 7];
            var ofNextSeven := r.readSeq <= h.seqNo < r.readSeq + 7;
            && (s.Refused? <==>
                  || h.fragOff + h.fragLen > h.msgLen || h.msgLen > maxLen
                  || (epoch == 1 && h.seqNo != r.readSeq) || h.seqNo == r.readSeq + 7
                  || (ofNextSeven && held.Some? && (held.value.msgType != h.msgType || held.value.msgLen != h.msgLen)))
            && (s.Next? && !ofNextSeven ==> s.ring == r)
            && (s.Next? && ofNextSeven ==>
                  var f := if held.Some? then held.value else Frag(h.msgType, h.seqNo, h.msgLen, map[]);
                  s.ring == Ring(r.readSeq, r.slots[h.seqNo % 7 := Some(Merge(f, h.fragOff, body))]))
  {
    hide Merge;
    if WithMessage(r, h).Some? {
      SlotIsOwn(r, h);
    }
  }

  /** All fragments of a handshake record. Those in front of a bad one stay merged. */
  datatype Outcome = Outcome(ok: bool, ring: Ring)

  function TakeRecord(r: Ring, s: seq<byte>, epoch: nat, maxLen: nat): (o: Outcome)
    requires ValidRing(r)
    ensures ValidRing(o.ring) && o.ring.readSeq == r.readSeq
    decreases |s|
  {
    if s == [] then Outcome(true, r)
    else
      var p := ParseFragment(s);
      if p.Malformed? then Outcome(false, r)
      else
        match TakeFragment(r, p.header, p.body, epoch, maxLen)
        case Refused => Outcome(false, r)
        case Next(r') => TakeRecord(r', p.rest, epoch, maxLen)
  }

  /** The fragments of a record are taken one after the other; the first bad one ends the connection,
      and leaves what was taken in front of it. */
  lemma FragmentByFragment(r: Ring, h: Header, body: seq<byte>, rest: seq<byte>, epoch: nat, maxLen: nat)
    requires ValidRing(r) && h.Encodable() && |body| == h.fragLen
    ensures TakeRecord(r, EncHeader(h) + body + rest, epoch, maxLen)
         == match TakeFragment(r, h, body, epoch, maxLen)
            case Refused => Outcome(false, r)
            case Next(r') => TakeRecord(r', rest, epoch, maxLen)
    ensures TakeRecord(r, [], epoch, maxLen) == Outcome(true, r)
  {
    hide EncHeader, ParseFragment, TakeFragment, ValidRing;
    ParseBack(h, body, rest);
  }

  /** The current message when it is complete (`dtls1_get_message`). */
  function Current(r: Ring): (m: Option<Frag>)
    requires ValidRing(r)
    ensures m.Some? ==> m.value.Complete() && m.value.seqNo == r.readSeq && m.value.msgLen < 0x100_0000
  {
    var s := r.slots[SlotOf(r.readSeq)];
    if s.Some? && s.value.Complete() then
      SlotsApart(r.readSeq, s.value.seqNo);
      s
    else None
  }

  /** `dtls1_next_message`; the number is a 16-bit one. */
  function Advance(r: Ring): (r': Ring)
    requires ValidRing(r) && Current(r).Some?
  {
    Ring((r.readSeq + 1) % U16, r.slots[SlotOf(r.readSeq) := None])
  }

  /** Also when the number wraps: at the last number no other slot can be in use. */
  lemma AdvanceKeepsRing(r: Ring)
    requires ValidRing(r) && Current(r).Some?
    ensures ValidRing(Advance(r))
    ensures r.readSeq == U16 - 1 ==> Advance(r) == EMPTY_RING
  {
    var r' := Advance(r);
    forall i | 0 <= i < MAX_FLIGHT && r'.slots[i].Some?
      ensures Placeable(r'.readSeq, i, r'.slots[i].value) && r.readSeq < U16 - 1
    {
      var f := r.slots[i].value;
      assert Placeable(r.readSeq, i, f);
      if f.seqNo == r.readSeq {
        assert false;
      }
    }
  }
}
