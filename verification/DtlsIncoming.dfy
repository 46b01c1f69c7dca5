/** The ring of incoming DTLS messages in the heap: every method is proved against what
    `DtlsRing` says becomes of the ring. */
module DtlsIncoming {
  import opened ByteString
  import opened DtlsFragment
  import opened DtlsRing

  const RT_CHANGE_CIPHER_SPEC: byte := 20
  const RT_HANDSHAKE: byte := 22
  const RT_APPLICATION_DATA: byte := 23
  /** The one byte of a ChangeCipherSpec. */
  const MT_CCS: byte := 1

  /** The members of `DTLS1_STATE` that hold incoming messages. */
  class Incoming {
    var readSeq: nat
    const slots: array<HmFragment?>
    var hasChangeCipherSpec: bool
    /** A message has been handed out and not been released. */
    var hasMessage: bool
    /** The peer has answered the flight that was sent last. */
    var flightHasReply: bool
    ghost var repr: set<object>

    /** A message is stored in memory that belongs to the ring and is not the ring itself. */
    ghost predicate Holds(frag: HmFragment)
      reads this, repr
    {
      && frag in repr
      && frag.data in repr && frag.data as object != slots
      && (frag.reassembly != null ==> frag.reassembly in repr && frag.reassembly as object != slots)
    }

    ghost predicate Owned()
      reads this, repr
    {
      && {this, slots} <= repr
      && slots.Length == MAX_FLIGHT
      && forall i :: 0 <= i < MAX_FLIGHT && slots[i] != null ==>
           Holds(slots[i]) && slots[i].Valid()
    }

    /** Every message in the ring has its own storage. */
    ghost predicate Apart()
      requires Owned()
      reads this, repr
    {
      forall i, j :: 0 <= i < MAX_FLIGHT && 0 <= j < MAX_FLIGHT && i != j && slots[i] != null && slots[j] != null ==>
        && slots[i] != slots[j]
        && slots[i].data != slots[j].data
        && slots[i].reassembly as object? != slots[j].data
        && (slots[i].reassembly != null ==> slots[i].reassembly != slots[j].reassembly)
    }

    ghost predicate Valid()
      reads this, repr
    {
      Owned() && Apart() && ValidRing(View())
    }

    ghost function At(i: nat): (f: Option<Frag>)
      requires Owned() && i < MAX_FLIGHT
      reads this, repr
    {
      if slots[i] == null then None else Some(slots[i].View())
    }

    ghost function View(): (r: Ring)
      requires Owned()
      reads this, repr
      ensures r.readSeq == readSeq && |r.slots| == MAX_FLIGHT
    {
      Ring(readSeq, [At(0), At(1), At(2), At(3), At(4), At(5), At(6)])
    }

    function Flags(): (bool, bool, bool)
      reads this
    {
      (hasChangeCipherSpec, hasMessage, flightHasReply)
    }

    /** A message is buffered that is not the one being processed. */
    ghost predicate Buffers()
      requires Valid()
      reads this, repr
    {
      exists i :: 0 <= i < MAX_FLIGHT && View().slots[i].Some? && !(hasMessage && i == SlotOf(View().readSeq))
    }

    /** The message whose turn it is, if it is complete. */
    ghost function Ready(): Option<Frag>
      requires Valid()
      reads this, repr
    {
      Current(View())
    }

    constructor ()
      ensures Valid() && fresh(repr) && View() == EMPTY_RING
      ensures Flags() == (false, false, false)
    {
      readSeq, hasChangeCipherSpec, hasMessage, flightHasReply := 0, false, false, false;
      slots := new HmFragment?[MAX_FLIGHT](_ => null);
      new;
      repr := {this, slots};
      assert Owned() && forall i :: 0 <= i < MAX_FLIGHT ==> At(i) == None;
      ViewIs(EMPTY_RING);
    }

    lemma ViewAt()
      requires Owned()
      ensures forall i :: 0 <= i < MAX_FLIGHT ==> View().slots[i] == At(i)
    {
    }

    /** Rings are equal when their numbers and all their slots are. */
    lemma ViewIs(r: Ring)
      requires Owned() && readSeq == r.readSeq && |r.slots| == MAX_FLIGHT
      requires forall i :: 0 <= i < MAX_FLIGHT ==> At(i) == r.slots[i]
      ensures View() == r
    {
    }

    /** Puts a message of its own storage into slot `i`. */
    method Put(i: nat, frag: HmFragment, ghost before: Ring)
      requires Owned() && Apart() && before == View() && i < MAX_FLIGHT
      requires frag.Valid() && frag.Repr() !! repr
      modifies slots, this`repr
      ensures Owned() && Apart() && repr == old(repr) + frag.Repr() && slots[i] == frag
      ensures frag.Valid() && View() == before.(slots := before.slots[i := Some(frag.View())])
    {
      hide HmFragment.Valid, HmFragment.View, View;
      ViewAt();
      slots[i] := frag;
      repr := repr + frag.Repr();
      assert Owned();
      ViewIs(before.(slots := before.slots[i := Some(frag.View())]));
    }

    /** `dtls1_get_incoming_message`. */
    method GetIncomingMessage(h: Header) returns (frag: HmFragment?)
      requires Valid() && h.Encodable()
      modifies repr
      ensures Flags() == old(Flags())
      ensures Valid() && fresh(repr - old(repr))
      ensures frag == null ==> WithMessage(old(View()), h).None? && View() == old(View())
      ensures frag != null ==> Some(View()) == WithMessage(old(View()), h) && slots[SlotOf(h.seqNo)] == frag
    {
      hide HmFragment.Valid, HmFragment.View, Placeable;
      var i := h.seqNo % MAX_FLIGHT;
      ghost var before := View();
      ViewAt();
      hide View;
      if h.seqNo < readSeq || h.seqNo - readSeq >= MAX_FLIGHT {
        return null;
      }
      frag := slots[i];
      if frag != null {
        if frag.msgType != h.msgType || frag.msgLen != h.msgLen {
          return null;
        }
        return;
      }
      frag := new HmFragment(h);
      Put(i, frag, before);
      assert Some(View()) == WithMessage(before, h);
    }

    /** One turn of the loop of `dtls1_read_message`. */
    method TakeFragment(h: Header, body: seq<byte>, epoch: nat, maxLen: nat) returns (ok: bool)
      requires Valid() && h.Encodable() && |body| == h.fragLen
      modifies repr
      ensures Flags() == old(Flags())
      ensures Valid() && fresh(repr - old(repr))
      ensures ok <==> DtlsRing.TakeFragment(old(View()), h, body, epoch, maxLen).Next?
      ensures ok ==> DtlsRing.TakeFragment(old(View()), h, body, epoch, maxLen) == Next(View())
      ensures !ok ==> View() == old(View())
    {
      ghost var before := View();
      if h.fragOff > h.msgLen || h.fragOff + h.fragLen > h.msgLen || h.msgLen > maxLen {
        return false;
      }
      // Epoch 1 carries Finished and nothing else.
      if epoch == 1 && h.seqNo != readSeq {
        return false;
      }
      // Outside the window on either side nothing is done.
      if h.seqNo < readSeq || h.seqNo > readSeq + MAX_FLIGHT {
        return true;
      }
      var frag := GetIncomingMessage(h);
      if frag == null {
        return false;
      }
      SlotIsOwn(before, h);
      ViewAt();
      AddTo(h.seqNo % MAX_FLIGHT, h.fragOff, body, View());
      return true;
    }

    /** The message in slot `i` takes a fragment; the other ones do not change. */
    method AddTo(i: nat, off: nat, body: seq<byte>, ghost before: Ring)
      requires Valid() && before == View() && i < MAX_FLIGHT && slots[i] != null
      requires before.slots[i].Some? && off + |body| <= before.slots[i].value.msgLen
      modifies repr
      ensures Flags() == old(Flags())
      ensures Valid() && repr == old(repr)
      ensures View() == WithBytes(before, i, off, body)
    {
      hide HmFragment.Valid, HmFragment.View, Placeable, View, Merge;
      ViewAt();
      slots[i].Add(off, body);
      assert Owned();
      ViewIs(WithBytes(before, i, off, body));
    }

    /** The loop of `dtls1_read_message` over the fragments of a handshake record. */
    method ReadFragments(record: seq<byte>, epoch: nat, maxLen: nat) returns (ok: bool)
      requires Valid()
      modifies repr
      ensures Flags() == old(Flags())
      ensures Valid() && fresh(repr - old(repr))
      ensures Outcome(ok, View()) == TakeRecord(old(View()), record, epoch, maxLen)
    {
      hide Owned, Apart, View, ParseFragment, DtlsRing.TakeFragment, ValidRing;
      var rest := record;
      while |rest| > 0
        invariant Valid() && fresh(repr - old(repr)) && Flags() == old(Flags())
        invariant TakeRecord(old(View()), record, epoch, maxLen) == TakeRecord(View(), rest, epoch, maxLen)
        decreases |rest|
      {
        var p := ParseFragment(rest);
        if p.Malformed? {
          return false;
        }
        ok := TakeFragment(p.header, p.body, epoch, maxLen);
        if !ok {
          return;
        }
        rest := p.rest;
      }
      return true;
    }

    /** Flags the ChangeCipherSpec for later. */
    method FlagChangeCipherSpec()
      requires Valid()
      modifies this`hasChangeCipherSpec
      ensures Valid() && View() == old(View()) && hasChangeCipherSpec
    {
      hide HmFragment.Valid, HmFragment.View, Placeable;
      hasChangeCipherSpec := true;
    }

    /** `dtls1_read_message` on one record: a handshake record goes to the ring, a
        ChangeCipherSpec is flagged, and each is legal only in its own place. */
    method ReadMessage(recordType: byte, data: seq<byte>, nullCipher: bool, epoch: nat, maxLen: nat) returns (ok: bool)
      requires Valid()
      modifies repr
      ensures Valid() && fresh(repr - old(repr))
      ensures recordType == RT_HANDSHAKE ==> Outcome(ok, View()) == TakeRecord(old(View()), data, epoch, maxLen)
      ensures recordType == RT_CHANGE_CIPHER_SPEC ==> ok == (nullCipher && data == [MT_CCS])
      ensures recordType == RT_APPLICATION_DATA ==> ok == !nullCipher
      ensures recordType !in {RT_HANDSHAKE, RT_CHANGE_CIPHER_SPEC, RT_APPLICATION_DATA} ==> !ok
      ensures recordType != RT_HANDSHAKE ==> View() == old(View())
      ensures hasChangeCipherSpec == (old(hasChangeCipherSpec) || (ok && recordType == RT_CHANGE_CIPHER_SPEC))
      ensures hasMessage == old(hasMessage) && flightHasReply == old(flightHasReply)
    {
      assert this in repr;
      hide Owned, Apart, View, TakeRecord, ValidRing;
      if recordType == RT_APPLICATION_DATA {
        // Dropped under encryption, an error without it.
        return !nullCipher;
      } else if recordType == RT_CHANGE_CIPHER_SPEC {
        if !nullCipher || |data| != 1 || data[0] != MT_CCS {
          return false;
        }
        FlagChangeCipherSpec();
        return true;
      } else if recordType != RT_HANDSHAKE {
        return false;
      }
      ok := ReadFragments(data, epoch, maxLen);
    }

    /** `dtls1_is_current_message_complete`. */
    method IsCurrentComplete() returns (complete: bool)
      requires Valid()
      ensures complete <==> Ready().Some?
      ensures complete ==> slots[SlotOf(readSeq)] != null && slots[SlotOf(readSeq)].reassembly == null
    {
      hide View;
      ViewAt();
      var frag := slots[readSeq % MAX_FLIGHT];
      return frag != null && frag.reassembly == null;
    }

    method MarkProcessed()
      requires Valid()
      modifies this`hasMessage
      ensures Valid() && View() == old(View()) && hasMessage
    {
      hide HmFragment.Valid, HmFragment.View, Placeable;
      hasMessage := true;
    }

    /** `dtls1_get_message`. */
    method GetMessage() returns (found: bool, msgType: byte, body: seq<byte>, raw: seq<byte>)
      requires Valid()
      modifies this`hasMessage
      ensures Valid() && View() == old(View()) && hasMessage == (old(hasMessage) || found)
      ensures found <==> Ready().Some?
      ensures found ==>
                var m := Ready().value; msgType == m.msgType && body == m.Body() && raw == m.Raw()
    {
      hide View;
      ViewAt();
      msgType, body, raw := 0, [], [];
      found := IsCurrentComplete();
      if found {
        var frag := slots[readSeq % MAX_FLIGHT];
        frag.CompleteIsRaw();
        msgType, body, raw := frag.msgType, frag.data[HM_HEADER_LENGTH..], frag.data[..];
        MarkProcessed();
      }
    }

    /** `dtls1_next_message`; a flight that was complete has been answered then. */
    method NextMessage(outgoingComplete: bool)
      requires Valid() && Ready().Some? && hasMessage
      modifies slots, this`readSeq, this`hasMessage, this`flightHasReply
      ensures !hasMessage && flightHasReply == (old(flightHasReply) || outgoingComplete)
      ensures Valid() && repr == old(repr) && View() == DtlsRing.Advance(old(View()))
    {
      hide View, HmFragment.Valid, HmFragment.View, Placeable;
      ghost var before := View();
      AdvanceKeepsRing(before);
      ViewAt();
      var index := readSeq % MAX_FLIGHT;
      slots[index] := null;
      readSeq := (readSeq + 1) % U16;
      hasMessage := false;
      if outgoingComplete {
        flightHasReply := true;
      }
      assert Owned();
      ViewIs(DtlsRing.Advance(before));
    }

    /** `dtls_has_incoming_messages`: messages other than the one being processed. */
    method HasIncoming() returns (some: bool)
      requires Valid()
      ensures some <==> Buffers()
    {
      hide View;
      ViewAt();
      var current := readSeq % MAX_FLIGHT;
      for i := 0 to MAX_FLIGHT
        invariant forall j :: 0 <= j < i && !(hasMessage && j == current) ==> View().slots[j].None?
      {
        if hasMessage && i == current {
          continue;
        }
        if slots[i] != null {
          assert View().slots[i].Some?;
          return true;
        }
      }
      return false;
    }
  }
}
