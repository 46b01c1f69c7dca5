/** The receiving side of the DTLS record layer in the heap: every method is proved against
    what `DtlsWindow` and `DtlsRecord` say. */
module DtlsReadSide {
  import opened ByteString
  import opened DtlsWindow
  import opened DtlsRecord
  import DtlsIncoming
  import DtlsOpen

  const U64 := 0x1_0000_0000_0000_0000

  /** `to_u64_be`: shifting left by a byte and or-ing the next one in. */
  method ToU64BE(s: seq<byte>) returns (ret: nat)
    requires |s| == 8
    ensures ret == DecBE(s) < U64
  {
    ret := 0;
    Pow256Values();
    for i := 0 to 8
      invariant ret == DecBE(s[..i]) && ret < Pow256(i)
    {
      NextByte(s, i);
      hide DecBE, Pow256;
      ret := ret * 256 % U64 + s[i];
    }
    assert s[..8] == s;
  }

  /** Nothing is shifted out. */
  lemma NextByte(s: seq<byte>, i: nat)
    requires i < |s| == 8
    ensures DecBE(s[..i]) * 256 % U64 + s[i] == DecBE(s[..i + 1]) < Pow256(i + 1)
  {
    assert s[..i + 1][..i] == s[..i];
    BigEndianBack(s[..i + 1]);
    Pow256Grows(i + 1);
  }

  lemma Pow256Grows(n: nat)
    requires n <= 8
    ensures Pow256(n) <= U64
    decreases 8 - n
  {
    if n < 8 {
      Pow256Grows(n + 1);
    } else {
      Pow256Values();
    }
  }

  /** `DTLS1_BITMAP`, the read epoch and the read cipher. */
  class ReadSide {
    var epoch: nat
    var bits: bv64
    var maxSeqNum: nat
    var aead: Aead

    function View(): Reader
      reads this
    {
      Reader(epoch, Window(bits, maxSeqNum))
    }

    constructor (aead: Aead)
      ensures View() == Begin(aead).reader && this.aead == aead
    {
      this.epoch, this.bits, this.maxSeqNum, this.aead := 0, 0, 0, aead;
    }

    /** `dtls1_bitmap_should_discard`. */
    method ShouldDiscard(sequence: seq<byte>) returns (discard: bool)
      requires |sequence| == 8
      ensures discard == DtlsWindow.ShouldDiscard(View().window, DecBE(sequence))
    {
      var seqNum := ToU64BE(sequence);
      if seqNum > maxSeqNum {
        return false;
      }
      var idx := maxSeqNum - seqNum;
      return idx >= WINDOW || MapBit(bits, idx);
    }

    /** `dtls1_bitmap_record`. */
    method RecordNumber(sequence: seq<byte>)
      requires |sequence| == 8
      modifies this`bits, this`maxSeqNum
      ensures View() == old(View()).(window := DtlsWindow.Record(old(View()).window, DecBE(sequence)))
    {
      hide MapBit, Shifted, WithBit;
      var seqNum := ToU64BE(sequence);
      if seqNum > maxSeqNum {
        var shift := seqNum - maxSeqNum;
        if shift >= WINDOW {
          bits := 0;
        } else {
          bits := Shifted(bits, shift);
        }
        maxSeqNum := seqNum;
      }
      var idx := maxSeqNum - seqNum;
      if idx < WINDOW {
        bits := WithBit(bits, idx);
      }
    }

    /** `dtls_open_record`. */
    method OpenRecord(packet: seq<byte>) returns (result: Opened, consumed: nat)
      modifies this`bits, this`maxSeqNum
      ensures Arrival(View(), result, consumed) == DtlsRecord.OpenRecord(old(View()), aead, packet)
    {
      hide DtlsWindow.ShouldDiscard, DtlsWindow.Record, ParseRecord;
      var p := ParseRecord(packet);
      if p.Malformed? {
        return Discard, |packet|;
      }
      var c := p.context;
      if !VersionOk(aead, c.version) {
        return Discard, |packet|;
      }
      consumed := |packet| - |p.rest|;
      var drop := DecBE(c.sequence[..2]) != epoch;
      if !drop {
        drop := ShouldDiscard(c.sequence);
      }
      if drop {
        return Discard, consumed;
      }
      var plaintext := aead.open(c, p.body);
      if plaintext.None? {
        // Dropped without an error (section 4.1.2.7 of RFC 6347).
        return Discard, consumed;
      }
      if |plaintext.value| > MAX_PLAIN_LENGTH {
        return TooLong, consumed;
      }
      RecordNumber(c.sequence);
      return Accepted(c.recordType, c.sequence, plaintext.value), consumed;
    }

    /** `dtls1_get_record` on what is left of a packet: goes on until a record is accepted or is
        an error, or nothing is left. */
    method GetRecord(packet: seq<byte>) returns (result: Opened, rest: seq<byte>)
      modifies this`bits, this`maxSeqNum
      ensures DtlsOpen.Fetched(View(), result, rest) == DtlsOpen.GetRecord(old(View()), aead, packet)
    {
      hide DtlsRecord.OpenRecord;
      rest := packet;
      while rest != []
        invariant DtlsOpen.GetRecord(View(), aead, rest) == DtlsOpen.GetRecord(old(View()), aead, packet)
        decreases |rest|
      {
        DtlsOpen.SomethingIsConsumed(View(), aead, rest);
        var consumed;
        result, consumed := OpenRecord(rest);
        rest := rest[consumed..];
        if !result.Discard? {
          return;
        }
      }
      return Discard, rest;
    }

    /** `dtls1_set_read_state`; refused while messages or a ChangeCipherSpec are buffered. */
    method SetReadState(keys: Aead, incoming: DtlsIncoming.Incoming) returns (ok: bool)
      requires incoming.Valid()
      modifies this
      ensures ok <==> old(!incoming.Buffers() && !incoming.hasChangeCipherSpec)
      ensures ok ==> View() == NextReadEpoch(old(View())) && aead == keys
      ensures !ok ==> View() == old(View()) && aead == old(aead)
    {
      hide DtlsIncoming.Incoming.Valid, DtlsIncoming.Incoming.Buffers;
      var some := incoming.HasIncoming();
      if some || incoming.hasChangeCipherSpec {
        return false;
      }
      epoch := (epoch + 1) % EPOCHS;
      bits, maxSeqNum := 0, 0;
      aead := keys;
      return true;
    }
  }
}
