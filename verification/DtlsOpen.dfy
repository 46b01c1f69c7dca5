/** Reading a DTLS packet to its end: the records in it are opened one after the other, and what
    comes out is what was sealed in those that are new to the reader. */
module DtlsOpen {
  import opened ByteString
  import opened DtlsRecord
  import opened DtlsWindow

  // --------------------------------------------------------------- one record

  /** The bytes at the front of a packet are a record header and a body of the length in it, of
      16704 bytes at most. */
  predicate HasHeader(s: seq<byte>) {
    |s| >= 13 && DecBE(s[11..13]) <= 16704 && 13 + DecBE(s[11..13]) <= |s|
  }

  /** Type, version and sequence number of the record at the front. */
  function ContextIn(s: seq<byte>): Context
    requires |s| >= 13
  {
    Context(s[0], DecBE(s[1..3]), s[3..11])
  }

  lemma ParseRecordIs(s: seq<byte>)
    ensures ParseRecord(s)
         == if HasHeader(s)
            then Record(ContextIn(s), s[13..13 + DecBE(s[11..13])], s[13 + DecBE(s[11..13])..]) else Malformed
  {
    hide EncBE, DecBE, Pow256;
    if |s| >= 13 {
      var tail := s[1..];
      assert tail[..2] == s[1..3] && tail[2..][..8] == s[3..11] && tail[2..][8..] == s[11..];
      assert s[11..][..2] == s[11..13] && s[11..][2..] == s[13..];
      var n := DecBE(s[11..13]);
      if n <= |s| - 13 {
        assert s[13..][..n] == s[13..13 + n] && s[13..][n..] == s[13 + n..];
      }
    }
  }

  lemma SlicesJoin(s: seq<byte>, n: nat)
    requires 13 + n <= |s|
    ensures s == [s[0]] + s[1..3] + s[3..11] + s[11..13] + s[13..13 + n] + s[13 + n..]
  {
  }

  /** What is parsed is what was written, byte for byte. */
  lemma ParsedIsRecord(s: seq<byte>)
    ensures var p := ParseRecord(s);
            p.Record? ==> s == EncRecord(p.context, p.body) + p.rest && |p.body| <= MAX_ENCRYPTED_LENGTH
  {
    hide EncBE, DecBE, Pow256, ParseRecord;
    ParseRecordIs(s);
    if HasHeader(s) {
      BigEndianBack(s[1..3]);
      BigEndianBack(s[11..13]);
      SlicesJoin(s, DecBE(s[11..13]));
    }
  }

  /** Whatever becomes of a record whose version and length are acceptable, exactly the record is
      consumed; any other one takes the packet with it. */
  lemma RecordIsConsumed(r: Reader, aead: Aead, c: Context, body: seq<byte>, rest: seq<byte>)
    requires |c.sequence| == 8 && c.version < 0x1_0000 && |body| < 0x1_0000
    ensures var s := EncRecord(c, body) + rest;
            s[OpenRecord(r, aead, s).consumed..]
            == if VersionOk(aead, c.version) && |body| <= MAX_ENCRYPTED_LENGTH then rest else []
  {
    ParseRecordBack(c, body, rest);
    var s := EncRecord(c, body) + rest;
    hide EncRecord, ParseRecord;
    assert s[|s| - |rest|..] == rest && s[|s|..] == [];
  }

  /** The version is one the reader accepts: it looks at the first byte only as long as there are
      no keys. */
  predicate HasVersion(aead: Aead, s: seq<byte>)
    requires |s| >= 13
  {
    if aead.isNull then s[1] == 0xfe else s[1..3] == EncBE(aead.version, 2)
  }

  lemma VersionIff(aead: Aead, v: seq<byte>)
    requires |v| == 2 && aead.version < 0x1_0000
    ensures VersionOk(aead, DecBE(v)) <==> (if aead.isNull then v[0] == 0xfe else v == EncBE(aead.version, 2))
  {
    Pow256Values();
    BigEndianBack(v);
    BigEndianRoundTrip(aead.version, 2);
    assert v[..1][..0] == [];
    assert DecBE(v[..1]) == v[0];
  }

  /** A packet begins with a record that is accepted if and only if header and version are in
      order, the epoch is the reader's, the number is new and less than sixty-four behind, and the
      body opens to no more than 16384 bytes. */
  lemma AcceptedIff(r: Reader, aead: Aead, s: seq<byte>, seen: set<nat>)
    requires Exact(r.window, seen) && r.epoch < EPOCHS && aead.version < 0x1_0000
    ensures OpenRecord(r, aead, s).result.Accepted? <==>
            && HasHeader(s) && HasVersion(aead, s) && s[3..5] == EncBE(r.epoch, 2)
            && DecBE(s[3..11]) !in seen && r.window.max < DecBE(s[3..11]) + 64
            && var plaintext := aead.open(ContextIn(s), s[13..13 + DecBE(s[11..13])]);
               plaintext.Some? && |plaintext.value| <= 16384
    ensures OpenRecord(r, aead, s).result.TooLong? <==>
            && HasHeader(s) && HasVersion(aead, s) && s[3..5] == EncBE(r.epoch, 2)
            && DecBE(s[3..11]) !in seen && r.window.max < DecBE(s[3..11]) + 64
            && var plaintext := aead.open(ContextIn(s), s[13..13 + DecBE(s[11..13])]);
               plaintext.Some? && |plaintext.value| > 16384
  {
    hide ParseRecord, EncBE, DecBE, Exact, ShouldDiscard, DtlsWindow.Record, VersionOk;
    ParseRecordIs(s);
    if HasHeader(s) {
      VersionIff(aead, s[1..3]);
      assert s[1..3][0] == s[1];
      assert s[3..11][..2] == s[3..5];
      EpochIff(r.epoch, s[3..5]);
      DiscardIff(r.window, seen, DecBE(s[3..11]));
    }
  }

  lemma EpochIff(epoch: nat, v: seq<byte>)
    requires |v| == 2 && epoch < EPOCHS
    ensures DecBE(v) == epoch <==> v == EncBE(epoch, 2)
  {
    Pow256Values();
    BigEndianBack(v);
    BigEndianRoundTrip(epoch, 2);
  }

  /** Every call gets on. */
  lemma SomethingIsConsumed(r: Reader, aead: Aead, s: seq<byte>)
    requires s != []
    ensures OpenRecord(r, aead, s).consumed > 0
  {
    hide ParseRecord;
  }

  // ----------------------------------------------------------- one call, and all

  /** What is handed out, nothing if the packet is used up, and what is left of the packet. */
  datatype Fetched = Fetched(reader: Reader, result: Opened, rest: seq<byte>)

  /** `dtls1_get_record` on a packet: records that are discarded are passed over. */
  function GetRecord(r: Reader, aead: Aead, s: seq<byte>): (f: Fetched)
    ensures |f.rest| <= |s| && (!f.result.Discard? ==> |f.rest| < |s|)
    ensures f.reader.epoch == r.epoch
    decreases |s|
  {
    if s == [] then Fetched(r, Discard, [])
    else
      SomethingIsConsumed(r, aead, s);
      var a := OpenRecord(r, aead, s);
      if a.result.Discard? then GetRecord(a.reader, aead, s[a.consumed..])
      else Fetched(a.reader, a.result, s[a.consumed..])
  }

  /** A record as the caller gets it. */
  datatype Got = Got(recordType: byte, sequence: seq<byte>, plaintext: seq<byte>)

  datatype Emptied = Emptied(reader: Reader, got: seq<Got>)

  /** All that a packet holds for the reader. A record that is too long is an error of the call
      it is met in; the next call goes on behind it. */
  function OpenPacket(r: Reader, aead: Aead, s: seq<byte>): Emptied
    decreases |s|
  {
    var f := GetRecord(r, aead, s);
    match f.result
    case Discard => Emptied(f.reader, [])
    case TooLong => OpenPacket(f.reader, aead, f.rest)
    case Accepted(recordType, sequence, plaintext) =>
      var more := OpenPacket(f.reader, aead, f.rest);
      more.(got := [Got(recordType, sequence, plaintext)] + more.got)
  }

  /** Passing over a record in a call of its own makes no difference. */
  lemma {:induction false} OneByOne(r: Reader, aead: Aead, s: seq<byte>)
    requires s != []
    ensures var a := OpenRecord(r, aead, s);
            var more := OpenPacket(a.reader, aead, s[a.consumed..]);
            OpenPacket(r, aead, s)
            == if a.result.Accepted?
               then more.(got := [Got(a.result.recordType, a.result.sequence, a.result.plaintext)] + more.got)
               else more
  {
    hide OpenRecord;
    SomethingIsConsumed(r, aead, s);
  }

  // ------------------------------------------------------------ what was sealed

  /** A record, and what was sealed in it. */
  datatype Known = Known(context: Context, plaintext: seq<byte>, body: seq<byte>)

  function Bytes(records: seq<Known>): seq<byte> {
    if records == [] then [] else EncRecord(records[0].context, records[0].body) + Bytes(records[1..])
  }

  /** A record that the reader need not refuse: its version and length are acceptable, and if it
      is of the reader's epoch it was sealed with the reader's keys. */
  ghost predicate Genuine(epoch: nat, aead: Aead, k: Known) {
    && |k.context.sequence| == 8 && k.context.version < 0x1_0000 && |k.body| <= MAX_ENCRYPTED_LENGTH
    && VersionOk(aead, k.context.version)
    && (EpochOf(k.context.sequence) == epoch ==> aead.seal(k.context, k.plaintext) == Some(k.body))
  }

  ghost predicate AllGenuine(epoch: nat, aead: Aead, records: seq<Known>) {
    forall k :: k in records ==> Genuine(epoch, aead, k)
  }

  /** New to a reader that has recorded some numbers, the greatest of them `max`: of its epoch,
      not recorded, and less than sixty-four behind. */
  predicate IsNew(epoch: nat, seen: set<nat>, max: nat, k: Known)
    requires |k.context.sequence| == 8
  {
    && EpochOf(k.context.sequence) == epoch
    && DecBE(k.context.sequence) !in seen && max < DecBE(k.context.sequence) + 64
    && |k.plaintext| <= MAX_PLAIN_LENGTH
  }

  function Max(a: nat, b: nat): nat {
    if a > b then a else b
  }

  /** What is in those records that are new when their turn comes. */
  function NewOnes(epoch: nat, seen: set<nat>, max: nat, records: seq<Known>): seq<Got>
    requires forall k :: k in records ==> |k.context.sequence| == 8
    decreases |records|
  {
    if records == [] then []
    else
      var k, n := records[0], DecBE(records[0].context.sequence);
      if IsNew(epoch, seen, max, k)
      then [Got(k.context.recordType, k.context.sequence, k.plaintext)]
           + NewOnes(epoch, seen + {n}, Max(n, max), records[1..])
      else NewOnes(epoch, seen, max, records[1..])
  }

  /** A genuine record is accepted if and only if it is new, and then it is what was sealed. */
  lemma NewIsAccepted(r: Reader, aead: Aead, seen: set<nat>, k: Known, rest: seq<byte>)
    requires Genuine(r.epoch, aead, k) && aead.Ideal() && Exact(r.window, seen)
    ensures var s := EncRecord(k.context, k.body) + rest;
            var a, n := OpenRecord(r, aead, s), DecBE(k.context.sequence);
            && s[a.consumed..] == rest && a.reader.epoch == r.epoch
            && if IsNew(r.epoch, seen, r.window.max, k)
               then a.result == Accepted(k.context.recordType, k.context.sequence, k.plaintext)
                    && Exact(a.reader.window, seen + {n}) && a.reader.window.max == Max(n, r.window.max)
               else !a.result.Accepted? && a.reader == r
  {
    var n := DecBE(k.context.sequence);
    ParseRecordBack(k.context, k.body, rest);
    RecordIsConsumed(r, aead, k.context, k.body, rest);
    DiscardIff(r.window, seen, n);
    RecordIsExact(r.window, seen, n);
    hide EncRecord, ParseRecord, ShouldDiscard, DtlsWindow.Record, Exact;
    if EpochOf(k.context.sequence) == r.epoch {
      assert aead.open(k.context, aead.seal(k.context, k.plaintext).value) == Some(k.plaintext);
    }
  }

  function NumbersOf(got: seq<Got>): set<nat> {
    set g | g in got :: DecBE(g.sequence)
  }

  /** Opening a packet until nothing is left yields, in order, exactly the type, number and
      plaintext of every record whose epoch is the reader's and whose number is new. */
  lemma {:induction false} PacketOpens(r: Reader, aead: Aead, seen: set<nat>, records: seq<Known>)
    requires AllGenuine(r.epoch, aead, records) && aead.Ideal() && Exact(r.window, seen)
    ensures var e := OpenPacket(r, aead, Bytes(records));
            && e.got == NewOnes(r.epoch, seen, r.window.max, records)
            && e.reader.epoch == r.epoch && Exact(e.reader.window, seen + NumbersOf(e.got))
            && (e.reader.window.max == r.window.max || e.reader.window.max in NumbersOf(e.got))
    decreases |records|
  {
    hide OpenRecord, EncRecord, Exact, IsNew, VersionOk, EpochOf, DecBE, NumbersOf;
    if records == [] {
      NothingIsGot(r, aead);
      assert seen + NumbersOf([]) == seen;
    } else {
      var k, n := records[0], DecBE(records[0].context.sequence);
      assert k in records;
      NewIsAccepted(r, aead, seen, k, Bytes(records[1..]));
      OneByOne(r, aead, Bytes(records));
      var a := OpenRecord(r, aead, Bytes(records));
      var isNew := IsNew(r.epoch, seen, r.window.max, k);
      PacketOpens(a.reader, aead, if isNew then seen + {n} else seen, records[1..]);
      if isNew {
        var more := OpenPacket(a.reader, aead, Bytes(records[1..])).got;
        OneMoreGot(Got(k.context.recordType, k.context.sequence, k.plaintext), more);
        assert seen + {n} + NumbersOf(more) == seen + ({n} + NumbersOf(more));
      }
    }
  }

  lemma NothingIsGot(r: Reader, aead: Aead)
    ensures OpenPacket(r, aead, []) == Emptied(r, []) && NumbersOf([]) == {}
  {
  }

  lemma OneMoreGot(g: Got, more: seq<Got>)
    ensures NumbersOf([g] + more) == {DecBE(g.sequence)} + NumbersOf(more)
  {
    hide DecBE;
    assert forall x :: x in [g] + more <==> x == g || x in more;
  }
}
