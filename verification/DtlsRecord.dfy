/** DTLS records: their wire format, the ideal cipher behind them, and the receiving side
    with its epoch and its replay window. */
module DtlsRecord {
  import opened ByteString
  import opened DtlsWindow

  const RT_HEADER_LENGTH := 13
  const MAX_PLAIN_LENGTH := 16384
  const MAX_ENCRYPTED_LENGTH := MAX_PLAIN_LENGTH + 256 + 64
  const DTLS1_VERSION_MAJOR := 0xfe
  const EPOCHS := 0x1_0000

  // ----------------------------------------------------------------- the cipher

  /** What is authenticated with a record. */
  datatype Context = Context(recordType: byte, version: nat, sequence: seq<byte>)

  /** `SSLAEADContext`: its operations are given, they are not modelled. */
  datatype Aead = Aead(isNull: bool, version: nat, nonceLen: nat, maxTag: nat, tagLen: nat -> nat,
                       seal: (Context, seq<byte>) -> Option<seq<byte>>,
                       open: (Context, seq<byte>) -> Option<seq<byte>>)
  {
    function MaxOverhead(): nat {
      nonceLen + maxTag
    }

    /** Sealing adds a nonce and a tag that fits the declared overhead, and opening undoes it. */
    ghost predicate Ideal() {
      && (forall n :: tagLen(n) <= maxTag)
      && (forall c, p :: seal(c, p).Some? ==>
            |seal(c, p).value| == nonceLen + |p| + tagLen(|p|) && open(c, seal(c, p).value) == Some(p))
    }
  }

  // ------------------------------------------------------------ the wire format

  function EncRecord(c: Context, body: seq<byte>): (s: seq<byte>)
    ensures |s| == RT_HEADER_LENGTH - 8 + |c.sequence| + |body|
  {
    [c.recordType] + EncBE(c.version, 2) + c.sequence + EncBE(|body|, 2) + body
  }

  datatype Parsed = Malformed | Record(context: Context, body: seq<byte>, rest: seq<byte>)

  function ParseRecord(s: seq<byte>): (p: Parsed)
    ensures p.Record? ==> |p.context.sequence| == 8 && |p.rest| < |s|
  {
    if s == [] then Malformed
    else
      var version := TakeBE(s[1..], 2);
      if version.Short? || |version.rest| < 8 then Malformed
      else
        var length := TakeBE(version.rest[8..], 2);
        if length.Short? || |length.rest| < length.value || length.value > MAX_ENCRYPTED_LENGTH then Malformed
        else
          Record(Context(s[0], version.value, version.rest[..8]),
                 length.rest[..length.value], length.rest[length.value..])
  }

  /** A record that is written is parsed again, whatever follows it in the packet, unless it is
      longer than a record may be. */
  lemma ParseRecordBack(c: Context, body: seq<byte>, rest: seq<byte>)
    requires |c.sequence| == 8 && c.version < 0x1_0000 && |body| < 0x1_0000
    ensures ParseRecord(EncRecord(c, body) + rest)
            == if |body| <= MAX_ENCRYPTED_LENGTH then Record(c, body, rest) else Malformed
  {
    Pow256Values();
    var s := EncRecord(c, body) + rest;
    var s2 := EncBE(|body|, 2) + (body + rest);
    var s1 := c.sequence + s2;
    assert s[1..] == EncBE(c.version, 2) + s1;
    TakeBEBack(c.version, 2, s1);
    assert s1[..8] == c.sequence && s1[8..] == s2;
    TakeBEBack(|body|, 2, body + rest);
    hide EncBE, DecBE, TakeBE;
    assert (body + rest)[..|body|] == body && (body + rest)[|body|..] == rest;
  }

  // ---------------------------------------------------------- the receiving side

  /** The read epoch and the window over the 64-bit numbers of that epoch. */
  datatype Reader = Reader(epoch: nat, window: Window)

  datatype Opened = Discard | TooLong | Accepted(recordType: byte, sequence: seq<byte>, plaintext: seq<byte>)

  datatype Arrival = Arrival(reader: Reader, result: Opened, consumed: nat)

  function EpochOf(sequence: seq<byte>): nat
    requires |sequence| == 8
  {
    DecBE(sequence[..2])
  }

  predicate VersionOk(aead: Aead, version: nat) {
    if aead.isNull then version / 256 == DTLS1_VERSION_MAJOR else version == aead.version
  }

  /** `dtls_open_record`. Alerts are accepted like other records. */
  function OpenRecord(r: Reader, aead: Aead, s: seq<byte>): (a: Arrival)
    ensures a.reader.epoch == r.epoch
    ensures a.result.Accepted? ==> |a.result.sequence| == 8
    ensures a.consumed <= |s|
  {
    var p := ParseRecord(s);
    if p.Malformed? || !VersionOk(aead, p.context.version) then Arrival(r, Discard, |s|)
    else
      var c, consumed := p.context, |s| - |p.rest|;
      if EpochOf(c.sequence) != r.epoch || ShouldDiscard(r.window, DecBE(c.sequence)) then Arrival(r, Discard, consumed)
      else
        var plaintext := aead.open(c, p.body);
        if plaintext.None? then Arrival(r, Discard, consumed)
        else if |plaintext.value| > MAX_PLAIN_LENGTH then Arrival(r, TooLong, consumed)
        else
          Arrival(r.(window := DtlsWindow.Record(r.window, DecBE(c.sequence))),
                  Accepted(c.recordType, c.sequence, plaintext.value), consumed)
  }

  /** `dtls1_set_read_state`: the next epoch starts with an empty window. */
  function NextReadEpoch(r: Reader): Reader {
    Reader((r.epoch + 1) % EPOCHS, EMPTY_WINDOW)
  }

  // ------------------------------------------------------------------ whole runs

  datatype Event = Packet(bytes: seq<byte>) | NewKeys(aead: Aead)

  /** The reader, its cipher, the sequence numbers of the records accepted so far in order,
      and how often the keys have changed. */
  datatype Receiving = Receiving(reader: Reader, aead: Aead, accepted: seq<seq<byte>>, changes: nat)

  function Begin(aead: Aead): Receiving {
    Receiving(Reader(0, EMPTY_WINDOW), aead, [], 0)
  }

  function Step(st: Receiving, e: Event): Receiving {
    match e
    case Packet(bytes) =>
      var a := OpenRecord(st.reader, st.aead, bytes);
      st.(reader := a.reader,
          accepted := st.accepted + if a.result.Accepted? then [a.result.sequence] else [])
    case NewKeys(aead) =>
      st.(reader := NextReadEpoch(st.reader), aead := aead, changes := st.changes + 1)
  }

  function Run(aead: Aead, events: seq<Event>): Receiving {
    if events == [] then Begin(aead) else Step(Run(aead, events[..|events| - 1]), events[|events| - 1])
  }

  predicate Distinct<T(==)>(s: seq<T>) {
    forall i, j :: 0 <= i < j < |s| ==> s[i] != s[j]
  }

  /** The numbers accepted in the current epoch. */
  function SeenIn(accepted: seq<seq<byte>>, epoch: nat): set<nat>
    requires forall q :: q in accepted ==> |q| == 8
  {
    set q | q in accepted && EpochOf(q) == epoch :: DecBE(q)
  }

  ghost predicate Unreplayed(st: Receiving) {
    && (forall q :: q in st.accepted ==> |q| == 8)
    && (st.changes < EPOCHS ==>
          && st.reader.epoch == st.changes
          && (forall q :: q in st.accepted ==> EpochOf(q) <= st.reader.epoch)
          && Exact(st.reader.window, SeenIn(st.accepted, st.reader.epoch))
          && Distinct(st.accepted))
  }

  lemma NewKeysKeep(st: Receiving, aead: Aead)
    requires Unreplayed(st)
    ensures Unreplayed(Step(st, NewKeys(aead)))
  {
    var st' := Step(st, NewKeys(aead));
    if st'.changes < EPOCHS {
      EmptyIsExact();
      assert SeenIn(st'.accepted, st'.reader.epoch) == {};
    }
  }

  lemma SeenMore(accepted: seq<seq<byte>>, q: seq<byte>)
    requires |q| == 8 && forall x :: x in accepted ==> |x| == 8
    requires DecBE(q) !in SeenIn(accepted, EpochOf(q)) && Distinct(accepted)
    ensures SeenIn(accepted + [q], EpochOf(q)) == SeenIn(accepted, EpochOf(q)) + {DecBE(q)}
    ensures Distinct(accepted + [q])
  {
    assert forall x :: x in accepted && EpochOf(x) == EpochOf(q) ==> DecBE(x) in SeenIn(accepted, EpochOf(q));
  }

  lemma PacketKeeps(st: Receiving, bytes: seq<byte>)
    requires Unreplayed(st)
    ensures Unreplayed(Step(st, Packet(bytes)))
  {
    hide OpenRecord, Exact, SeenIn, Distinct;
    var a := OpenRecord(st.reader, st.aead, bytes);
    var st' := Step(st, Packet(bytes));
    if a.result.Accepted? {
      if st.changes < EPOCHS {
        AcceptedIsNew(st.reader, st.aead, bytes, SeenIn(st.accepted, st.reader.epoch));
        SeenMore(st.accepted, a.result.sequence);
      }
    } else {
      RejectedChangesNothing(st.reader, st.aead, bytes);
      assert st'.accepted == st.accepted;
    }
  }

  lemma RejectedChangesNothing(r: Reader, aead: Aead, s: seq<byte>)
    ensures !OpenRecord(r, aead, s).result.Accepted? ==> OpenRecord(r, aead, s).reader == r
  {
  }

  /** A record is accepted only if its number is new, and then the window has it. */
  lemma AcceptedIsNew(r: Reader, aead: Aead, s: seq<byte>, seen: set<nat>)
    requires Exact(r.window, seen)
    ensures var a := OpenRecord(r, aead, s);
            a.result.Accepted? ==>
              && EpochOf(a.result.sequence) == r.epoch
              && DecBE(a.result.sequence) !in seen
              && Exact(a.reader.window, seen + {DecBE(a.result.sequence)})
  {
    var a := OpenRecord(r, aead, s);
    hide Exact, ShouldDiscard, DtlsWindow.Record, ParseRecord;
    if a.result.Accepted? {
      DiscardIff(r.window, seen, DecBE(a.result.sequence));
      RecordIsExact(r.window, seen, DecBE(a.result.sequence));
    }
  }

  lemma {:induction false} RunIsUnreplayed(aead: Aead, events: seq<Event>)
    ensures Unreplayed(Run(aead, events))
  {
    if events == [] {
      EmptyIsExact();
      assert SeenIn([], 0) == {};
    } else {
      var front, last := events[..|events| - 1], events[|events| - 1];
      RunIsUnreplayed(aead, front);
      match last {
        case Packet(bytes) => PacketKeeps(Run(aead, front), bytes);
        case NewKeys(keys) => NewKeysKeep(Run(aead, front), keys);
      }
    }
  }

  /** No record is accepted twice, whatever packets arrive in whatever order, as long as the
      16-bit epoch has not come around. */
  lemma NoReplay(aead: Aead, events: seq<Event>)
    requires Run(aead, events).changes < EPOCHS
    ensures Distinct(Run(aead, events).accepted)
  {
    RunIsUnreplayed(aead, events);
  }

  /** The bound is tight: once the epoch has come around, the first record of a connection
      is accepted a second time. */
  lemma WrapAllowsReplay(aead: Aead, bytes: seq<byte>)
    requires OpenRecord(Begin(aead).reader, aead, bytes).result.Accepted?
    ensures var events := AfterKeys(aead, bytes, EPOCHS) + [Packet(bytes)];
            Run(aead, events).changes == EPOCHS && !Distinct(Run(aead, events).accepted)
  {
    var front := AfterKeys(aead, bytes, EPOCHS);
    var events := front + [Packet(bytes)];
    RunAfterKeys(aead, bytes, EPOCHS);
    assert events[..|events| - 1] == front;
    hide OpenRecord, Run;
    LastStep(aead, events);
    var accepted := Run(aead, events).accepted;
    assert accepted[0] == accepted[1];
  }

  lemma LastStep(aead: Aead, events: seq<Event>)
    requires events != []
    ensures Run(aead, events) == Step(Run(aead, events[..|events| - 1]), events[|events| - 1])
  {
  }

  lemma BeginOfRun(aead: Aead)
    ensures Run(aead, []) == Begin(aead)
  {
  }

  lemma NextModulo(n: nat)
    ensures (n % EPOCHS + 1) % EPOCHS == (n + 1) % EPOCHS
  {
  }

  function AfterKeys(aead: Aead, bytes: seq<byte>, n: nat): seq<Event> {
    if n == 0 then [Packet(bytes)] else AfterKeys(aead, bytes, n - 1) + [NewKeys(aead)]
  }

  lemma {:induction false} RunAfterKeys(aead: Aead, bytes: seq<byte>, n: nat)
    requires OpenRecord(Begin(aead).reader, aead, bytes).result.Accepted?
    ensures var st := Run(aead, AfterKeys(aead, bytes, n));
            && st.accepted == [OpenRecord(Begin(aead).reader, aead, bytes).result.sequence]
            && st.reader.epoch == n % EPOCHS && (n > 0 ==> st.reader.window == EMPTY_WINDOW)
            && st.changes == n && st.aead == aead
  {
    hide OpenRecord, Run;
    var events := AfterKeys(aead, bytes, n);
    LastStep(aead, events);
    if n == 0 {
      assert events[..0] == [];
      assert Run(aead, []) == Begin(aead) by {
        BeginOfRun(aead);
      }
    } else {
      assert events[..|events| - 1] == AfterKeys(aead, bytes, n - 1);
      RunAfterKeys(aead, bytes, n - 1);
      NextModulo(n - 1);
    }
  }
}
