/** The sending side of the DTLS record layer, as functions on values: sequence numbers of
    the current and of the previous epoch, and what a sealed record is made of. */
module DtlsWriter {
  import opened ByteString
  import opened DtlsRecord

  const U16 := 0x1_0000
  /** Sequence numbers are 48-bit ones. */
  const SEQUENCES := 0x1_0000_0000_0000

  /** The write epoch, the numbers to be used next in it and in the one before, and their ciphers. */
  datatype Writer = Writer(epoch: nat, seqNo: nat, lastSeqNo: nat, aead: Aead, lastAead: Aead)

  predicate ValidWriter(w: Writer) {
    w.epoch < EPOCHS && w.seqNo < SEQUENCES && w.lastSeqNo < SEQUENCES && w.aead.version < U16
  }

  /** Which epoch a record is to be sealed in. */
  datatype UseEpoch = Current | Previous

  function EpochFor(w: Writer, use: UseEpoch): nat
    requires use.Previous? ==> w.epoch >= 1
  {
    if use.Previous? then w.epoch - 1 else w.epoch
  }

  function AeadFor(w: Writer, use: UseEpoch): Aead {
    if use.Previous? then w.lastAead else w.aead
  }

  function NumberFor(w: Writer, use: UseEpoch): nat {
    if use.Previous? then w.lastSeqNo else w.seqNo
  }

  /** The number is used up; it comes around after the last one. */
  function Used(w: Writer, use: UseEpoch): Writer {
    if use.Previous? then w.(lastSeqNo := (w.lastSeqNo + 1) % SEQUENCES) else w.(seqNo := (w.seqNo + 1) % SEQUENCES)
  }

  function Sequence(epoch: nat, seqNo: nat): (s: seq<byte>)
    ensures |s| == 8
  {
    EncBE(epoch, 2) + EncBE(seqNo, 6)
  }

  /** The context of the next record. The version is that of the current cipher. */
  function ContextFor(w: Writer, use: UseEpoch, recordType: byte): Context
    requires use.Previous? ==> w.epoch >= 1
  {
    Context(recordType, w.aead.version, Sequence(EpochFor(w, use), NumberFor(w, use)))
  }

  /** The record if there is one, and whether a number was used for it. */
  datatype Sealed = Sealed(writer: Writer, record: Option<seq<byte>>, used: bool)

  /** `dtls_seal_record`. Also when the number comes around, or the result is too long for
      its length field, a record was sealed, though it is not handed out. */
  function SealRecord(w: Writer, use: UseEpoch, recordType: byte, plaintext: seq<byte>, maxOut: nat): (r: Sealed)
    requires ValidWriter(w) && (use.Previous? ==> w.epoch >= 1)
    ensures ValidWriter(r.writer)
  {
    var aead, c := AeadFor(w, use), ContextFor(w, use, recordType);
    var sealed := aead.seal(c, plaintext);
    if maxOut < RT_HEADER_LENGTH then Sealed(w, None, false)
    else if |plaintext| + aead.nonceLen + aead.tagLen(|plaintext|) > maxOut - RT_HEADER_LENGTH || sealed.None? then
      Sealed(w, None, false)
    else if NumberFor(w, use) == SEQUENCES - 1 || |sealed.value| >= U16 then Sealed(Used(w, use), None, true)
    else Sealed(Used(w, use), Some(EncRecord(c, sealed.value)), true)
  }

  /** `dtls1_set_write_state`. */
  function NextWriteEpoch(w: Writer, keys: Aead): (w': Writer)
    requires ValidWriter(w) && keys.version < U16
    ensures ValidWriter(w')
  {
    Writer((w.epoch + 1) % EPOCHS, 0, w.seqNo, keys, w.aead)
  }

  /** How `seal_next_message` finds the epoch of a message. */
  function UseFor(w: Writer, epoch: nat): (u: Option<UseEpoch>)
    ensures u == Some(Previous) ==> w.epoch >= 1
  {
    if w.epoch >= 1 && epoch == w.epoch - 1 then Some(Previous)
    else if epoch == w.epoch then Some(Current)
    else None
  }

  /** Epochs the writer can seal in: its own and, for retransmissions, the one before. */
  predicate HasKeys(w: Writer, epoch: nat) {
    epoch == w.epoch || (w.epoch >= 1 && epoch == w.epoch - 1)
  }

  function KeysOf(w: Writer, epoch: nat): Aead
    requires HasKeys(w, epoch)
  {
    if epoch == w.epoch then w.aead else w.lastAead
  }

  function NextNumber(w: Writer, epoch: nat): nat
    requires HasKeys(w, epoch)
  {
    if epoch == w.epoch then w.seqNo else w.lastSeqNo
  }

  /** A message is sealed in its own epoch, with the keys and the next number of that epoch,
      and not at all if that is neither the present epoch nor the one before. */
  lemma UsesOwnEpoch(w: Writer, epoch: nat)
    ensures UseFor(w, epoch).Some? <==> HasKeys(w, epoch)
    ensures HasKeys(w, epoch) ==>
              var use := UseFor(w, epoch).value;
              && EpochFor(w, use) == epoch && AeadFor(w, use) == KeysOf(w, epoch)
              && NumberFor(w, use) == NextNumber(w, epoch)
  {
  }

  // ---------------------------------------------------------- what comes out again

  /** A record that was sealed is opened by a reader in the same epoch that has not seen its
      number: type, sequence number and plaintext come out again. */
  lemma OpenUndoesSeal(w: Writer, use: UseEpoch, recordType: byte, plaintext: seq<byte>, maxOut: nat,
                       r: Reader, rest: seq<byte>)
    requires ValidWriter(w) && (use.Previous? ==> w.epoch >= 1) && AeadFor(w, use).Ideal()
    requires SealRecord(w, use, recordType, plaintext, maxOut).record.Some?
    requires r.epoch == EpochFor(w, use) && |plaintext| <= MAX_PLAIN_LENGTH
    requires var number := DecBE(ContextFor(w, use, recordType).sequence); !DtlsWindow.ShouldDiscard(r.window, number)
    requires VersionOk(AeadFor(w, use), w.aead.version)
    requires AeadFor(w, use).MaxOverhead() <= MAX_ENCRYPTED_LENGTH - MAX_PLAIN_LENGTH
    ensures var record := SealRecord(w, use, recordType, plaintext, maxOut).record.value;
            && |record| <= maxOut
            && OpenRecord(r, AeadFor(w, use), record + rest).result
            == Accepted(recordType, Sequence(EpochFor(w, use), NumberFor(w, use)), plaintext)
  {
    var aead, c := AeadFor(w, use), ContextFor(w, use, recordType);
    var body := aead.seal(c, plaintext).value;
    assert aead.seal(c, plaintext).Some?;
    ParseRecordBack(c, body, rest);
    Pow256Values();
    BigEndianRoundTrip(r.epoch, 2);
    hide ParseRecord, EncRecord, EncBE, DecBE;
    assert c.sequence[..2] == EncBE(r.epoch, 2);
  }

  // ------------------------------------------------------------------- whole runs

  datatype WriteEvent = Seal(epoch: nat, recordType: byte, plaintext: seq<byte>, maxOut: nat) | NewWriteKeys(keys: Aead)

  /** The writer; every (epoch, number) pair a record was sealed with, in order; how often the
      keys changed; whether the number of the current and of the previous epoch came around,
      which the sealing call reported as an error; and whether sealing went on after that. */
  datatype Sending = Sending(writer: Writer, pairs: seq<(nat, nat)>, changes: nat,
                             spent: bool, lastSpent: bool, overused: bool)

  function Begin(aead: Aead): Sending {
    Sending(Writer(0, 0, 0, aead, aead), [], 0, false, false, false)
  }

  function Step(st: Sending, e: WriteEvent): Sending
    requires ValidWriter(st.writer)
  {
    var w := st.writer;
    match e
    case NewWriteKeys(keys) =>
      if keys.version >= U16 then st
      else st.(writer := NextWriteEpoch(w, keys), changes := st.changes + 1, spent := false, lastSpent := st.spent)
    case Seal(epoch, recordType, plaintext, maxOut) =>
      var use := UseFor(w, epoch);
      if use.None? then st
      else
        var r := SealRecord(w, use.value, recordType, plaintext, maxOut);
        if !r.used then st
        else Advanced(st, use.value, r.writer)
  }

  /** A record was sealed. */
  function Advanced(st: Sending, use: UseEpoch, w': Writer): Sending
    requires use.Previous? ==> st.writer.epoch >= 1
  {
    var around := NumberFor(w', use) == 0;
    Sending(w',
            st.pairs + [(EpochFor(st.writer, use), NumberFor(st.writer, use))],
            st.changes,
            st.spent || (use.Current? && around),
            st.lastSpent || (use.Previous? && around),
            st.overused || (if use.Previous? then st.lastSpent else st.spent))
  }

  /** The pairs are those of the records: whatever is handed out carries the last pair noted, in the
      epoch asked for, and a pair is noted for every number used. */
  lemma SealsAreNoted(st: Sending, epoch: nat, recordType: byte, plaintext: seq<byte>, maxOut: nat)
    requires ValidWriter(st.writer) && HasKeys(st.writer, epoch)
    ensures var w, st' := st.writer, Step(st, Seal(epoch, recordType, plaintext, maxOut));
            var r := SealRecord(w, UseFor(w, epoch).value, recordType, plaintext, maxOut);
            && st'.writer == r.writer
            && st'.pairs == st.pairs + (if r.used then [(epoch, NextNumber(w, epoch))] else [])
            && (r.record.Some? ==>
                  && r.used && KeysOf(w, epoch).seal(Context(recordType, w.aead.version,
                                                            Sequence(epoch, NextNumber(w, epoch))), plaintext).Some?
                  && r.record.value[3..11] == Sequence(epoch, NextNumber(w, epoch)))
  {
    UsesOwnEpoch(st.writer, epoch);
    hide EncBE;
    NothingMore(st.pairs);
  }

  lemma NothingMore<T>(s: seq<T>)
    ensures s + [] == s
  {
  }

  /** Every change of the keys is noted, and starts a count of its own. */
  lemma KeysAreNoted(st: Sending, keys: Aead)
    requires ValidWriter(st.writer) && keys.version < U16
    ensures var st' := Step(st, NewWriteKeys(keys));
            && st'.changes == st.changes + 1 && st'.writer.epoch == (st.writer.epoch + 1) % 0x1_0000
            && st'.writer.seqNo == 0 && st'.writer.lastSeqNo == st.writer.seqNo
            && st'.writer.aead == keys && st'.writer.lastAead == st.writer.aead
  {
  }

  function Run(aead: Aead, events: seq<WriteEvent>): (st: Sending)
    requires aead.version < U16
    ensures ValidWriter(st.writer)
  {
    if events == [] then Begin(aead) else Step(Run(aead, events[..|events| - 1]), events[|events| - 1])
  }

  /** How many numbers of an epoch have been used. */
  function Count(seqNo: nat, spent: bool): nat {
    if spent then SEQUENCES else seqNo
  }

  /** Exactly the numbers below `n` have been used in an epoch. */
  ghost predicate UsedUpTo(pairs: seq<(nat, nat)>, epoch: nat, n: nat) {
    forall k: nat :: (epoch, k) in pairs <==> k < n
  }

  ghost predicate Numbered(st: Sending) {
    && ValidWriter(st.writer)
    && (st.changes < EPOCHS ==>
          && st.writer.epoch == st.changes
          && (forall p :: p in st.pairs ==> p.0 <= st.changes)
          && UsedUpTo(st.pairs, st.changes, Count(st.writer.seqNo, st.spent))
          && (st.changes > 0 ==> UsedUpTo(st.pairs, st.changes - 1, Count(st.writer.lastSeqNo, st.lastSpent)))
          && (Distinct(st.pairs) <==> !st.overused))
  }

  lemma NewKeysNumbered(st: Sending, keys: Aead)
    requires Numbered(st)
    ensures Numbered(Step(st, NewWriteKeys(keys)))
  {
  }

  lemma MoreDistinct<T>(s: seq<T>, x: T)
    ensures Distinct(s + [x]) <==> Distinct(s) && x !in s
  {
    var t := s + [x];
    if Distinct(t) {
      forall i, j | 0 <= i < j < |s|
        ensures s[i] != s[j]
      {
        assert t[i] != t[j];
      }
      forall i | 0 <= i < |s|
        ensures s[i] != x
      {
        assert t[i] != t[|s|];
      }
    }
  }

  /** One more number of one epoch is used; the other epochs do not change. */
  lemma OneMore(pairs: seq<(nat, nat)>, epoch: nat, n: nat, other: nat, m: nat)
    requires UsedUpTo(pairs, epoch, n) && (other != epoch ==> UsedUpTo(pairs, other, m))
    ensures UsedUpTo(pairs + [(epoch, n)], epoch, n + 1)
    ensures other != epoch ==> UsedUpTo(pairs + [(epoch, n)], other, m)
  {
    var pairs' := pairs + [(epoch, n)];
    forall k: nat
      ensures (epoch, k) in pairs' <==> k < n + 1
      ensures other != epoch ==> ((other, k) in pairs' <==> k < m)
    {
      assert (epoch, k) in pairs' <==> (epoch, k) in pairs || k == n;
      assert (other, k) in pairs' <==> (other, k) in pairs || (other, k) == (epoch, n);
    }
  }

  /** A number used before adds nothing. */
  lemma NoMore(pairs: seq<(nat, nat)>, epoch: nat, k: nat, other: nat, m: nat)
    requires (epoch, k) in pairs && UsedUpTo(pairs, other, m)
    ensures UsedUpTo(pairs + [(epoch, k)], other, m)
  {
    forall j: nat
      ensures (other, j) in pairs + [(epoch, k)] <==> j < m
    {
      assert (other, j) in pairs + [(epoch, k)] <==> (other, j) in pairs || (other, j) == (epoch, k);
    }
  }

  lemma AdvancedNumbered(st: Sending, use: UseEpoch)
    requires Numbered(st) && (use.Previous? ==> st.writer.epoch >= 1)
    ensures Numbered(Advanced(st, use, Used(st.writer, use)))
  {
    if st.changes < EPOCHS {
      var w, c := st.writer, st.changes;
      var e, k := EpochFor(w, use), NumberFor(w, use);
      var spent := if use.Previous? then st.lastSpent else st.spent;
      MoreDistinct(st.pairs, (e, k));
      assert (e, k) in st.pairs <==> spent;
      hide UsedUpTo, Distinct;
      var hasOther := use.Previous? || c > 0;
      var other := if use.Previous? then c else if c > 0 then c - 1 else e;
      var m := if use.Previous? then Count(w.seqNo, st.spent) else Count(w.lastSeqNo, st.lastSpent);
      if spent {
        NoMore(st.pairs, e, k, e, SEQUENCES);
        if hasOther {
          NoMore(st.pairs, e, k, other, m);
        }
      } else {
        OneMore(st.pairs, e, k, other, m);
      }
    }
  }

  lemma {:induction false} RunIsNumbered(aead: Aead, events: seq<WriteEvent>)
    requires aead.version < U16
    ensures Numbered(Run(aead, events))
  {
    if events == [] {
    } else {
      var front, last := events[..|events| - 1], events[|events| - 1];
      RunIsNumbered(aead, front);
      var st := Run(aead, front);
      match last {
        case NewWriteKeys(keys) => NewKeysNumbered(st, keys);
        case Seal(epoch, recordType, plaintext, maxOut) =>
          var use := UseFor(st.writer, epoch);
          if use.Some? && SealRecord(st.writer, use.value, recordType, plaintext, maxOut).used {
            AdvancedNumbered(st, use.value);
          }
      }
    }
  }

  /** While the 16-bit epoch has not come around, no record is sealed with the epoch and
      number of another one, over any interleaving of both epochs and key changes, if and
      only if no caller went on in an epoch after sealing in it failed because its 48-bit
      number came around. */
  lemma NoPairTwice(aead: Aead, events: seq<WriteEvent>)
    requires aead.version < U16 && Run(aead, events).changes < EPOCHS
    ensures Distinct(Run(aead, events).pairs) <==> !Run(aead, events).overused
  {
    RunIsNumbered(aead, events);
  }
}
