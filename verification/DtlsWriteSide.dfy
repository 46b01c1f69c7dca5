/** The sending side of the DTLS record layer in the heap, with its sequence numbers as
    byte arrays: every method is proved against what `DtlsWriter` says. */
module DtlsWriteSide {
  import opened ByteString
  import opened DtlsRecord
  import opened DtlsWriter

  /** A big-endian number counted up by one; it comes around from all ones to zero. */
  function Increment(s: seq<byte>): (t: seq<byte>)
    ensures |t| == |s|
  {
    if s == [] then []
    else if s[|s| - 1] == 255 then Increment(s[..|s| - 1]) + [0]
    else s[..|s| - 1] + [s[|s| - 1] + 1]
  }

  lemma {:induction false} IncrementCounts(s: seq<byte>)
    ensures DecBE(Increment(s)) == (DecBE(s) + 1) % Pow256(|s|)
    ensures DecBE(s) < Pow256(|s|)
  {
    BigEndianBack(s);
    if s != [] {
      var front, last := s[..|s| - 1], s[|s| - 1];
      BigEndianBack(front);
      if last == 255 {
        IncrementCounts(front);
        var t := Increment(front);
        assert (t + [0])[..|t|] == t;
        Carry(DecBE(front), Pow256(|front|));
      } else {
        assert Increment(s)[..|s| - 1] == front;
        Small(DecBE(front) * 256 + last + 1, Pow256(|s|));
      }
    }
  }

  lemma Carry(a: nat, p: nat)
    requires a < p
    ensures (a * 256 + 255 + 1) % (256 * p) == (a + 1) % p * 256
  {
    if a + 1 < p {
      Small(a + 1, p);
      Small(a * 256 + 255 + 1, 256 * p);
    } else {
      Itself(p);
      Itself(256 * p);
    }
  }

  lemma Itself(p: nat)
    requires p > 0
    ensures p % p == 0
  {
  }

  lemma Small(a: nat, p: nat)
    requires a < p
    ensures a % p == a
  {
  }

  /** One step of counting from the back: either the carry stops here or it goes on. */
  lemma IncrementStep(whole: seq<byte>, front: seq<byte>, last: byte, tail: seq<byte>)
    requires whole == Increment(front + [last]) + tail
    ensures last != 255 ==> whole == front + [last + 1] + tail
    ensures last == 255 ==> whole == Increment(front) + ([0] + tail)
  {
    assert (front + [last])[..|front|] == front;
    if last == 255 {
      Regroup(Increment(front), [0], tail);
    }
  }

  lemma Regroup(a: seq<byte>, b: seq<byte>, c: seq<byte>)
    ensures a + b + c == a + (b + c)
  {
  }

  lemma IncrementStart(was: seq<byte>)
    ensures was[..|was|] == was && Increment(was[..|was|]) + [] == Increment(was)
    ensures Increment([]) == []
  {
  }

  /** `ssl_record_sequence_update`: carries from the last byte to the front; it fails when
      the number has come around to zero. */
  method SequenceUpdate(a: array<byte>, from: nat) returns (ok: bool)
    requires from < a.Length
    modifies a
    ensures a[..from] == old(a[..from])
    ensures a[from..] == Increment(old(a[from..]))
    ensures ok <==> DecBE(a[from..]) != 0
  {
    hide Increment, DecBE;
    ghost var was := a[from..];
    IncrementStart(was);
    var i := a.Length;
    assert a[i..] == [];
    while i > from
      invariant from <= i <= a.Length
      invariant a[..i] == old(a[..i])
      invariant AllZero(a[i..])
      invariant Increment(was) == Increment(was[..i - from]) + a[i..]
      decreases i
    {
      i := i - 1;
      ghost var tail := a[i + 1..];
      assert was[..i + 1 - from] == was[..i - from] + [was[i - from]];
      IncrementStep(Increment(was), was[..i - from], was[i - from], tail);
      assert a[i] == was[i - from];
      var counted: int := a[i] as int + 1;
      a[i] := counted % 256;
      assert a[i..] == [a[i]] + tail;
      if a[i] != 0 {
        assert a[from..] == was[..i - from] + [a[i]] + tail;
        NotZero(a[from..], i - from);
        return true;
      }
    }
    assert was[..0] == [];
    ZeroIsZero(a[from..]);
    return false;
  }

  lemma Wraps(n: nat)
    requires n < SEQUENCES
    ensures (n + 1) % SEQUENCES == 0 <==> n == SEQUENCES - 1
  {
  }

  predicate AllZero(s: seq<byte>) {
    forall i :: 0 <= i < |s| ==> s[i] == 0
  }

  lemma {:induction false} ZeroIsZero(s: seq<byte>)
    requires AllZero(s)
    ensures DecBE(s) == 0
  {
    if s != [] {
      ZeroIsZero(s[..|s| - 1]);
    }
  }

  lemma {:induction false} NotZero(s: seq<byte>, i: nat)
    requires i < |s| && s[i] != 0
    ensures DecBE(s) != 0
  {
    if i < |s| - 1 {
      NotZero(s[..|s| - 1], i);
    }
  }

  /** `w_epoch`, the two sequence numbers and the two write ciphers. */
  class WriteSide {
    var epoch: nat
    const writeSequence: array<byte>
    const lastWriteSequence: array<byte>
    var aead: Aead
    var lastAead: Aead

    ghost predicate Valid()
      reads this, writeSequence, lastWriteSequence
    {
      && writeSequence.Length == 8 && lastWriteSequence.Length == 8
      && writeSequence != lastWriteSequence
      && ValidWriter(View())
    }

    function View(): (w: Writer)
      requires writeSequence.Length == 8 && lastWriteSequence.Length == 8
      reads this, writeSequence, lastWriteSequence
      ensures w.epoch == epoch && w.aead == aead && w.lastAead == lastAead
    {
      Writer(epoch, DecBE(writeSequence[2..]), DecBE(lastWriteSequence[2..]), aead, lastAead)
    }

    constructor (aead: Aead)
      requires aead.version < U16
      ensures Valid() && fresh(writeSequence) && fresh(lastWriteSequence)
      ensures View() == DtlsWriter.Begin(aead).writer
    {
      epoch := 0;
      writeSequence := new byte[8](_ => 0);
      lastWriteSequence := new byte[8](_ => 0);
      this.aead, this.lastAead := aead, aead;
      new;
      ZeroIsZero(writeSequence[2..]);
      ZeroIsZero(lastWriteSequence[2..]);
    }

    /** Seals one record with a cipher and counts its sequence number up. */
    static method SealWith(a: Aead, s: array<byte>, c: Context, plaintext: seq<byte>, maxOut: nat)
      returns (record: Option<seq<byte>>, ghost used: bool)
      requires s.Length == 8
      modifies s
      ensures used <==> (maxOut >= RT_HEADER_LENGTH
                         && |plaintext| + a.nonceLen + a.tagLen(|plaintext|) <= maxOut - RT_HEADER_LENGTH
                         && a.seal(c, plaintext).Some?)
      ensures !used ==> s[..] == old(s[..]) && record == None
      ensures used ==> DecBE(s[2..]) == (old(DecBE(s[2..])) + 1) % SEQUENCES
      ensures used ==> record == if DecBE(s[2..]) == 0 || |a.seal(c, plaintext).value| >= U16 then None
                                 else Some(EncRecord(c, a.seal(c, plaintext).value))
    {
      hide DecBE, EncRecord, Increment;
      used := false;
      if maxOut < RT_HEADER_LENGTH || |plaintext| + a.nonceLen + a.tagLen(|plaintext|) > maxOut - RT_HEADER_LENGTH {
        return None, used;
      }
      var sealed := a.seal(c, plaintext);
      if sealed.None? {
        return None, used;
      }
      used := true;
      IncrementCounts(s[2..]);
      Pow256Values();
      hide Pow256;
      var updated := SequenceUpdate(s, 2);
      if !updated || |sealed.value| >= U16 {
        return None, used;
      }
      return Some(EncRecord(c, sealed.value)), used;
    }

    /** `dtls_seal_record`. */
    method SealRecord(use: UseEpoch, recordType: byte, plaintext: seq<byte>, maxOut: nat)
      returns (record: Option<seq<byte>>, ghost used: bool)
      requires Valid() && (use.Previous? ==> epoch >= 1)
      modifies writeSequence, lastWriteSequence
      ensures Valid()
      ensures Sealed(View(), record, used) == DtlsWriter.SealRecord(old(View()), use, recordType, plaintext, maxOut)
    {
      hide DecBE, EncBE, EncRecord;
      Wraps(NumberFor(View(), use));
      BigEndianBack(writeSequence[2..]);
      BigEndianBack(lastWriteSequence[2..]);
      // The parameters are those of the epoch used, but for the version.
      if use.Previous? {
        var c := Context(recordType, aead.version, EncBE(epoch - 1, 2) + lastWriteSequence[2..]);
        record, used := SealWith(lastAead, lastWriteSequence, c, plaintext, maxOut);
      } else {
        var c := Context(recordType, aead.version, EncBE(epoch, 2) + writeSequence[2..]);
        record, used := SealWith(aead, writeSequence, c, plaintext, maxOut);
      }
    }

    /** `dtls1_set_write_state`. */
    method SetWriteState(keys: Aead)
      requires Valid() && keys.version < U16
      modifies this, writeSequence, lastWriteSequence
      ensures Valid() && View() == NextWriteEpoch(old(View()), keys)
    {
      epoch := (epoch + 1) % EPOCHS;
      for i := 0 to 8
        invariant epoch == (old(epoch) + 1) % EPOCHS && aead == old(aead) && lastAead == old(lastAead)
        invariant lastWriteSequence[..i] == writeSequence[..i] && writeSequence[..] == old(writeSequence[..])
      {
        lastWriteSequence[i] := writeSequence[i];
      }
      for i := 0 to 8
        invariant epoch == (old(epoch) + 1) % EPOCHS && aead == old(aead) && lastAead == old(lastAead)
        invariant lastWriteSequence[..] == old(writeSequence[..]) && AllZero(writeSequence[..i])
      {
        writeSequence[i] := 0;
      }
      ZeroIsZero(writeSequence[2..]);
      assert lastWriteSequence[2..] == old(writeSequence[2..]);
      lastAead := aead;
      aead := keys;
    }
  }
}
