/** Where a message ends: behind whole fields, at a key of zero, and, without an error, at a
    key that cannot be read when nothing is left behind it. */
module PbEnd {
  import opened ByteString
  import opened PbWire
  import opened PbSchema
  import opened PbIter
  import opened PbDecode
  import opened PbMerge

  /** Up to five bytes that all say that another one follows: a key that is cut off, or one
      that is too long, with nothing behind it. */
  predicate CutOff(s: seq<byte>) {
    |s| <= 5 && forall k :: 0 <= k < |s| ==> s[k] >= 128
  }

  /** The groups of a key of zero, from group `n` on. Of the fifth group only four bits count. */
  predicate ZeroGroups(s: seq<byte>, n: nat)
    decreases |s|
  {
    && n < 5 && s != []
    && (if s[0] < 128 then s[0] == 0 || (n == 4 && s[0] % 16 == 0)
        else s[0] == 128 && ZeroGroups(s[1..], n + 1))
  }

  lemma {:induction false} CutOffFrom(s: seq<byte>, n: nat, acc: nat)
    requires n <= 5
    ensures DecVarintFrom(s, 32, 7 * n, acc) == VFail([])
       <==> |s| + n <= 5 && forall k :: 0 <= k < |s| ==> s[k] >= 128
    decreases |s|
  {
    hide Insert;
    if s != [] && n < 5 {
      CutOffFrom(s[1..], n + 1, Insert(acc, s[0], 7 * n, 32));
      assert s == [s[0]] + s[1..];
    }
  }

  lemma GroupPowers()
    ensures Pow2(0) == 1 && Pow2(7) == 128 && Pow2(14) == 0x4000 && Pow2(21) == 0x20_0000 && Pow2(28) == 0x1000_0000
    ensures Pow2(32) == 0x1_0000_0000
  {
  }

  /** The first four groups fit the word. */
  lemma EarlyGroup(acc: nat, b: byte, n: nat)
    requires n < 4 && acc < Pow2(7 * n)
    ensures Insert(acc, b, 7 * n, 32) == acc + b % 128 * Pow2(7 * n) < Pow2(7 * (n + 1))
  {
    GroupPowers();
    hide Pow2;
  }

  /** Of the fifth only four bits do. */
  lemma FifthGroup(acc: nat, b: byte)
    requires acc < Pow2(28)
    ensures Insert(acc, b, 28, 32) == acc + b % 16 * Pow2(28)
  {
    GroupPowers();
    hide Pow2;
    LastGroup(acc, b % 128);
  }

  /** A group leaves zero exactly if there was zero and its bits within the word are zero. */
  lemma GroupIsZero(acc: nat, b: byte, n: nat)
    requires n < 5 && acc < Pow2(7 * n)
    ensures n < 4 ==> Insert(acc, b, 7 * n, 32) < Pow2(7 * (n + 1))
    ensures Insert(acc, b, 7 * n, 32) == 0 <==> acc == 0 && (b % 128 == 0 || (n == 4 && b % 16 == 0))
  {
    hide Insert, Pow2;
    if n < 4 {
      EarlyGroup(acc, b, n);
    } else {
      FifthGroup(acc, b);
    }
  }

  lemma LastGroup(acc: nat, b: nat)
    requires acc < 0x1000_0000 && b < 128
    ensures (acc + b * 0x1000_0000) % 0x1_0000_0000 == acc + b % 16 * 0x1000_0000
  {
    assert b == b / 16 * 16 + b % 16;
    assert acc + b * 0x1000_0000 == (acc + b % 16 * 0x1000_0000) + b / 16 * 0x1_0000_0000;
  }

  lemma {:induction false} ZeroFrom(s: seq<byte>, n: nat, acc: nat)
    requires n <= 5 && (n < 5 ==> acc < Pow2(7 * n))
    ensures (DecVarintFrom(s, 32, 7 * n, acc).VOk? && DecVarintFrom(s, 32, 7 * n, acc).value == 0)
       <==> acc == 0 && ZeroGroups(s, n)
    decreases |s|
  {
    hide Insert, Pow2;
    if s != [] && n < 5 {
      GroupIsZero(acc, s[0], n);
      if s[0] >= 128 {
        ZeroFrom(s[1..], n + 1, Insert(acc, s[0], 7 * n, 32));
      }
    }
  }

  /** A key cannot be read, with nothing left, exactly when it is cut off. */
  lemma CutOffIff(s: seq<byte>)
    ensures DecVarint32(s) == VFail([]) <==> CutOff(s)
  {
    CutOffFrom(s, 0, 0);
  }

  lemma ZeroKeyIff(s: seq<byte>)
    ensures DecVarint32(s).VOk? && DecVarint32(s).value == 0 <==> ZeroGroups(s, 0)
  {
    GroupPowers();
    hide Pow2;
    ZeroFrom(s, 0, 0);
  }

  /** Behind whole fields `b1`, the decoder takes the message to end in exactly three cases:
      nothing follows, a key that is cut off follows, and then nothing is left either; or a
      key of zero follows, and then what is behind it is left. The first is how messages end,
      the second loses what was cut off without an error. */
  lemma EndsBehindIff(fields: seq<Field>, st: State, b1: seq<byte>, t: seq<byte>)
    requires StateFor(fields, st) && Whole(fields, st, b1)
    ensures var turn := DecTurn(fields, After(fields, st, b1), t);
            && (turn.End? <==> CutOff(t) || ZeroGroups(t, 0))
            && (turn == End([]) && !ZeroGroups(t, 0) <==> CutOff(t))
            && (turn.End? ==> DecLoop(fields, st, b1 + t) == Ok(Read(After(fields, st, b1), turn.rest)))
  {
    hide DecVarint32, DecField, SkipField, ZeroGroups;
    CutOffIff(t);
    ZeroKeyIff(t);
    assert !(CutOff(t) && ZeroGroups(t, 0));
    LoopSplits(fields, st, b1, t);
  }

  /** Hence a message that is cut off in a key decodes like the whole fields in front of it. */
  lemma TruncationIsSilent(fields: seq<Field>, b1: seq<byte>, t: seq<byte>)
    requires StateFor(fields, Start(fields, Defaults(fields))) && Whole(fields, Start(fields, Defaults(fields)), b1)
    requires CutOff(t)
    ensures Decode(fields, b1 + t) == Decode(fields, b1)
  {
    hide ZeroGroups, DecTurn, DecLoop, Whole, After;
    var st := Start(fields, Defaults(fields));
    EndsBehindIff(fields, st, b1, t);
    EndsBehindIff(fields, st, b1, []);
    assert b1 + [] == b1;
  }

  /** One byte of a key, five bytes of one that is too long, and six. */
  lemma TruncatedKeys()
    ensures Decode([], [0x80]) == Ok(Read([], []))
    ensures Decode([], [0x80, 0x80, 0x80, 0x80, 0x80]) == Ok(Read([], []))
    ensures Decode([], [0x80, 0x80, 0x80, 0x80, 0x80, 0x80]) == Error
  {
    hide DecVarint32, Whole, After;
    var st := Start([], []);
    assert Defaults([]) == [];
    AtStart(st, [0x80]);
    AtStart(st, [0x80, 0x80, 0x80, 0x80, 0x80]);
    var six: seq<byte> := [0x80, 0x80, 0x80, 0x80, 0x80, 0x80];
    CutOffIff(six);
    SixIsNoKey(six);
  }

  lemma AtStart(st: State, t: seq<byte>)
    requires StateFor([], st) && CutOff(t)
    ensures DecLoop([], st, t) == Ok(Read(st, []))
  {
    hide DecTurn, ZeroGroups;
    EndsBehindIff([], st, [], t);
    assert [] + t == t;
  }

  lemma SixIsNoKey(s: seq<byte>)
    requires |s| == 6 && forall k :: 0 <= k < |s| ==> s[k] >= 128
    ensures DecVarint32(s).VFail? && DecVarint32(s).rest != []
  {
    hide Insert;
    NoKeyFrom(s, 0, 0);
  }

  lemma {:induction false} NoKeyFrom(s: seq<byte>, n: nat, acc: nat)
    requires n <= 5 && |s| == 6 - n && forall k :: 0 <= k < |s| ==> s[k] >= 128
    ensures DecVarintFrom(s, 32, 7 * n, acc).VFail? && DecVarintFrom(s, 32, 7 * n, acc).rest != []
    decreases |s|
  {
    hide Insert;
    if n < 5 {
      NoKeyFrom(s[1..], n + 1, Insert(acc, s[0], 7 * n, 32));
    }
  }

  /** A key with tag zero that is not zero itself: an error for a message type without any fields,
      and for any other one a field of an unknown tag. */
  lemma TagZero(fields: seq<Field>, st: State, key: byte, t: seq<byte>)
    requires StateFor(fields, st) && UniqueTags(fields) && 1 <= key <= 7
    ensures fields == [] ==> DecLoop(fields, st, [key] + t) == Error
    ensures fields != [] && SkipField(key, t).Error? ==> DecLoop(fields, st, [key] + t) == Error
    ensures fields != [] && SkipField(key, t).Ok? ==>
              var turn := DecTurn(fields, st, [key] + t);
              && turn.More? && turn.st.slots == st.slots && turn.st.seen == st.seen
              && turn.rest == SkipField(key, t).value
  {
    hide SkipField, DecField, Find, NoteUnknown, DecVarint32;
    Varint32RoundTrip(key, t);
    assert EncVarint(key) == [key];
    if fields != [] {
      FindSucceedsIff(fields, st.pos, 0);
    }
  }
}
