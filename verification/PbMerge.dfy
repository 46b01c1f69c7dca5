/** Messages can be concatenated, and fields nobody knows change nothing. */
module PbMerge {
  import opened ByteString
  import opened PbWire
  import opened PbSchema
  import opened PbIter
  import opened PbEncode
  import opened PbDecode

  // ------------------------- readers look at nothing behind what they consume

  lemma TakeLocal(s: seq<byte>, n: nat, t: seq<byte>)
    requires Take(s, n).Ok?
    ensures Take(s + t, n) == Ok(Read(Take(s, n).value.value, Take(s, n).value.rest + t))
  {
    assert (s + t)[..n] == s[..n] && (s + t)[n..] == s[n..] + t;
  }

  lemma TakeStringLocal(s: seq<byte>, t: seq<byte>)
    requires TakeString(s).Ok?
    ensures TakeString(s + t) == Ok(Read(TakeString(s).value.value, TakeString(s).value.rest + t))
  {
    hide DecVarintFrom;
    VarintLocal(s, t, 32, 0, 0);
    TakeLocal(DecVarint32(s).rest, DecVarint32(s).value, t);
  }

  lemma {:induction false} SkipVarintLocal(s: seq<byte>, t: seq<byte>)
    requires SkipVarint(s).Ok?
    ensures SkipVarint(s + t) == Ok(SkipVarint(s).value + t)
  {
    assert (s + t)[1..] == s[1..] + t;
    if s[0] >= 128 {
      SkipVarintLocal(s[1..], t);
    }
  }

  lemma SkipFieldLocal(wireType: nat, s: seq<byte>, t: seq<byte>)
    requires SkipField(wireType, s).Ok?
    ensures SkipField(wireType, s + t) == Ok(SkipField(wireType, s).value + t)
  {
    hide SkipVarint, TakeString;
    if wireType == WT_VARINT {
      SkipVarintLocal(s, t);
    } else if wireType == WT_STRING {
      TakeStringLocal(s, t);
    } else {
      var n := if wireType == WT_64BIT then 8 else 4;
      assert (s + t)[n..] == s[n..] + t;
    }
  }

  lemma BlobLocal(f: Field, s: seq<byte>, t: seq<byte>)
    requires f.ltype.Bytes? || f.ltype.String? || f.ltype.FixedLengthBytes?
    requires DecScalar(f, s).Ok?
    ensures DecScalar(f, s + t) == Ok(Read(DecScalar(f, s).value.value, DecScalar(f, s).value.rest + t))
  {
    hide DecVarintFrom, Pow2;
    VarintLocal(s, t, 32, 0, 0);
    var size, rest := DecVarint32(s).value, DecVarint32(s).rest;
    hide DecVarint32;
    if Take(rest, size).Ok? {
      TakeLocal(rest, size, t);
    }
    hide Take;
  }

  lemma ScalarLocal(f: Field, s: seq<byte>, t: seq<byte>)
    requires DecScalar(f, s).Ok?
    ensures DecScalar(f, s + t) == Ok(Read(DecScalar(f, s).value.value, DecScalar(f, s).value.rest + t))
  {
    hide DecVarintFrom, Pow2;
    if f.ltype.Varint? || f.ltype.UVarint? || f.ltype.SVarint? {
      VarintLocal(s, t, 64, 0, 0);
    } else if f.ltype.Fixed32? || f.ltype.Fixed64? {
      hide DecFixed;
      TakeLocal(s, if f.ltype.Fixed32? then 4 else 8, t);
    } else {
      BlobLocal(f, s, t);
    }
  }

  lemma ValueLocal(f: Field, prior: Value, s: seq<byte>, t: seq<byte>)
    requires DecValue(f, prior, s).Ok?
    ensures DecValue(f, prior, s + t)
         == Ok(Read(DecValue(f, prior, s).value.value, DecValue(f, prior, s).value.rest + t))
  {
    hide TakeString, DecMessage, DecScalar;
    if f.ltype.Submessage? {
      TakeStringLocal(s, t);
    } else {
      ScalarLocal(f, s, t);
    }
  }

  lemma FieldLocal(fields: seq<Field>, slots: seq<Slot>, i: nat, wireType: nat, s: seq<byte>, t: seq<byte>)
    requires i < |fields| == |slots|
    requires DecField(fields, slots, i, wireType, s).Ok?
    ensures DecField(fields, slots, i, wireType, s + t)
         == Ok(Read(DecField(fields, slots, i, wireType, s).value.value,
                    DecField(fields, slots, i, wireType, s).value.rest + t))
  {
    hide TakeString, DecValue, DecPacked, DefaultOf, Head;
    var f, slot := fields[i], slots[i];
    if f.htype.Repeated? && wireType == WT_STRING && f.ltype.Packable() {
      TakeStringLocal(s, t);
    } else {
      var prior := if f.htype.Repeated? || f.htype.OneOf? then DefaultOf(f) else slot.v;
      ValueLocal(f, prior, s, t);
    }
  }

  /** A turn that consumes a field does the same whatever follows the field. */
  lemma TurnLocal(fields: seq<Field>, st: State, s: seq<byte>, t: seq<byte>)
    requires StateFor(fields, st)
    requires DecTurn(fields, st, s).More?
    ensures DecTurn(fields, st, s + t) == More(DecTurn(fields, st, s).st, DecTurn(fields, st, s).rest + t)
  {
    hide DecVarintFrom, DecField, SkipField, Find, NoteUnknown;
    VarintLocal(s, t, 32, 0, 0);
    var key, rest := DecVarint32(s).value, DecVarint32(s).rest;
    hide DecVarint32;
    if SkipField(key % 8, rest).Ok? {
      SkipFieldLocal(key % 8, rest, t);
    }
    if fields != [] && Find(fields, st.pos, key / 8).Ok? {
      FieldLocal(fields, st.slots, Find(fields, st.pos, key / 8).value, key % 8, rest, t);
    }
  }

  // ------------------------------------------------------------- whole fields

  /** The bytes are a sequence of complete fields with nonzero keys. */
  predicate Whole(fields: seq<Field>, st: State, s: seq<byte>)
    requires StateFor(fields, st)
    decreases |s|
  {
    s == [] || (DecTurn(fields, st, s).More? && Whole(fields, DecTurn(fields, st, s).st, DecTurn(fields, st, s).rest))
  }

  /** The state after decoding whole fields. */
  function After(fields: seq<Field>, st: State, s: seq<byte>): (st': State)
    requires StateFor(fields, st) && Whole(fields, st, s)
    ensures StateFor(fields, st')
    decreases |s|
  {
    if s == [] then st else After(fields, DecTurn(fields, st, s).st, DecTurn(fields, st, s).rest)
  }

  /** Decoding whole fields and then more is decoding the rest from where they led. */
  lemma {:induction false} LoopSplits(fields: seq<Field>, st: State, b1: seq<byte>, b2: seq<byte>)
    requires StateFor(fields, st) && Whole(fields, st, b1)
    ensures DecLoop(fields, st, b1 + b2) == DecLoop(fields, After(fields, st, b1), b2)
    decreases |b1|
  {
    hide DecTurn;
    if b1 == [] {
      assert b1 + b2 == b2;
    } else {
      TurnLocal(fields, st, b1, b2);
      LoopSplits(fields, DecTurn(fields, st, b1).st, DecTurn(fields, st, b1).rest, b2);
    }
  }

  // ------------------------- states that differ in nothing the message shows

  /** `st` has seen `extra` besides what `st'` has seen; the iterators may be anywhere. */
  ghost predicate Alike(fields: seq<Field>, st: State, st': State, extra: set<nat>) {
    && StateFor(fields, st)
    && StateFor(fields, st')
    && st.slots == st'.slots
    && st.seen == st'.seen + extra
  }

  ghost predicate TurnsAlike(fields: seq<Field>, t: Turn, t': Turn, extra: set<nat>) {
    if t.More? then t'.More? && t.rest == t'.rest && Alike(fields, t.st, t'.st, extra) else t == t'
  }

  ghost predicate EndsAlike(fields: seq<Field>, r: Result<Read<State>>, r': Result<Read<State>>, extra: set<nat>) {
    if r.Ok? then r'.Ok? && r.value.rest == r'.value.rest && Alike(fields, r.value.value, r'.value.value, extra)
    else r'.Error?
  }

  lemma TurnAlike(fields: seq<Field>, st: State, st': State, extra: set<nat>, s: seq<byte>)
    requires UniqueTags(fields) && Alike(fields, st, st', extra)
    ensures TurnsAlike(fields, DecTurn(fields, st, s), DecTurn(fields, st', s), extra)
  {
    hide DecVarintFrom, DecField, SkipField, Find, NoteUnknown;
    match DecVarint32(s) {
      case VFail(_) =>
      case VOk(key, _) =>
        if fields != [] {
          FindIsPositionFree(fields, st.pos, st'.pos, key / 8);
        }
    }
  }

  /** Neither the iterator's place nor the fields seen before change what is decoded. */
  lemma {:induction false} LoopAlike(fields: seq<Field>, st: State, st': State, extra: set<nat>, s: seq<byte>)
    requires UniqueTags(fields) && Alike(fields, st, st', extra)
    ensures EndsAlike(fields, DecLoop(fields, st, s), DecLoop(fields, st', s), extra)
    decreases |s|
  {
    TurnAlike(fields, st, st', extra, s);
    hide DecTurn;
    var t, t' := DecTurn(fields, st, s), DecTurn(fields, st', s);
    if t.More? {
      LoopAlike(fields, t.st, t'.st, extra, t.rest);
    }
  }

  // -------------------------------------------------------------- the theorems

  /** Decoding b1 followed by b2 decodes b2 into the message b1 left; the check for
      required fields comes once, at the end, and counts those of both parts. */
  lemma Merge(fields: seq<Field>, slots: seq<Slot>, b1: seq<byte>, b2: seq<byte>)
    requires UniqueTags(fields) && |slots| == |fields|
    requires Whole(fields, Start(fields, slots), b1)
    ensures DecRead(fields, slots, b1 + b2) == (
              var first := After(fields, Start(fields, slots), b1);
              var second := DecLoop(fields, Start(fields, first.slots), b2);
              if second.Ok? && AllRequiredSeen(fields, first.seen + second.value.value.seen)
              then Ok(Read(second.value.value.slots, second.value.rest)) else Error)
  {
    var first := After(fields, Start(fields, slots), b1);
    LoopSplits(fields, Start(fields, slots), b1, b2);
    LoopAlike(fields, first, Start(fields, first.slots), first.seen, b2);
    hide DecLoop;
    var second := DecLoop(fields, Start(fields, first.slots), b2);
    if second.Ok? {
      assert second.value.value.seen + first.seen == first.seen + second.value.value.seen;
    }
  }

  /** Hence two parts that are complete messages can simply be concatenated. */
  lemma MergeComplete(fields: seq<Field>, slots: seq<Slot>, b1: seq<byte>, b2: seq<byte>)
    requires UniqueTags(fields) && |slots| == |fields|
    requires Whole(fields, Start(fields, slots), b1)
    requires DecRead(fields, slots, b1).Ok?
    requires DecRead(fields, DecRead(fields, slots, b1).value.value, b2).Ok?
    ensures DecRead(fields, slots, b1 + b2) == DecRead(fields, DecRead(fields, slots, b1).value.value, b2)
  {
    Merge(fields, slots, b1, b2);
    LoopSplits(fields, Start(fields, slots), b1, []);
    assert b1 + [] == b1;
    hide DecLoop;
    assert DecLoop(fields, After(fields, Start(fields, slots), b1), [])
        == Ok(Read(After(fields, Start(fields, slots), b1), [])) by {
      LoopOnNothing(fields, After(fields, Start(fields, slots), b1));
    }
  }

  lemma LoopOnNothing(fields: seq<Field>, st: State)
    requires StateFor(fields, st)
    ensures DecLoop(fields, st, []) == Ok(Read(st, []))
  {
  }

  /** One complete field whose nonzero tag the message type does not have. */
  ghost predicate UnknownField(fields: seq<Field>, u: seq<byte>) {
    && DecVarint32(u).VOk?
    && DecVarint32(u).value >= 8
    && (forall i :: 0 <= i < |fields| ==> !Matches(fields[i], DecVarint32(u).value / 8))
    && SkipField(DecVarint32(u).value % 8, DecVarint32(u).rest) == Ok([])
  }

  lemma UnknownTurn(fields: seq<Field>, st: State, u: seq<byte>)
    requires StateFor(fields, st) && UnknownField(fields, u)
    ensures DecTurn(fields, st, u).More? && DecTurn(fields, st, u).rest == []
    ensures DecTurn(fields, st, u).st.slots == st.slots && DecTurn(fields, st, u).st.seen == st.seen
  {
    hide DecVarintFrom, DecField, SkipField, Find, NoteUnknown;
    var tag := DecVarint32(u).value / 8;
    if fields != [] {
      FindSucceedsIff(fields, st.pos, tag);
    }
  }

  /** A field of unknown tag between whole fields changes nothing. */
  lemma UnknownFieldIsTransparent(fields: seq<Field>, slots: seq<Slot>, b1: seq<byte>, u: seq<byte>, b2: seq<byte>)
    requires UniqueTags(fields) && |slots| == |fields|
    requires Whole(fields, Start(fields, slots), b1)
    requires UnknownField(fields, u)
    ensures DecRead(fields, slots, b1 + u + b2) == DecRead(fields, slots, b1 + b2)
  {
    hide DecLoop, DecTurn, DecVarint32, SkipField, Whole, After, UniqueTags;
    var st := After(fields, Start(fields, slots), b1);
    LoopSplits(fields, Start(fields, slots), b1, b2);
    LoopSplits(fields, Start(fields, slots), b1, u + b2);
    assert b1 + u + b2 == b1 + (u + b2);
    UnknownTurn(fields, st, u);
    TurnLocal(fields, st, u, b2);
    assert [] + b2 == b2;
    var st' := DecTurn(fields, st, u).st;
    LoopOnMore(fields, st, u + b2);
    LoopAlike(fields, st, st', {}, b2);
  }

  lemma LoopOnMore(fields: seq<Field>, st: State, s: seq<byte>)
    requires StateFor(fields, st) && DecTurn(fields, st, s).More?
    ensures DecLoop(fields, st, s) == DecLoop(fields, DecTurn(fields, st, s).st, DecTurn(fields, st, s).rest)
  {
    hide DecTurn;
  }
}
