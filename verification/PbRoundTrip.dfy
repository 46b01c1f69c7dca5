/** Decoding what was encoded gives the message back, for every well-formed message
    type and every message of it, nested to any depth. */
module PbRoundTrip {
  import opened ByteString
  import opened PbWire
  import opened PbSchema
  import opened PbIter
  import opened PbEncode
  import opened PbDecode

  // ------------------------------------------------- well-formed message types

  ghost predicate WellFormedField(f: Field)
    decreases f, 0
  {
    && 1 <= f.tag < U32 / 8
    && (f.ltype.Varint? || f.ltype.UVarint? || f.ltype.SVarint? ==> IntSize(f.dataSize))
    && (f.ltype.FixedLengthBytes? ==> f.dataSize < U32)
    && (f.ltype.Submessage? ==> f.ptr.SubFields? && WellFormed(f.ptr.fields) && !f.Singular())
    && (f.ltype.Extension? ==> f.htype.Optional?)
  }

  /** What the generator guarantees of a descriptor array. */
  ghost predicate WellFormed(fields: seq<Field>)
    decreases fields, 1
  {
    && UniqueTags(fields)
    && CountDefined(fields)
    && (forall i :: 0 <= i < |fields| ==> WellFormedField(fields[i]))
  }

  // ------------------------------------------------------ messages that fit

  /** The item is one its C type can hold, and every length in it fits 32 bits. */
  ghost predicate Fits(f: Field, v: Value)
    decreases f, 0
  {
    match f.ltype
    case Varint => v.Int? && IntSize(f.dataSize) && FitsSigned(v.x, f.dataSize)
    case UVarint => v.Int? && IntSize(f.dataSize) && FitsUnsigned(v.x, f.dataSize)
    case SVarint => v.Int? && IntSize(f.dataSize) && FitsSigned(v.x, f.dataSize)
    case Fixed32 => v.Int? && 0 <= v.x < U32
    case Fixed64 => v.Int? && 0 <= v.x < U64
    case Bytes => v.Blob? && |v.b| + BYTES_OFFSET <= f.dataSize && |v.b| < U32
    case String => v.Blob? && StrNLen(v.b, f.dataSize) < f.dataSize && StrNLen(v.b, f.dataSize) + 1 < U32
    case FixedLengthBytes => v.Blob? && |v.b| == f.dataSize && 0 < |v.b| < U32
    case Submessage =>
      && v.Msg?
      && f.ptr.SubFields?
      && FitsMessage(f.ptr.fields, v.slots)
      && (EncMessage(f.ptr.fields, v.slots).Ok? ==> |EncMessage(f.ptr.fields, v.slots).value| < U32)
    case Extension => false
  }

  /** The member of the union at `h` that has the tag. */
  function MemberOf(fields: seq<Field>, h: nat, tag: nat): (r: Result<nat>)
    requires h < |fields|
    ensures r.Ok? ==> r.value < |fields| && Matches(fields[r.value], tag) && Head(fields, r.value) == h
  {
    var found :- Find(fields, 0, tag);
    if Head(fields, found) == h then Ok(found) else Error
  }

  ghost predicate FitsSlot(fields: seq<Field>, slots: seq<Slot>, i: nat)
    requires i < |fields| == |slots|
    decreases fields, 0
  {
    var f, slot := fields[i], slots[i];
    if f.ltype.Extension? then slot.NoExtensions?
    else match f.htype
      case Required => slot.Plain? && Fits(f, slot.v)
      case Optional =>
        if f.HasFlag() then slot.Opt? && (slot.has ==> Fits(f, slot.v)) else slot.Plain? && Fits(f, slot.v)
      case Repeated =>
        && slot.Rep?
        && |slot.items| <= f.arraySize
        && (forall k :: 0 <= k < |slot.items| ==> Fits(f, slot.items[k]))
        && (f.ltype.Packable() && EncPackedItems(f, slot.items).Ok? ==> |EncPackedItems(f, slot.items).value| < U32)
      case OneOf =>
        if Continues(fields, i) then slot.InUnion?
        else
          && slot.Union?
          && (slot.sel.Member? && MemberOf(fields, i, slot.sel.tag).Ok? ==>
                Fits(fields[MemberOf(fields, i, slot.sel.tag).value], slot.sel.v))
  }

  ghost predicate FitsMessage(fields: seq<Field>, slots: seq<Slot>)
    decreases fields, 1
  {
    |slots| == |fields| && forall i :: 0 <= i < |fields| ==> FitsSlot(fields, slots, i)
  }

  // -------------------------------------------------------- what travels

  /** The item without what its encoding does not carry. */
  function CanonValue(f: Field, v: Value): Value
    decreases f, 0
  {
    if f.ltype.Submessage? && f.ptr.SubFields? && v.Msg? then Msg(Canon(f.ptr.fields, v.slots))
    else if f.ltype.String? && v.Blob? then Blob(v.b[..StrNLen(v.b, f.dataSize)])
    else v
  }

  function CanonItems(f: Field, items: seq<Value>): (r: seq<Value>)
    ensures |r| == |items|
    decreases f, 1
  {
    seq(|items|, k requires 0 <= k < |items| => CanonValue(f, items[k]))
  }

  function CanonSlot(fields: seq<Field>, slots: seq<Slot>, i: nat): Slot
    requires i < |fields| == |slots|
    decreases fields, 0
  {
    var f, slot := fields[i], slots[i];
    match slot
    case Plain(v) => if f.Singular() && IsZero(f, v) then Plain(DefaultOf(f)) else Plain(CanonValue(f, v))
    case Opt(has, v) => Opt(has, if has then CanonValue(f, v) else DefaultOf(f))
    case Rep(items) => Rep(CanonItems(f, items))
    case Union(sel) =>
      if sel.NoMember? then slot
      else
        (match MemberOf(fields, i, sel.tag)
         case Error => Union(NoMember)
         case Ok(m) => Union(Member(sel.tag, CanonValue(fields[m], sel.v))))
    case InUnion => slot
    case NoExtensions => slot
  }

  /** The message with everything that is not sent put back to its default: optional
      fields whose has_ flag is off, zero fields without has_ flag, the bytes of a string
      from its terminator on, and a which_ tag that names no member. */
  function Canon(fields: seq<Field>, slots: seq<Slot>): (r: seq<Slot>)
    ensures |r| == |slots|
    decreases fields, 1
  {
    seq(|slots|, i requires 0 <= i < |slots| =>
      if i < |fields| == |slots| then CanonSlot(fields, slots, i) else slots[i])
  }

  // ----------------------------------------------------------- what it is read into

  /** An item read into what is there: a submessage keeps what the new one does not mention,
      anything else is replaced. */
  function MergedValue(f: Field, prior: Value, v: Value): Value
    decreases f, 0
  {
    if f.ltype.Submessage? && f.ptr.SubFields? && v.Msg? && prior.Msg?
    then Msg(Merged(f.ptr.fields, prior.slots, v.slots)) else CanonValue(f, v)
  }

  function MergedSlot(fields: seq<Field>, prior: seq<Slot>, slots: seq<Slot>, i: nat): Slot
    requires i < |fields| == |slots| == |prior|
    decreases fields, 0
  {
    var f, held, slot := fields[i], prior[i], slots[i];
    match slot
    case Plain(v) =>
      if !held.Plain? || (f.Singular() && IsZero(f, v)) then held else Plain(MergedValue(f, held.v, v))
    case Opt(has, v) => if held.Opt? && has then Opt(true, MergedValue(f, held.v, v)) else held
    case Rep(items) => if held.Rep? then Rep(held.items + CanonItems(f, items)) else held
    case Union(sel) =>
      if sel.NoMember? then held
      else
        (match MemberOf(fields, i, sel.tag)
         case Error => held
         case Ok(m) => Union(Member(sel.tag, CanonValue(fields[m], sel.v))))
    case InUnion => held
    case NoExtensions => held
  }

  /** A message read into another one: what is sent replaces what is there, submessages are
      merged in turn, arrays grow, the member of a union is replaced with all it held. */
  function Merged(fields: seq<Field>, prior: seq<Slot>, slots: seq<Slot>): (r: seq<Slot>)
    ensures |r| == |prior|
    decreases fields, 1
  {
    seq(|prior|, i requires 0 <= i < |prior| =>
      if i < |fields| == |slots| == |prior| then MergedSlot(fields, prior, slots, i) else prior[i])
  }

  ghost predicate JoinsValue(f: Field, prior: Value, v: Value)
    decreases f, 0
  {
    f.ltype.Submessage? ==>
      v.Msg? && prior.Msg? && f.ptr.SubFields? && Joins(f.ptr.fields, prior.slots, v.slots)
  }

  ghost predicate JoinsSlot(fields: seq<Field>, prior: seq<Slot>, slots: seq<Slot>, i: nat)
    requires i < |fields| == |slots| == |prior|
    decreases fields, 0
  {
    var f, held, slot := fields[i], prior[i], slots[i];
    if f.ltype.Extension? then true
    else match f.htype
      case Required => held.Plain? && (slot.Plain? ==> JoinsValue(f, held.v, slot.v))
      case Optional =>
        if f.HasFlag() then held.Opt? && (slot.Opt? && slot.has ==> JoinsValue(f, held.v, slot.v)) else held.Plain?
      case Repeated => held.Rep? && (slot.Rep? ==> |held.items| + |slot.items| <= f.arraySize)
      case OneOf => Continues(fields, i) || held.Union?
  }

  /** `prior` is what a struct of the type can hold, and its arrays have room for the items to come. */
  ghost predicate Joins(fields: seq<Field>, prior: seq<Slot>, slots: seq<Slot>)
    decreases fields, 1
  {
    |slots| == |fields| == |prior| && forall i :: 0 <= i < |fields| ==> JoinsSlot(fields, prior, slots, i)
  }

  // ------------------------------------------------------------ single items

  lemma {:induction false} StrNLenPrefix(b: seq<byte>, max: nat)
    ensures StrNLen(b[..StrNLen(b, max)], max) == StrNLen(b, max)
  {
    var n := StrNLen(b, max);
    if n > 0 {
      StrNLenPrefix(b[1..], max - 1);
      assert b[..n][1..] == b[1..][..n - 1];
    }
  }

  lemma Powers()
    ensures Pow2(7) == 0x80 && Pow2(8) == 0x100 && Pow2(15) == 0x8000 && Pow2(16) == 0x1_0000
    ensures Pow2(31) == U32 / 2 && Pow2(32) == U32 && Pow2(63) == U64 / 2 && Pow2(64) == U64
  {
    Pow2Values();
    assert Pow2(32) == 2 * Pow2(31) && Pow2(64) == 2 * Pow2(63);
    Pow2Adds(8, 7);
    Pow2Adds(8, 8);
  }

  lemma SignedRoundTrip(x: int, bytes: nat)
    requires IntSize(bytes) && FitsSigned(x, bytes)
    ensures -(U64 / 2) <= x < U64 / 2
    ensures AsSigned(ToU64(x), if bytes == 8 then 64 else 32) == x
  {
    Powers();
    if bytes == 8 {
      WrapSigned(x, 0);
    } else {
      assert -(U32 / 2) <= x < U32 / 2;
      WrapSigned(x, U32);
    }
  }

  /** The low 32 (or all 64) bits of a two's complement number, sign-extended, are the number. */
  lemma WrapSigned(x: int, m: nat)
    requires (m == 0 && -(U64 / 2) <= x < U64 / 2) || (m == U32 && -(U32 / 2) <= x < U32 / 2)
    ensures AsSigned(ToU64(x), if m == 0 then 64 else 32) == x
  {
    Powers();
    hide Pow2;
    if m == U32 && x < 0 {
      assert x + U64 == (x + U32) + (U32 - 1) * U32;
      LowBits(x + U32);
    }
  }

  lemma LowBits(x: nat)
    requires x < U32
    ensures (x + (U32 - 1) * U32) % U32 == x
  {
  }

  lemma UnsignedInRange(x: int, bytes: nat)
    requires IntSize(bytes) && FitsUnsigned(x, bytes)
    ensures 0 <= x < U64
  {
    Powers();
  }

  lemma IntTrip(f: Field, v: Value, t: seq<byte>)
    requires Fits(f, v) && (f.ltype.Varint? || f.ltype.UVarint? || f.ltype.SVarint?)
    ensures EncScalar(f, v).Ok?
    ensures DecScalar(f, EncScalar(f, v).value + t) == Ok(Read(v, t))
  {
    if f.ltype.UVarint? {
      UnsignedInRange(v.x, f.dataSize);
      Varint64RoundTrip(v.x, t);
    } else {
      SignedRoundTrip(v.x, f.dataSize);
      ZigZagRoundTrip(v.x);
      Varint64RoundTrip(ToU64(v.x), t);
      Varint64RoundTrip(ZigZag(v.x), t);
    }
  }

  lemma FixedTrip(f: Field, v: Value, t: seq<byte>)
    requires Fits(f, v) && (f.ltype.Fixed32? || f.ltype.Fixed64?)
    ensures EncScalar(f, v).Ok?
    ensures DecScalar(f, EncScalar(f, v).value + t) == Ok(Read(v, t))
  {
    Powers();
    var n := if f.ltype.Fixed32? then 4 else 8;
    FixedRoundTrip(v.x, n);
    TakePrefix(EncFixed(v.x, n), t);
  }

  lemma BlobTrip(f: Field, v: Value, t: seq<byte>)
    requires Fits(f, v) && (f.ltype.Bytes? || f.ltype.String? || f.ltype.FixedLengthBytes?)
    ensures EncScalar(f, v).Ok?
    ensures DecScalar(f, EncScalar(f, v).value + t) == Ok(Read(CanonValue(f, v), t))
  {
    hide DecVarintFrom, EncVarint;
    var b := if f.ltype.String? then v.b[..StrNLen(v.b, f.dataSize)] else v.b;
    StringTrip(b, t);
    assert EncScalar(f, v) == Ok(EncVarint(|b|) + b);
  }

  /** Every scalar, bytes, string or fixed-length bytes item survives. */
  lemma ScalarTrip(f: Field, v: Value, t: seq<byte>)
    requires Fits(f, v) && !f.ltype.Submessage?
    ensures EncScalar(f, v).Ok?
    ensures DecScalar(f, EncScalar(f, v).value + t) == Ok(Read(CanonValue(f, v), t))
  {
    if f.ltype.Varint? || f.ltype.UVarint? || f.ltype.SVarint? {
      IntTrip(f, v, t);
    } else if f.ltype.Fixed32? || f.ltype.Fixed64? {
      FixedTrip(f, v, t);
    } else {
      BlobTrip(f, v, t);
    }
  }

  lemma TakePrefix(b: seq<byte>, t: seq<byte>)
    ensures (b + t)[..|b|] == b && (b + t)[|b|..] == t
  {
  }

  lemma TakeBack(b: seq<byte>, t: seq<byte>)
    ensures Take(b + t, |b|) == Ok(Read(b, t))
  {
    TakePrefix(b, t);
  }

  /** A length-prefixed piece is read back, whatever follows it. */
  lemma {:induction false} StringTrip(b: seq<byte>, t: seq<byte>)
    requires |b| < U32
    ensures DecVarint32(EncVarint(|b|) + b + t) == VOk(|b|, b + t)
    ensures Take(b + t, |b|) == Ok(Read(b, t))
    ensures TakeString(EncVarint(|b|) + b + t) == Ok(Read(b, t))
  {
    hide DecVarint32, EncVarint, Take;
    TakeBack(b, t);
    var n := EncVarint(|b|);
    assert n + b + t == n + (b + t);
    Varint32RoundTrip(|b|, b + t);
  }

  /** A packed payload adds its items to those that are there, if there is room for all of them. */
  lemma {:induction false} PackedTrip(f: Field, prior: seq<Value>, items: seq<Value>)
    requires f.ltype.Packable()
    requires forall k :: 0 <= k < |items| ==> Fits(f, items[k])
    ensures EncPackedItems(f, items).Ok?
    ensures DecPacked(f, prior, EncPackedItems(f, items).value)
         == if items == [] || |prior| + |items| <= f.arraySize then Ok(prior + CanonItems(f, items)) else Error
    decreases |items|
  {
    hide DecVarintFrom, EncVarint, Pow2;
    if items == [] {
      assert prior + CanonItems(f, items) == prior;
    } else {
      hide Fits, EncScalar, DecScalar;
      var v, more := items[0], items[1..];
      PackedTrip(f, prior + [v], more);
      var rest := EncPackedItems(f, more).value;
      ScalarTrip(f, v, rest);
      assert CanonValue(f, v) == v;
      assert prior + [v] + CanonItems(f, more) == prior + CanonItems(f, items);
    }
  }

  // -------------------------------------------------------------- whole fields

  lemma At(fields: seq<Field>, slots: seq<Slot>, i: nat)
    requires WellFormed(fields) && FitsMessage(fields, slots) && i < |fields|
    ensures WellFormedField(fields[i]) && FitsSlot(fields, slots, i) && |slots| == |fields|
  {
  }

  /** A key written by the encoder is read back and leads to its descriptor: the loop goes on
      behind the content of that descriptor, or fails with it. */
  lemma {:induction false} LoopOnKey(fields: seq<Field>, st: State, i: nat, wireType: nat, s: seq<byte>)
    requires WellFormed(fields) && StateFor(fields, st)
    requires i < |fields| && !fields[i].ltype.Extension? && wireType < 8
    ensures DecLoop(fields, st, EncTag(wireType, fields[i].tag) + s)
         == var d := DecField(fields, st.slots, i, wireType, s);
            if d.Error? then Error
            else DecLoop(fields, st.(slots := d.value.value, seen := MarkSeen(fields, i, st.seen), pos := i), d.value.rest)
  {
    hide DecVarintFrom, EncVarint, DecField, Find, SkipField;
    var tag := fields[i].tag;
    assert WellFormedField(fields[i]);
    hide WellFormed;
    Varint32RoundTrip(tag * 8 + wireType, s);
    FindOwnTag(fields, st.pos, i);
    assert (tag * 8 + wireType) / 8 == tag && (tag * 8 + wireType) % 8 == wireType;
    assert EncTag(wireType, tag) + s != [];
  }

  /** An item with its tag: the loop goes on behind it with `slots'`, given that the
      content is read back as the content of its descriptor. */
  lemma LoopOnItem(fields: seq<Field>, st: State, i: nat, v: Value, t: seq<byte>, slots': seq<Slot>)
    requires WellFormed(fields) && StateFor(fields, st) && i < |fields| && !fields[i].ltype.Extension?
    requires EncValue(fields[i], v).Ok?
    requires DecField(fields, st.slots, i, WireType(fields[i].ltype), EncValue(fields[i], v).value + t)
          == Ok(Read(slots', t))
    ensures EncTagged(fields[i], v).Ok?
    ensures DecLoop(fields, st, EncTagged(fields[i], v).value + t)
         == DecLoop(fields, st.(slots := slots', seen := MarkSeen(fields, i, st.seen), pos := i), t)
  {
    hide WellFormed, DecLoop, DecField, EncTag, EncValue;
    var f, content := fields[i], EncValue(fields[i], v).value;
    var key := EncTag(WireType(f.ltype), f.tag);
    assert key + content + t == key + (content + t);
    LoopOnKey(fields, st, i, WireType(f.ltype), content + t);
  }

  /** Slot `j` has its final content once the descriptors below `i` have been sent. */
  predicate Arrived(fields: seq<Field>, slots: seq<Slot>, j: nat, i: nat)
    requires j < |fields| == |slots|
  {
    if slots[j].Union? && slots[j].sel.Member? then
      var m := MemberOf(fields, j, slots[j].sel.tag);
      m.Ok? ==> m.value < i
    else j < i
  }

  /** The content of the receiver, which held `prior`, after the descriptors below `i`. */
  function Partial(fields: seq<Field>, prior: seq<Slot>, slots: seq<Slot>, i: nat): (r: seq<Slot>)
    requires |fields| == |slots| == |prior|
    ensures |r| == |fields|
  {
    seq(|fields|, j requires 0 <= j < |fields| =>
      if Arrived(fields, slots, j, i) then MergedSlot(fields, prior, slots, j) else prior[j])
  }

  /** The receiver after the descriptors below `i`, at a place where the iterator may be anywhere. */
  ghost predicate Reached(fields: seq<Field>, prior: seq<Slot>, slots: seq<Slot>, i: nat, st: State)
    requires i <= |fields| == |slots| == |prior|
  {
    && StateFor(fields, st)
    && st.slots == Partial(fields, prior, slots, i)
    && (forall k :: 0 <= k < RequiredBefore(fields, i) ==> k in st.seen)
  }

  lemma {:induction false} RequiredMonotone(fields: seq<Field>, i: nat, j: nat)
    requires i <= j <= |fields|
    ensures RequiredBefore(fields, i) <= RequiredBefore(fields, j)
    decreases j - i
  {
    if i < j {
      RequiredMonotone(fields, i, j - 1);
    }
  }

  lemma MarkedAll(fields: seq<Field>, i: nat, seen: set<nat>)
    requires i < |fields| && CountDefined(fields)
    requires forall k :: 0 <= k < RequiredBefore(fields, i) ==> k in seen
    ensures forall k :: 0 <= k < RequiredBefore(fields, i + 1) ==> k in MarkSeen(fields, i, seen)
  {
    RequiredMonotone(fields, i + 1, |fields|);
  }

  lemma Lengths(fields: seq<Field>, prior: seq<Slot>, slots: seq<Slot>)
    requires Joins(fields, prior, slots)
    ensures |slots| == |fields| == |prior|
  {
  }

  /** A required, optional or singular field that is present. */
  lemma {:induction false} PresentTrip(fields: seq<Field>, prior: seq<Slot>, slots: seq<Slot>, i: nat, st: State,
                                       t: seq<byte>)
    returns (st': State)
    requires WellFormed(fields) && FitsMessage(fields, slots) && Joins(fields, prior, slots) && i < |fields|
    requires Reached(fields, prior, slots, i, st)
    requires !fields[i].ltype.Extension?
    requires fields[i].htype.Required? || fields[i].htype.Optional?
    requires slots[i].Opt? ==> slots[i].has
    requires fields[i].Singular() && slots[i].Plain? ==> !IsZero(fields[i], slots[i].v)
    ensures EncField(fields, slots, i).Ok?
    ensures Reached(fields, prior, slots, i + 1, st')
    ensures DecLoop(fields, st, EncField(fields, slots, i).value + t) == DecLoop(fields, st', t)
    decreases fields, 0, 0
  {
    At(fields, slots, i);
    assert JoinsSlot(fields, prior, slots, i);
    var f, v, slots' := fields[i], slots[i].v, st.slots[i := MergedSlot(fields, prior, slots, i)];
    PartialNext(fields, prior, slots, i);
    MarkedAll(fields, i, st.seen);
    hide WellFormed, FitsMessage, Joins, DecLoop, EncTagged, Partial, RequiredBefore, EncValue, DecValue, MergedValue,
         Fits, JoinsValue;
    ValueTrip(f, prior[i].v, v, t);
    LoopOnItem(fields, st, i, v, t, slots');
    st' := st.(slots := slots', seen := MarkSeen(fields, i, st.seen), pos := i);
  }

  /** Sending one more descriptor outside unions settles its slot and no other. */
  lemma PartialNext(fields: seq<Field>, prior: seq<Slot>, slots: seq<Slot>, i: nat)
    requires WellFormed(fields) && FitsMessage(fields, slots) && |prior| == |fields|
    requires i < |fields| && !fields[i].htype.OneOf?
    ensures Partial(fields, prior, slots, i)[i] == prior[i]
    ensures Partial(fields, prior, slots, i + 1)
         == Partial(fields, prior, slots, i)[i := MergedSlot(fields, prior, slots, i)]
  {
    hide MergedSlot;
    assert FitsSlot(fields, slots, i);
    forall j | 0 <= j < |fields| && j != i
      ensures Partial(fields, prior, slots, i + 1)[j] == Partial(fields, prior, slots, i)[j]
    {
      assert FitsSlot(fields, slots, j);
    }
  }

  /** An item with a tag of its own is added to those that are there, also one of a type that the
      encoder would have packed. */
  lemma {:induction false} ItemTrip(fields: seq<Field>, i: nat, st: State, v: Value, t: seq<byte>)
    requires WellFormed(fields) && i < |fields| && StateFor(fields, st) && st.slots[i].Rep?
    requires fields[i].htype.Repeated? && !fields[i].ltype.Extension? && Fits(fields[i], v)
    requires |st.slots[i].items| < fields[i].arraySize
    ensures EncTagged(fields[i], v).Ok?
    ensures DecLoop(fields, st, EncTagged(fields[i], v).value + t)
         == DecLoop(fields, st.(slots := st.slots[i := Rep(st.slots[i].items + [CanonValue(fields[i], v)])], pos := i), t)
    decreases fields, 0, 0
  {
    var f := fields[i];
    assert WellFormedField(f);
    hide WellFormed, Fits, WellFormedField, DecLoop, EncTagged, EncValue, DecValue, CanonValue, MergedValue,
         JoinsValue, DefaultOf;
    DefaultIsJoined(f, v);
    ValueTrip(f, DefaultOf(f), v, t);
    LoopOnItem(fields, st, i, v, t, st.slots[i := Rep(st.slots[i].items + [CanonValue(f, v)])]);
  }

  lemma {:induction false} ItemsTrip(fields: seq<Field>, i: nat, st: State, items: seq<Value>, t: seq<byte>)
    returns (st': State)
    requires WellFormed(fields) && i < |fields| && StateFor(fields, st) && st.slots[i].Rep?
    requires fields[i].htype.Repeated? && !fields[i].ltype.Extension?
    requires forall k :: 0 <= k < |items| ==> Fits(fields[i], items[k])
    requires |st.slots[i].items| + |items| <= fields[i].arraySize
    ensures EncItems(fields[i], items).Ok?
    ensures StateFor(fields, st') && st'.seen == st.seen
    ensures st'.slots == st.slots[i := Rep(st.slots[i].items + CanonItems(fields[i], items))]
    ensures DecLoop(fields, st, EncItems(fields[i], items).value + t) == DecLoop(fields, st', t)
    decreases fields, 0, |items| + 1
  {
    hide WellFormed, Fits, DecLoop, EncTagged, CanonValue;
    var f := fields[i];
    if items == [] {
      st' := st;
      assert st.slots[i].items + CanonItems(f, items) == st.slots[i].items;
      assert EncItems(f, items).value + t == t;
    } else {
      var v, more := items[0], items[1..];
      var st1 := st.(slots := st.slots[i := Rep(st.slots[i].items + [CanonValue(f, v)])], pos := i);
      st' := ItemsTrip(fields, i, st1, more, t);
      ItemTrip(fields, i, st, v, EncItems(f, more).value + t);
      ItemsJoin(f, items, t);
      CanonItemsStep(f, st.slots[i].items, items);
    }
  }

  lemma ItemsJoin(f: Field, items: seq<Value>, t: seq<byte>)
    requires items != [] && EncTagged(f, items[0]).Ok? && EncItems(f, items[1..]).Ok?
    ensures EncItems(f, items).Ok?
    ensures EncItems(f, items).value + t == EncTagged(f, items[0]).value + (EncItems(f, items[1..]).value + t)
  {
    hide EncTagged;
    var first, rest := EncTagged(f, items[0]).value, EncItems(f, items[1..]).value;
    assert first + rest + t == first + (rest + t);
  }

  lemma CanonItemsStep(f: Field, prior: seq<Value>, items: seq<Value>)
    requires items != []
    ensures prior + [CanonValue(f, items[0])] + CanonItems(f, items[1..]) == prior + CanonItems(f, items)
  {
  }

  /** A packed chunk is added to the items that are there. */
  lemma PackedArrayTrip(fields: seq<Field>, i: nat, st: State, items: seq<Value>, t: seq<byte>) returns (st': State)
    requires WellFormed(fields) && i < |fields| && StateFor(fields, st) && st.slots[i].Rep?
    requires fields[i].htype.Repeated? && fields[i].ltype.Packable()
    requires forall k :: 0 <= k < |items| ==> Fits(fields[i], items[k])
    requires 0 < |items| && |st.slots[i].items| + |items| <= fields[i].arraySize
    requires EncPackedItems(fields[i], items).Ok? ==> |EncPackedItems(fields[i], items).value| < U32
    ensures EncArray(fields[i], items).Ok?
    ensures StateFor(fields, st') && st'.seen == st.seen
    ensures st'.slots == st.slots[i := Rep(st.slots[i].items + CanonItems(fields[i], items))]
    ensures DecLoop(fields, st, EncArray(fields[i], items).value + t) == DecLoop(fields, st', t)
  {
    hide WellFormed, Fits, DecLoop, EncVarint, EncTag, EncPackedItems, DecPacked, CanonItems, TakeString;
    var f, held := fields[i], st.slots[i].items;
    PackedTrip(f, held, items);
    var body := EncPackedItems(f, items).value;
    StringTrip(body, t);
    var content := EncVarint(|body|) + body + t;
    assert EncTag(WT_STRING, f.tag) + EncVarint(|body|) + body + t == EncTag(WT_STRING, f.tag) + content;
    LoopOnKey(fields, st, i, WT_STRING, content);
    st' := st.(slots := st.slots[i := Rep(held + CanonItems(f, items))], pos := i);
  }

  /** A packed chunk that there is no room for is an error. */
  lemma PackedArrayOverflows(fields: seq<Field>, i: nat, st: State, items: seq<Value>, t: seq<byte>)
    requires WellFormed(fields) && i < |fields| && StateFor(fields, st) && st.slots[i].Rep?
    requires fields[i].htype.Repeated? && fields[i].ltype.Packable()
    requires forall k :: 0 <= k < |items| ==> Fits(fields[i], items[k])
    requires 0 < |items| <= fields[i].arraySize < |st.slots[i].items| + |items|
    requires EncPackedItems(fields[i], items).Ok? ==> |EncPackedItems(fields[i], items).value| < U32
    ensures EncArray(fields[i], items).Ok?
    ensures DecLoop(fields, st, EncArray(fields[i], items).value + t) == Error
  {
    hide WellFormed, Fits, DecLoop, EncVarint, EncTag, EncPackedItems, DecPacked, CanonItems, TakeString;
    var f := fields[i];
    PackedTrip(f, st.slots[i].items, items);
    var body := EncPackedItems(f, items).value;
    StringTrip(body, t);
    var content := EncVarint(|body|) + body + t;
    assert EncTag(WT_STRING, f.tag) + EncVarint(|body|) + body + t == EncTag(WT_STRING, f.tag) + content;
    LoopOnKey(fields, st, i, WT_STRING, content);
  }

  /** So is an item with a tag of its own, when the array is full. */
  lemma ItemOverflows(fields: seq<Field>, i: nat, st: State, v: Value, t: seq<byte>)
    requires WellFormed(fields) && i < |fields| && StateFor(fields, st) && st.slots[i].Rep?
    requires fields[i].htype.Repeated? && !fields[i].ltype.Extension? && EncTagged(fields[i], v).Ok?
    requires |st.slots[i].items| >= fields[i].arraySize
    ensures DecLoop(fields, st, EncTagged(fields[i], v).value + t) == Error
  {
    hide WellFormed, DecLoop, EncTag, EncValue, DecValue;
    var f, content := fields[i], EncValue(fields[i], v).value;
    var key := EncTag(WireType(f.ltype), f.tag);
    assert key + content + t == key + (content + t);
    LoopOnKey(fields, st, i, WireType(f.ltype), content + t);
  }

  lemma {:induction false} ArrayTrip(fields: seq<Field>, prior: seq<Slot>, slots: seq<Slot>, i: nat, st: State,
                                     t: seq<byte>)
    returns (st': State)
    requires WellFormed(fields) && FitsMessage(fields, slots) && Joins(fields, prior, slots) && i < |fields|
    requires Reached(fields, prior, slots, i, st)
    requires fields[i].htype.Repeated? && !fields[i].ltype.Extension?
    ensures EncField(fields, slots, i).Ok?
    ensures Reached(fields, prior, slots, i + 1, st')
    ensures DecLoop(fields, st, EncField(fields, slots, i).value + t) == DecLoop(fields, st', t)
    decreases fields, 1, 0
  {
    At(fields, slots, i);
    assert JoinsSlot(fields, prior, slots, i);
    var f, items, held := fields[i], slots[i].items, prior[i].items;
    PartialNext(fields, prior, slots, i);
    assert RequiredBefore(fields, i + 1) == RequiredBefore(fields, i);
    assert MergedSlot(fields, prior, slots, i) == Rep(held + CanonItems(f, items));
    hide WellFormed, WellFormedField, FitsMessage, Fits, DecLoop, DecTurn, EncVarint, Partial, RequiredBefore;
    hide MergedSlot, CanonItems, Joins, JoinsSlot;
    if items == [] {
      st' := st;
      assert EncField(fields, slots, i) == Ok([]) && [] + t == t;
      assert held + CanonItems(f, items) == held && st.slots[i := prior[i]] == st.slots;
    } else if f.ltype.Packable() {
      st' := PackedArrayTrip(fields, i, st, items, t);
      assert EncField(fields, slots, i) == EncArray(f, items);
    } else {
      st' := ItemsTrip(fields, i, st, items, t);
      assert EncField(fields, slots, i) == EncItems(f, items);
    }
  }

  /** A descriptor of a union: sent only when it is the member that is set. */
  lemma {:induction false} UnionTrip(fields: seq<Field>, prior: seq<Slot>, slots: seq<Slot>, i: nat, st: State,
                                     t: seq<byte>)
    returns (st': State)
    requires WellFormed(fields) && FitsMessage(fields, slots) && Joins(fields, prior, slots) && i < |fields|
    requires Reached(fields, prior, slots, i, st)
    requires fields[i].htype.OneOf? && !fields[i].ltype.Extension?
    ensures EncField(fields, slots, i).Ok?
    ensures Reached(fields, prior, slots, i + 1, st')
    ensures DecLoop(fields, st, EncField(fields, slots, i).value + t) == DecLoop(fields, st', t)
    decreases fields, 0, 0
  {
    hide WellFormed, FitsMessage, Joins, DecLoop, EncTagged, Partial, RequiredBefore, EncValue, DecValue, Head,
         EncField, MergedSlot;
    Lengths(fields, prior, slots);
    var f, h := fields[i], Head(fields, i);
    HeadIsNoExtension(fields, slots, i);
    UnionNext(fields, prior, slots, i);
    UnionIsNotRequired(fields, i);
    UnionSends(fields, slots, i);
    var sel := slots[h].sel;
    if sel.Member? && sel.tag == f.tag {
      SelectedFits(fields, slots, i);
      var slot' := MergedSlot(fields, prior, slots, h);
      hide Fits, WellFormedField, DecField, CanonValue, MergedValue;
      DefaultIsJoined(f, sel.v);
      ValueTrip(f, DefaultOf(f), sel.v, t);
      UnionRead(fields, st.slots, i, EncValue(f, sel.v).value + t, CanonValue(f, sel.v), t);
      LoopOnItem(fields, st, i, sel.v, t, st.slots[h := slot']);
      st' := st.(slots := st.slots[h := slot'], pos := i);
    } else {
      st' := st;
      assert EncField(fields, slots, i) == Ok([]) && [] + t == t;
    }
  }

  lemma UnionIsNotRequired(fields: seq<Field>, i: nat)
    requires i < |fields| && fields[i].htype.OneOf?
    ensures RequiredBefore(fields, i + 1) == RequiredBefore(fields, i)
  {
  }

  lemma UnionSends(fields: seq<Field>, slots: seq<Slot>, i: nat)
    requires i < |fields| == |slots| && fields[i].htype.OneOf? && slots[Head(fields, i)].Union?
    requires !fields[i].ltype.Extension?
    ensures EncField(fields, slots, i)
         == if slots[Head(fields, i)].sel.Member? && slots[Head(fields, i)].sel.tag == fields[i].tag
            then EncTagged(fields[i], slots[Head(fields, i)].sel.v) else Ok([])
  {
    hide EncTagged, Head;
  }

  lemma UnionRead(fields: seq<Field>, slots: seq<Slot>, i: nat, s: seq<byte>, v: Value, t: seq<byte>)
    requires i < |fields| == |slots| && fields[i].htype.OneOf? && slots[Head(fields, i)].Union?
    requires DecValue(fields[i], DefaultOf(fields[i]), s) == Ok(Read(v, t))
    ensures DecField(fields, slots, i, WireType(fields[i].ltype), s)
         == Ok(Read(slots[Head(fields, i) := Union(Member(fields[i].tag, v))], t))
  {
    hide DecValue, DefaultOf, Head;
  }

  /** The member a union is set to is an item of its descriptor. */
  lemma SelectedFits(fields: seq<Field>, slots: seq<Slot>, i: nat)
    requires WellFormed(fields) && FitsMessage(fields, slots) && i < |fields| && fields[i].htype.OneOf?
    requires !fields[i].ltype.Extension?
    requires slots[Head(fields, i)].Union?
    requires slots[Head(fields, i)].sel.Member? && slots[Head(fields, i)].sel.tag == fields[i].tag
    ensures WellFormedField(fields[i]) && Fits(fields[i], slots[Head(fields, i)].sel.v)
    ensures forall prior :: |prior| == |fields| ==>
              MergedSlot(fields, prior, slots, Head(fields, i))
              == Union(Member(fields[i].tag, CanonValue(fields[i], slots[Head(fields, i)].sel.v)))
  {
    var h := Head(fields, i);
    HeadIsNoExtension(fields, slots, i);
    At(fields, slots, h);
    At(fields, slots, i);
    hide WellFormed, FitsMessage, Fits, CanonValue, WellFormedField;
    FindOwnTag(fields, 0, i);
  }

  /** In a message that fits, the slot at the head of a union holds that union. */
  lemma HeadIsNoExtension(fields: seq<Field>, slots: seq<Slot>, i: nat)
    requires WellFormed(fields) && FitsMessage(fields, slots) && i < |fields| && fields[i].htype.OneOf?
    ensures |slots| == |fields| && !fields[Head(fields, i)].ltype.Extension? && slots[Head(fields, i)].Union?
  {
    var h := Head(fields, i);
    assert WellFormedField(fields[h]) && FitsSlot(fields, slots, h);
  }

  lemma UnionNext(fields: seq<Field>, prior: seq<Slot>, slots: seq<Slot>, i: nat)
    requires WellFormed(fields) && FitsMessage(fields, slots) && Joins(fields, prior, slots)
    requires i < |fields| && fields[i].htype.OneOf?
    ensures slots[Head(fields, i)].Union? && Partial(fields, prior, slots, i)[Head(fields, i)].Union?
    ensures Partial(fields, prior, slots, i + 1)
         == if slots[Head(fields, i)].sel.Member? && slots[Head(fields, i)].sel.tag == fields[i].tag
            then Partial(fields, prior, slots, i)[Head(fields, i) := MergedSlot(fields, prior, slots, Head(fields, i))]
            else Partial(fields, prior, slots, i)
  {
    HeadIsNoExtension(fields, slots, i);
    var h := Head(fields, i);
    UnionHeadNext(fields, prior, slots, i);
    forall j | 0 <= j < |fields| && j != h
      ensures Partial(fields, prior, slots, i + 1)[j] == Partial(fields, prior, slots, i)[j]
    {
      UnionOthersNext(fields, prior, slots, i, j);
    }
    hide WellFormed, FitsMessage, Joins, MergedSlot, Arrived, Head;
    var now, next := Partial(fields, prior, slots, i), Partial(fields, prior, slots, i + 1);
    assert now[h := next[h]] == next;
    assert now[h := now[h]] == now;
  }

  lemma UnionHeadNext(fields: seq<Field>, prior: seq<Slot>, slots: seq<Slot>, i: nat)
    requires WellFormed(fields) && FitsMessage(fields, slots) && Joins(fields, prior, slots)
    requires i < |fields| && fields[i].htype.OneOf? && slots[Head(fields, i)].Union?
    ensures Partial(fields, prior, slots, i)[Head(fields, i)].Union?
    ensures Partial(fields, prior, slots, i + 1)[Head(fields, i)]
         == if slots[Head(fields, i)].sel.Member? && slots[Head(fields, i)].sel.tag == fields[i].tag
            then MergedSlot(fields, prior, slots, Head(fields, i)) else Partial(fields, prior, slots, i)[Head(fields, i)]
  {
    var h := Head(fields, i);
    At(fields, slots, h);
    At(fields, slots, i);
    assert JoinsSlot(fields, prior, slots, h);
    FindOwnTag(fields, 0, i);
    hide WellFormed, FitsMessage, Joins, Fits, CanonValue;
  }

  lemma UnionOthersNext(fields: seq<Field>, prior: seq<Slot>, slots: seq<Slot>, i: nat, j: nat)
    requires WellFormed(fields) && FitsMessage(fields, slots) && |prior| == |fields|
    requires i < |fields| && fields[i].htype.OneOf? && j < |fields| && j != Head(fields, i)
    ensures Partial(fields, prior, slots, i + 1)[j] == Partial(fields, prior, slots, i)[j]
  {
    At(fields, slots, j);
    hide WellFormed, FitsMessage, Fits, CanonValue, MergedValue;
    if j == i {
      assert Continues(fields, i);
    }
  }

  lemma {:induction false} FieldTrip(fields: seq<Field>, prior: seq<Slot>, slots: seq<Slot>, i: nat, st: State,
                                     t: seq<byte>)
    returns (st': State)
    requires WellFormed(fields) && FitsMessage(fields, slots) && Joins(fields, prior, slots) && i < |fields|
    requires Reached(fields, prior, slots, i, st)
    ensures EncField(fields, slots, i).Ok?
    ensures Reached(fields, prior, slots, i + 1, st')
    ensures DecLoop(fields, st, EncField(fields, slots, i).value + t) == DecLoop(fields, st', t)
    decreases fields, 2, 0
  {
    hide DecLoop, Partial, MergedValue, JoinsSlot, CanonValue, EncTagged, EncArray;
    var f, slot := fields[i], slots[i];
    assert FitsSlot(fields, slots, i) && WellFormedField(f) && JoinsSlot(fields, prior, slots, i);
    if f.ltype.Extension? {
      st' := st;
      PartialNext(fields, prior, slots, i);
      NothingSent(fields, prior, slots, i, st, t);
    } else if f.htype.Repeated? {
      st' := ArrayTrip(fields, prior, slots, i, st, t);
    } else if f.htype.OneOf? {
      st' := UnionTrip(fields, prior, slots, i, st, t);
    } else if f.htype.Optional? && (if f.HasFlag() then !slot.has else IsZero(f, slot.v)) {
      st' := st;
      PartialNext(fields, prior, slots, i);
      NothingSent(fields, prior, slots, i, st, t);
    } else {
      st' := PresentTrip(fields, prior, slots, i, st, t);
    }
  }

  /** A field that is not sent leaves what was there. */
  lemma NothingSent(fields: seq<Field>, prior: seq<Slot>, slots: seq<Slot>, i: nat, st: State, t: seq<byte>)
    requires i < |fields| == |slots| == |prior| && fields[i].htype.Optional? && FitsSlot(fields, slots, i)
    requires fields[i].ltype.Extension? || (if fields[i].HasFlag() then !slots[i].has else IsZero(fields[i], slots[i].v))
    ensures EncField(fields, slots, i) == Ok([]) && [] + t == t && MergedSlot(fields, prior, slots, i) == prior[i]
    ensures RequiredBefore(fields, i + 1) == RequiredBefore(fields, i)
  {
    hide Fits;
  }

  /** What is written for the descriptors from `i` on leads to all of the message merged in,
      whatever follows it. */
  lemma {:induction false} FromTrip(fields: seq<Field>, prior: seq<Slot>, slots: seq<Slot>, i: nat, st: State,
                                    t: seq<byte>)
    returns (st': State)
    requires WellFormed(fields) && FitsMessage(fields, slots) && Joins(fields, prior, slots) && i <= |fields|
    requires Reached(fields, prior, slots, i, st)
    ensures EncFrom(fields, slots, i).Ok?
    ensures Reached(fields, prior, slots, |fields|, st')
    ensures DecLoop(fields, st, EncFrom(fields, slots, i).value + t) == DecLoop(fields, st', t)
    decreases fields, 3, |fields| - i
  {
    hide WellFormed, FitsMessage, Joins, DecLoop, Reached, EncField;
    Lengths(fields, prior, slots);
    if i == |fields| {
      st' := st;
      assert EncFrom(fields, slots, i) == Ok([]) && [] + t == t;
    } else {
      var st1 := FieldTrip(fields, prior, slots, i, st, []);
      st' := FromTrip(fields, prior, slots, i + 1, st1, t);
      var more := EncFrom(fields, slots, i + 1).value;
      st1 := FieldTrip(fields, prior, slots, i, st, more + t);
      st' := FromTrip(fields, prior, slots, i + 1, st1, t);
      assert EncField(fields, slots, i).value + more + t == EncField(fields, slots, i).value + (more + t);
    }
  }

  lemma PartialEnds(fields: seq<Field>, prior: seq<Slot>, slots: seq<Slot>)
    requires WellFormed(fields) && FitsMessage(fields, slots) && |prior| == |fields|
    ensures Partial(fields, prior, slots, 0) == prior
    ensures Partial(fields, prior, slots, |fields|) == Merged(fields, prior, slots)
  {
    hide Fits, MergedValue, CanonValue;
    forall j | 0 <= j < |fields|
      ensures Partial(fields, prior, slots, 0)[j] == prior[j]
      ensures Partial(fields, prior, slots, |fields|)[j] == Merged(fields, prior, slots)[j]
    {
      assert FitsSlot(fields, slots, j);
    }
  }

  /** Whatever a struct holds and has room for: the bytes of a message are all read and merge
      the message into it, and every required field has been seen, whatever bytes follow. */
  lemma {:induction false} MergeTrip(fields: seq<Field>, prior: seq<Slot>, slots: seq<Slot>, st: State, t: seq<byte>)
    returns (st': State)
    requires WellFormed(fields) && FitsMessage(fields, slots) && Joins(fields, prior, slots)
    requires StateFor(fields, st) && st.slots == prior
    ensures EncMessage(fields, slots).Ok?
    ensures StateFor(fields, st') && st'.slots == Merged(fields, prior, slots) && AllRequiredSeen(fields, st'.seen)
    ensures DecLoop(fields, st, EncMessage(fields, slots).value + t) == DecLoop(fields, st', t)
    decreases fields, 4, 0
  {
    hide FitsMessage, Joins, DecLoop, Partial, Merged;
    Lengths(fields, prior, slots);
    PartialEnds(fields, prior, slots);
    st' := FromTrip(fields, prior, slots, 0, st, t);
  }

  lemma LoopAtEnd(fields: seq<Field>, st: State)
    requires StateFor(fields, st)
    ensures DecLoop(fields, st, []) == Ok(Read(st, []))
  {
  }

  /** Decoding a message into existing content merges it in. */
  lemma {:induction false} ReadInto(fields: seq<Field>, prior: seq<Slot>, slots: seq<Slot>)
    requires WellFormed(fields) && FitsMessage(fields, slots) && Joins(fields, prior, slots)
    ensures EncMessage(fields, slots).Ok?
    ensures DecRead(fields, prior, EncMessage(fields, slots).value) == Ok(Read(Merged(fields, prior, slots), []))
    decreases fields, 5, 0
  {
    hide WellFormed, FitsMessage, DecLoop, Merged;
    var st' := MergeTrip(fields, prior, slots, Start(fields, prior), []);
    LoopAtEnd(fields, st');
    assert EncMessage(fields, slots).value + [] == EncMessage(fields, slots).value;
  }

  lemma {:induction false} ValueTrip(f: Field, prior: Value, v: Value, t: seq<byte>)
    requires WellFormedField(f) && Fits(f, v) && JoinsValue(f, prior, v)
    ensures EncValue(f, v).Ok?
    ensures DecValue(f, prior, EncValue(f, v).value + t) == Ok(Read(MergedValue(f, prior, v), t))
    decreases f, 0, 0
  {
    if f.ltype.Submessage? {
      hide WellFormed, FitsMessage, Joins, Merged, DecRead, DecVarint32;
      ReadInto(f.ptr.fields, prior.slots, v.slots);
      StringTrip(EncMessage(f.ptr.fields, v.slots).value, t);
    } else {
      ScalarTrip(f, v, t);
    }
  }

  // ------------------------------------------------------------ into the defaults

  /** An item read into its default is the item, but for what is not sent. */
  lemma {:induction false} DefaultIsJoined(f: Field, v: Value)
    requires WellFormedField(f) && Fits(f, v)
    ensures JoinsValue(f, DefaultOf(f), v) && MergedValue(f, DefaultOf(f), v) == CanonValue(f, v)
    decreases f, 0
  {
    if f.ltype.Submessage? {
      DefaultsAreJoined(f.ptr.fields, v.slots);
    }
  }

  lemma {:induction false} DefaultSlotIsJoined(fields: seq<Field>, slots: seq<Slot>, i: nat)
    requires WellFormed(fields) && FitsMessage(fields, slots) && i < |fields|
    ensures JoinsSlot(fields, Defaults(fields), slots, i)
    ensures MergedSlot(fields, Defaults(fields), slots, i) == CanonSlot(fields, slots, i)
    decreases fields, 0
  {
    At(fields, slots, i);
    var f, slot := fields[i], slots[i];
    assert Defaults(fields)[i] == DefaultSlot(fields, i);
    if (slot.Plain? || (slot.Opt? && slot.has)) && !f.ltype.Extension? {
      DefaultIsJoined(f, slot.v);
    }
    if slot.Rep? {
      assert [] + CanonItems(f, slot.items) == CanonItems(f, slot.items);
    }
  }

  lemma {:induction false} DefaultsAreJoined(fields: seq<Field>, slots: seq<Slot>)
    requires WellFormed(fields) && FitsMessage(fields, slots)
    ensures Joins(fields, Defaults(fields), slots)
    ensures Merged(fields, Defaults(fields), slots) == Canon(fields, slots)
    decreases fields, 1
  {
    hide WellFormed, MergedSlot, CanonSlot, JoinsSlot;
    forall i | 0 <= i < |fields|
      ensures JoinsSlot(fields, Defaults(fields), slots, i)
      ensures MergedSlot(fields, Defaults(fields), slots, i) == CanonSlot(fields, slots, i)
    {
      DefaultSlotIsJoined(fields, slots, i);
    }
    assert Merged(fields, Defaults(fields), slots) == Canon(fields, slots);
  }

  /** Decoding what `pb_encode` wrote succeeds, consumes exactly those bytes and gives
      the message back, but for content that is not sent, which holds its default. */
  lemma {:induction false} RoundTrip(fields: seq<Field>, slots: seq<Slot>)
    requires WellFormed(fields) && FitsMessage(fields, slots)
    ensures EncMessage(fields, slots).Ok?
    ensures Decode(fields, EncMessage(fields, slots).value) == Ok(Read(Canon(fields, slots), []))
  {
    hide WellFormed, FitsMessage, Joins, Merged, Canon, DecRead;
    DefaultsAreJoined(fields, slots);
    ReadInto(fields, Defaults(fields), slots);
  }

  /** Two messages one behind the other are decoded to the second merged into the first. */
  lemma {:induction false} ConcatenationMerges(fields: seq<Field>, first: seq<Slot>, second: seq<Slot>)
    requires WellFormed(fields) && FitsMessage(fields, first) && FitsMessage(fields, second)
    requires Joins(fields, Canon(fields, first), second)
    ensures EncMessage(fields, first).Ok? && EncMessage(fields, second).Ok?
    ensures Decode(fields, EncMessage(fields, first).value + EncMessage(fields, second).value)
         == Ok(Read(Merged(fields, Canon(fields, first), second), []))
  {
    hide WellFormed, FitsMessage, Joins, Merged, Canon, DecLoop;
    DefaultsAreJoined(fields, first);
    ReadInto(fields, Canon(fields, first), second);
    var b2 := EncMessage(fields, second).value;
    var middle := MergeTrip(fields, Defaults(fields), first, Start(fields, Defaults(fields)), b2);
    var end := MergeTrip(fields, Canon(fields, first), second, middle, []);
    assert b2 + [] == b2;
    LoopAtEnd(fields, end);
  }
}
