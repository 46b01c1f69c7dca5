/** The decoder of nanopb: methods that read from an input stream, each proved against
    what `PbDecode` says is read. */
module PbDecoder {
  import opened ByteString
  import opened PbWire
  import opened PbSchema
  import opened PbIter
  import opened PbEncode
  import opened PbDecode
  import opened PbSeen
  import opened PbIStream

  /** The effect of a reading method that is to read what `r` says. */
  twostate predicate ReadAs<T>(s: IStream, ok: bool, new v: T, new r: Result<Read<T>>)
    reads s
  {
    && s.Within()
    && ok == r.Ok?
    && (ok ==> s.Advanced() && r == Ok(Read(v, s.Remaining())))
  }

  // ------------------------------------------------------------ single values

  /** `pb_dec_varint`, `pb_dec_uvarint` and `pb_dec_svarint`. */
  method DecodeInteger(s: IStream, f: Field) returns (ok: bool, v: Value)
    requires s.Valid() && (f.ltype.Varint? || f.ltype.UVarint? || f.ltype.SVarint?)
    modifies s
    ensures ReadAs(s, ok, v, DecScalar(f, old(s.Remaining())))
  {
    hide DecVarintFrom, AsSigned;
    v := Int(0);
    var value: nat;
    ok, value := s.DecodeVarint();
    if !ok {
      return;
    }
    var x: int;
    match f.ltype {
      case Varint => x := AsSigned(value, if f.dataSize == 8 then 64 else 32);
      case UVarint => x := value;
      case SVarint => x := if value % 2 == 1 then -(value / 2) - 1 else value / 2;
    }
    if !IntSize(f.dataSize) {
      return false, v;  // invalid data_size
    }
    if !(if f.ltype.UVarint? then FitsUnsigned(x, f.dataSize) else FitsSigned(x, f.dataSize)) {
      return false, v;  // integer too large
    }
    v := Int(x);
  }

  function FourBytesFrom(b: seq<int>, k: nat): int
    requires k + 4 <= |b|
  {
    b[k] + b[k + 1] * 0x100 + b[k + 2] * 0x1_0000 + b[k + 3] * 0x100_0000
  }

  lemma {:induction false} FourBytesRead(b: seq<byte>)
    requires |b| >= 4
    ensures DecFixed(b) == FourBytesFrom(b, 0) + U32 * DecFixed(b[4..])
  {
    assert b[1..][1..] == b[2..] && b[2..][1..] == b[3..] && b[3..][1..] == b[4..];
    assert DecFixed(b[3..]) == b[3] + 256 * DecFixed(b[4..]);
    assert DecFixed(b[2..]) == b[2] + 256 * DecFixed(b[3..]);
    assert DecFixed(b[1..]) == b[1] + 256 * DecFixed(b[2..]);
  }

  /** `pb_decode_fixed32` and `pb_decode_fixed64`. */
  method DecodeFixed(s: IStream, f: Field) returns (ok: bool, v: Value)
    requires s.Valid() && (f.ltype.Fixed32? || f.ltype.Fixed64?)
    modifies s
    ensures ReadAs(s, ok, v, DecScalar(f, old(s.Remaining())))
  {
    hide DecFixed;
    v := Int(0);
    var b: seq<byte>;
    ok, b := s.Read(if f.ltype.Fixed32? then 4 else 8);
    if !ok {
      return;
    }
    NoMore();
    FourBytesRead(b);
    if f.ltype.Fixed32? {
      assert b[4..] == [];
      v := Int(FourBytesFrom(b, 0));
    } else {
      FourBytesRead(b[4..]);
      assert b[4..][4..] == [];
      v := Int(FourBytesFrom(b, 0) + U32 * FourBytesFrom(b, 4));
    }
  }

  lemma NoMore()
    ensures DecFixed([]) == 0
  {
  }

  /** `pb_dec_bytes`, `pb_dec_string` and `pb_dec_fixed_length_bytes`. */
  method DecodeBlob(s: IStream, f: Field) returns (ok: bool, v: Value)
    requires s.Valid() && (f.ltype.Bytes? || f.ltype.String? || f.ltype.FixedLengthBytes?)
    modifies s
    ensures ReadAs(s, ok, v, DecScalar(f, old(s.Remaining())))
  {
    hide DecVarintFrom;
    v := Blob([]);
    var size: nat;
    ok, size := s.DecodeVarint32();
    if !ok {
      return;
    }
    match f.ltype {
      case Bytes =>
        if size + BYTES_OFFSET > f.dataSize {
          return false, v;  // bytes overflow
        }
      case String =>
        var needed := (size + 1) % U32;
        if needed < size {
          return false, v;  // size too large
        }
        if needed > f.dataSize {
          return false, v;  // string overflow
        }
      case FixedLengthBytes =>
        if size == 0 {
          return true, Blob(Zeros(f.dataSize));
        }
        if size != f.dataSize {
          return false, v;  // incorrect fixed length bytes size
        }
    }
    var b: seq<byte>;
    ok, b := s.Read(size);
    v := Blob(b);
  }

  /** The decoder of `PB_DECODERS` for an item other than a submessage. */
  method DecodeScalar(s: IStream, f: Field) returns (ok: bool, v: Value)
    requires s.Valid() && !f.ltype.Submessage?
    modifies s
    ensures ReadAs(s, ok, v, DecScalar(f, old(s.Remaining())))
  {
    match f.ltype {
      case Varint => ok, v := DecodeInteger(s, f);
      case UVarint => ok, v := DecodeInteger(s, f);
      case SVarint => ok, v := DecodeInteger(s, f);
      case Fixed32 => ok, v := DecodeFixed(s, f);
      case Fixed64 => ok, v := DecodeFixed(s, f);
      case Bytes => ok, v := DecodeBlob(s, f);
      case String => ok, v := DecodeBlob(s, f);
      case FixedLengthBytes => ok, v := DecodeBlob(s, f);
      case Extension => ok, v := false, Int(0);
    }
  }

  // -------------------------------------------------------------- one field

  /** Every message type the decoder is used with lets it test its bitmap. */
  predicate Countable(fields: seq<Field>)
    decreases fields, 1
  {
    && CountDefined(fields)
    && forall i :: 0 <= i < |fields| ==> CountableField(fields[i])
  }

  predicate CountableField(f: Field)
    decreases f, 0
  {
    f.ptr.SubFields? ==> Countable(f.ptr.fields)
  }

  /** A payload that was found, with what reading it yields. */
  function Payload<T>(body: Result<Read<seq<byte>>>, r: Result<T>): Result<Read<T>> {
    if body.Ok? && r.Ok? then Ok(Read(r.value, body.value.rest)) else Error
  }

  /** The message inside a payload. */
  function MessageIn(f: Field, prior: Value, body: Result<Read<seq<byte>>>): Result<seq<Slot>> {
    if body.Ok? && f.ptr.SubFields? && prior.Msg? then DecMessage(f.ptr.fields, prior.slots, body.value.value) else Error
  }

  lemma MessageInIs(f: Field, prior: Value, s: seq<byte>)
    requires f.ltype.Submessage?
    ensures var r := Payload(TakeString(s), MessageIn(f, prior, TakeString(s)));
            DecValue(f, prior, s) == if r.Ok? then Ok(Read(Msg(r.value.value), r.value.rest)) else Error
  {
    hide TakeString, DecMessage;
  }

  /** `pb_dec_submessage`. */
  method DecodeSubmessage(s: IStream, f: Field, prior: Value) returns (ok: bool, slots: seq<Slot>)
    requires s.Valid() && CountableField(f)
    modifies s
    ensures ReadAs(s, ok, slots, Payload(TakeString(old(s.Remaining())), MessageIn(f, prior, TakeString(old(s.Remaining())))))
    decreases s.bytesLeft, 0
  {
    slots := [];
    var sub: IStream;
    ok, sub := s.MakeSubstream();
    hide TakeString, DecRead, Countable, IStream.Follows, IStream.Remaining;
    if !ok {
      return;
    }
    if !f.ptr.SubFields? || !prior.Msg? {
      return false, slots;  // invalid field descriptor
    }
    ghost var rest := TakeString(old(s.Remaining())).value.rest;
    ok, slots := DecodeNoinit(sub, f.ptr.fields, prior.slots);
    s.CloseSubstream(sub, rest);
  }

  /** The decoder of the field's type. */
  method DecodeValue(s: IStream, f: Field, prior: Value) returns (ok: bool, v: Value)
    requires s.Valid() && CountableField(f)
    modifies s
    ensures ReadAs(s, ok, v, DecValue(f, prior, old(s.Remaining())))
    decreases s.bytesLeft, 1
  {
    hide DecScalar, TakeString, MessageIn;
    if f.ltype.Submessage? {
      MessageInIs(f, prior, s.Remaining());
      var slots: seq<Slot>;
      ok, slots := DecodeSubmessage(s, f, prior);
      v := Msg(slots);
    } else {
      ok, v := DecodeScalar(s, f);
    }
  }

  /** The items inside the payload of a packed array. */
  function ItemsIn(f: Field, prior: seq<Value>, body: Result<Read<seq<byte>>>): Result<seq<Value>> {
    if body.Ok? then DecPacked(f, prior, body.value.value) else Error
  }

  /** The packed arrays of `decode_static_field`. */
  method DecodePacked(s: IStream, f: Field, prior: seq<Value>) returns (ok: bool, items: seq<Value>)
    requires s.Valid() && f.ltype.Packable()
    modifies s
    ensures ReadAs(s, ok, items, Payload(TakeString(old(s.Remaining())), ItemsIn(f, prior, TakeString(old(s.Remaining())))))
  {
    items := prior;
    var sub: IStream;
    ok, sub := s.MakeSubstream();
    hide TakeString, DecPacked, IStream.Follows, IStream.Remaining;
    if !ok {
      return;
    }
    ghost var rest := TakeString(old(s.Remaining())).value.rest;
    ok, items := DecodePackedItems(sub, f, prior);
    if sub.bytesLeft != 0 {
      return false, items;  // array overflow
    }
    s.CloseSubstream(sub, rest);
  }

  /** The loop over the items of a packed array. */
  method DecodePackedItems(sub: IStream, f: Field, prior: seq<Value>) returns (status: bool, items: seq<Value>)
    requires sub.Valid() && f.ltype.Packable()
    modifies sub
    ensures sub.Within()
    ensures status ==> sub.Advanced()
    ensures status && sub.bytesLeft == 0 <==> DecPacked(f, prior, old(sub.Remaining())).Ok?
    ensures status && sub.bytesLeft == 0 ==> DecPacked(f, prior, old(sub.Remaining())) == Ok(items)
  {
    hide DecScalar;
    items := prior;
    status := true;
    while sub.bytesLeft > 0 && |items| < f.arraySize
      invariant status && sub.Advanced()
      invariant DecPacked(f, prior, old(sub.Remaining())) == DecPacked(f, items, sub.Remaining())
      decreases sub.bytesLeft
    {
      var v: Value;
      status, v := DecodeScalar(sub, f);
      if !status {
        return;
      }
      items := items + [v];
    }
  }

  /** `decode_static_field`. */
  method DecodeField(s: IStream, fields: seq<Field>, dest: seq<Slot>, i: nat, wireType: nat)
    returns (ok: bool, slots: seq<Slot>)
    requires s.Valid() && i < |fields| == |dest| && CountableField(fields[i])
    modifies s
    ensures ReadAs(s, ok, slots, DecField(fields, dest, i, wireType, old(s.Remaining())))
    decreases s.bytesLeft, 2
  {
    hide DecPacked, TakeString;
    var f := fields[i];
    slots := dest;
    var v: Value;
    match f.htype {
      case Required =>
        if !dest[i].Plain? {
          return false, slots;
        }
        ok, v := DecodeValue(s, f, dest[i].v);
        slots := dest[i := Plain(v)];
      case Optional =>
        if f.sizeOffset != 0 {
          if !dest[i].Opt? {
            return false, slots;
          }
          ok, v := DecodeValue(s, f, dest[i].v);
          slots := dest[i := Opt(true, v)];
        } else {
          if !dest[i].Plain? {
            return false, slots;
          }
          ok, v := DecodeValue(s, f, dest[i].v);
          slots := dest[i := Plain(v)];
        }
      case Repeated =>
        if !dest[i].Rep? {
          return false, slots;
        }
        if wireType == WT_STRING && f.ltype.Packable() {
          var items: seq<Value>;
          ok, items := DecodePacked(s, f, dest[i].items);
          slots := dest[i := Rep(items)];
        } else {
          if |dest[i].items| >= f.arraySize {
            return false, slots;  // array overflow
          }
          ok, v := DecodeValue(s, f, DefaultOf(f));
          slots := dest[i := Rep(dest[i].items + [v])];
        }
      case OneOf =>
        var h := Head(fields, i);
        if !dest[h].Union? {
          return false, slots;
        }
        ok, v := DecodeValue(s, f, DefaultOf(f));
        slots := dest[h := Union(Member(f.tag, v))];
    }
  }

  // ------------------------------------------------------- the bitmap test

  /** `find_extension_field`. */
  method FindExtension(iter: FieldIter) returns (found: bool)
    requires iter.Valid() && iter.fields != []
    modifies iter
    ensures iter.Valid()
    ensures found == SearchExtension(iter.fields, old(iter.pos), |iter.fields|).Ok?
    ensures iter.pos == if found then SearchExtension(iter.fields, old(iter.pos), |iter.fields|).value else old(iter.pos)
  {
    var start, fields, left := iter.pos, iter.fields, |iter.fields|;
    while true
      invariant iter.Valid() && 0 < left <= |fields|
      invariant iter.pos == if start + |fields| - left < |fields| then start + |fields| - left else start - left
      invariant SearchExtension(fields, start, |fields|) == SearchExtension(fields, iter.pos, left)
      decreases left
    {
      if fields[iter.pos].ltype.Extension? {
        return true;
      }
      var more := iter.Next();
      left := left - 1;
      if iter.pos == start {
        return false;
      }
    }
  }

  /** The number of required fields, found by walking on to the end of the descriptors.
      The type of the terminator is that of a required field, which its tag reveals. */
  method CountRequired(iter: FieldIter) returns (count: nat)
    requires iter.Valid()
    modifies iter
    ensures count == RequiredBefore(iter.fields, |iter.fields|)
  {
    count := 0;
    var fields, more, lastRequired := iter.fields, true, true;
    while more
      invariant iter.Valid()
      invariant !more && fields != [] ==> count == RequiredBefore(fields, |fields| - 1)
      invariant !more && fields == [] ==> count == 0
      invariant !more && fields != [] ==> (lastRequired <==> fields[|fields| - 1].htype.Required?)
      decreases more, |fields| - iter.pos
    {
      count := iter.requiredFieldIndex;
      lastRequired := fields == [] || fields[iter.pos].htype.Required?;
      more := iter.Next();
    }
    if lastRequired && fields != [] {
      count := count + 1;
    }
  }

  /** The whole words, and then the remaining bits, are compared with ones. */
  method AllSeen(words: array<bv32>, count: nat, ghost seen: set<nat>) returns (ok: bool)
    requires Holds(words[..], seen) && (count == 0 || (count < MAX_REQUIRED && count % 32 != 0))
    requires forall n :: n in seen ==> n < count
    ensures ok <==> forall n: nat :: n < count ==> n in seen
  {
    if count > 0 {
      BitmapTest(words[..], seen, count);
      hide LowWord;
      for i := 0 to count / 32
        invariant i > 0 ==> words[0] == ALL_BITS
      {
        if words[i] != ALL_BITS {
          return false;  // missing required field
        }
      }
      if words[count / 32] != LowWord(count % 32) {
        return false;  // missing required field
      }
    }
    return true;
  }

  /** The number of a required field is below the number of all of them. */
  lemma {:induction false} RequiredIsCounted(fields: seq<Field>, i: nat, n: nat)
    requires i < n <= |fields| && fields[i].htype.Required?
    ensures RequiredBefore(fields, i) < RequiredBefore(fields, n)
  {
    if i < n - 1 {
      RequiredIsCounted(fields, i, n - 1);
    }
  }

  // ------------------------------------------------------------ whole messages

  /** The loop variables of `pb_decode_noinit` are those of the specified loop. */
  ghost predicate Agrees(iter: FieldIter, words: array<bv32>, extensionStart: nat, slots: seq<Slot>, st: State)
    reads iter, words
  {
    && iter.Valid()
    && StateFor(iter.fields, st)
    && slots == st.slots
    && (iter.fields != [] ==> iter.pos == st.pos && extensionStart == st.extensionStart)
    && Holds(words[..], st.seen)
    && (forall n :: n in st.seen ==> n < RequiredBefore(iter.fields, |iter.fields|))
  }

  /** Notes that a required field was seen, before its content is decoded. */
  method Note(iter: FieldIter, words: array<bv32>, ghost seen: set<nat>)
    requires iter.Valid() && iter.fields != [] && words.Length == 2 && Holds(words[..], seen)
    requires forall n :: n in seen ==> n < RequiredBefore(iter.fields, |iter.fields|)
    modifies words
    ensures Holds(words[..], MarkSeen(iter.fields, iter.pos, seen))
    ensures forall n :: n in MarkSeen(iter.fields, iter.pos, seen) ==> n < RequiredBefore(iter.fields, |iter.fields|)
  {
    var n := iter.requiredFieldIndex;
    if iter.fields[iter.pos].htype.Required? && n < MAX_REQUIRED {
      RequiredIsCounted(iter.fields, iter.pos, |iter.fields|);
      MarkOne(words[..], seen, n);
      hide Holds, WithBit;
      words[n / 32] := WithBit(words[n / 32], n % 32);
      assert words[..] == old(words[..])[n / 32 := WithBit(old(words[..])[n / 32], n % 32)];
    }
  }

  /** An unknown field: it could be an extension's, and is skipped. */
  method Unknown(s: IStream, iter: FieldIter, start: nat, tag: nat, wireType: nat, ghost st: State)
    returns (ok: bool, extensionStart: nat)
    requires s.Valid() && iter.Valid() && StateFor(iter.fields, st)
    requires iter.fields != [] ==> iter.pos == st.pos && start == st.extensionStart
    modifies s, iter
    ensures s.Advanced() && iter.Valid()
    ensures ok == PbDecode.SkipField(wireType, old(s.Remaining())).Ok?
    ensures ok ==> PbDecode.SkipField(wireType, old(s.Remaining())) == Ok(s.Remaining())
    ensures var st' := NoteUnknown(iter.fields, st, tag); iter.fields != [] ==> iter.pos == st'.pos && extensionStart == st'.extensionStart
  {
    extensionStart := start;
    if tag >= extensionStart {
      var found := false;
      if iter.fields != [] {
        found := FindExtension(iter);
      }
      // No extension is registered, so that none of them takes the field.
      extensionStart := if found then iter.fields[iter.pos].tag else U32 - 1;
    }
    ok := s.SkipField(wireType);
  }

  /** One turn of the loop of `pb_decode_noinit`. */
  method DecodeTurn(s: IStream, iter: FieldIter, words: array<bv32>, start: nat, dest: seq<Slot>, ghost st: State)
    returns (ok: bool, eof: bool, extensionStart: nat, slots: seq<Slot>, ghost st': State)
    requires s.Valid() && s.bytesLeft > 0 && words.Length == 2 && Countable(iter.fields)
    requires Agrees(iter, words, start, dest, st)
    modifies s, iter, words
    ensures s.Within()
    ensures ok ==> s.Advanced() && DecTurn(iter.fields, st, old(s.Remaining())) == More(st', s.Remaining())
    ensures ok ==> Agrees(iter, words, extensionStart, slots, st')
    ensures eof && !ok ==> s.Advanced() && DecTurn(iter.fields, st, old(s.Remaining())) == End(s.Remaining())
    ensures eof && !ok ==> extensionStart == start && slots == dest && st' == st
    ensures eof && !ok ==> Agrees(iter, words, start, dest, st)
    ensures !eof && !ok ==> DecTurn(iter.fields, st, old(s.Remaining())).Failed?
    decreases s.bytesLeft, 3
  {
    hide Holds, Countable, DecVarintFrom, DecField, Find, SearchExtension, MarkSeen, RequiredBefore, NoteUnknown,
         PbDecode.SkipField;
    extensionStart, slots, st' := start, dest, st;
    var fields := iter.fields;
    var wireType, tag: nat;
    ok, wireType, tag, eof := s.DecodeTag();
    if !ok {
      return;
    }
    var found := iter.FindTag(tag);
    if !found {
      st' := NoteUnknown(fields, st, tag);
      ok, extensionStart := Unknown(s, iter, start, tag, wireType, st);
      return;
    }
    if fields == [] {
      ok := false;  // The terminator has no valid content.
      return;
    }
    Note(iter, words, st.seen);
    st' := st.(seen := MarkSeen(fields, iter.pos, st.seen), pos := iter.pos);
    CountableMember(fields, iter.pos);
    ok, slots := DecodeField(s, fields, dest, iter.pos, wireType);
    st' := st'.(slots := slots);
  }

  lemma CountableMember(fields: seq<Field>, i: nat)
    requires Countable(fields) && i < |fields|
    ensures CountableField(fields[i])
  {
  }

  lemma AgreesAtStart(iter: FieldIter, words: array<bv32>, dest: seq<Slot>)
    requires iter.Valid() && iter.pos == 0 && |dest| == |iter.fields|
    requires words.Length == 2 && words[0] == 0 && words[1] == 0
    ensures Agrees(iter, words, 0, dest, Start(iter.fields, dest))
  {
    NothingSeen();
    hide Holds;
    assert words[..] == [0, 0];
  }

  /** The bitmap passes its test exactly when every required field was seen. */
  method CheckRequired(iter: FieldIter, words: array<bv32>, ghost extensionStart: nat, ghost slots: seq<Slot>,
                       ghost st: State) returns (ok: bool)
    requires Agrees(iter, words, extensionStart, slots, st) && CountDefined(iter.fields)
    modifies iter
    ensures ok <==> AllRequiredSeen(iter.fields, st.seen)
  {
    hide Holds, FieldIter.Valid, RequiredBefore;
    var count := CountRequired(iter);
    ok := AllSeen(words, count, st.seen);
  }

  /** The loop of `pb_decode_noinit`. */
  method DecodeFields(s: IStream, iter: FieldIter, words: array<bv32>, dest: seq<Slot>, ghost st: State)
    returns (ok: bool, slots: seq<Slot>, ghost extensionStart: nat, ghost st': State)
    requires s.Valid() && words.Length == 2 && Countable(iter.fields)
    requires Agrees(iter, words, 0, dest, st)
    modifies s, iter, words
    ensures ReadAs(s, ok, st', DecLoop(iter.fields, st, old(s.Remaining())))
    ensures ok ==> Agrees(iter, words, extensionStart, slots, st')
    decreases s.bytesLeft, 4
  {
    assert StateFor(iter.fields, st);
    hide Agrees, DecTurn, FieldIter.Valid, Countable;
    slots, st' := dest, st;
    var start := 0;
    extensionStart := 0;
    while s.bytesLeft > 0
      invariant s.Advanced()
      invariant Agrees(iter, words, start, slots, st') && StateFor(iter.fields, st')
      invariant DecLoop(iter.fields, st, old(s.Remaining())) == DecLoop(iter.fields, st', s.Remaining())
      decreases s.bytesLeft
    {
      var eof: bool;
      ok, eof, start, slots, st' := DecodeTurn(s, iter, words, start, slots, st');
      if !ok {
        if eof {
          break;
        }
        return;
      }
    }
    extensionStart := start;
    ok := true;
  }

  /** `pb_decode_noinit`. */
  method DecodeNoinit(s: IStream, fields: seq<Field>, dest: seq<Slot>) returns (ok: bool, slots: seq<Slot>)
    requires s.Valid() && Countable(fields)
    modifies s
    ensures ReadAs(s, ok, slots, DecRead(fields, dest, old(s.Remaining())))
    decreases s.bytesLeft, 5
  {
    slots := dest;
    if |dest| != |fields| {
      return false, slots;
    }
    var seen := new bv32[2];
    seen[0], seen[1] := 0, 0;
    var iter := new FieldIter(fields, 0);
    AgreesAtStart(iter, seen, dest);
    ghost var extensionStart: nat, st: State;
    hide DecLoop, FieldIter.Valid, AllRequiredSeen;
    ok, slots, extensionStart, st := DecodeFields(s, iter, seen, slots, Start(fields, dest));
    if !ok {
      return;
    }
    ok := CheckRequired(iter, seen, extensionStart, slots, st);
  }

  // ----------------------------------------------------------------- defaults

  /** `pb_message_set_to_defaults`: every descriptor in turn, whatever the struct held. */
  method SetToDefaults(fields: seq<Field>, dest: seq<Slot>) returns (slots: seq<Slot>)
    requires |dest| == |fields|
    ensures slots == Defaults(fields)
    decreases fields, 2
  {
    slots := dest;
    if fields == [] {
      return;
    }
    var iter := new FieldIter(fields, 0);
    var more := true;
    while more
      invariant fresh(iter) && iter.Valid() && iter.fields == fields && |slots| == |fields|
      invariant forall k :: 0 <= k < |fields| && (more ==> k < iter.pos) ==> slots[k] == DefaultSlot(fields, k)
      decreases more, |fields| - iter.pos
    {
      var slot := SetFieldToDefault(fields, iter.pos);
      slots := slots[iter.pos := slot];
      more := iter.Next();
    }
  }

  /** `pb_field_set_to_default`: has_ flags, counts and which_ members are reset; content that is
      neither repeated nor in a oneof is initialized. */
  method SetFieldToDefault(fields: seq<Field>, i: nat) returns (slot: Slot)
    requires i < |fields|
    ensures slot == DefaultSlot(fields, i)
    decreases fields, 1
  {
    var f := fields[i];
    if f.ltype.Extension? {
      return NoExtensions;
    }
    if f.htype.Repeated? {
      return Rep([]);
    }
    if f.htype.OneOf? {
      return if Continues(fields, i) then InUnion else Union(NoMember);
    }
    var v := SetItemToDefault(f);
    return if f.HasFlag() then Opt(false, v) else Plain(v);
  }

  /** A submessage is set to its own defaults; anything else to the default pointed to, or zero. */
  method SetItemToDefault(f: Field) returns (v: Value)
    ensures v == DefaultOf(f)
    decreases f, 0
  {
    if f.ltype.Submessage? {
      if !f.ptr.SubFields? {
        return Msg([]);
      }
      var slots := SetToDefaults(f.ptr.fields, seq(|f.ptr.fields|, _ => NoExtensions));
      return Msg(slots);
    }
    if f.ptr.DefaultValue? {
      return f.ptr.v;
    }
    match f.ltype
    case Bytes => return Blob([]);
    case String => return Blob([]);
    case FixedLengthBytes => return Blob(Zeros(f.dataSize));
    case _ => return Int(0);
  }

  /** `pb_decode`. */
  method Decode(s: IStream, fields: seq<Field>, dest: seq<Slot>) returns (ok: bool, slots: seq<Slot>)
    requires s.Valid() && Countable(fields) && |dest| == |fields|
    modifies s
    ensures ReadAs(s, ok, slots, PbDecode.Decode(fields, old(s.Remaining())))
  {
    slots := SetToDefaults(fields, dest);
    ok, slots := DecodeNoinit(s, fields, slots);
  }
}
