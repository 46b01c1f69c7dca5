/** The output stream of nanopb and the encoder that writes to it: every method is
    proved against what `PbEncode` says is written. */
module PbOStream {
  import opened ByteString
  import opened PbWire
  import opened PbSchema
  import opened PbIter
  import opened PbEncode

  /** All groups of seven bits of a number with their top bits set, as the loop of
      `pb_encode_varint` stores them before it clears the last one. */
  function Groups(v: nat): (s: seq<byte>)
    ensures v > 0 ==> s != []
  {
    if v == 0 then [] else [v % 128 + 128] + Groups(v / 128)
  }

  lemma {:induction false} GroupsAreVarint(v: nat)
    requires v > 0
    ensures var s := Groups(v);
            s[|s| - 1] >= 128 && EncVarint(v) == s[..|s| - 1] + [s[|s| - 1] - 128]
  {
    if v >= 128 {
      GroupsAreVarint(v / 128);
      var s := Groups(v / 128);
      assert Groups(v)[..|s|] == [v % 128 + 128] + s[..|s| - 1];
    }
  }

  lemma {:induction false} GroupsLength(v: nat)
    ensures |Groups(v)| == if v == 0 then 0 else |EncVarint(v)|
  {
    if v >= 128 {
      GroupsLength(v / 128);
    }
  }

  // ------------------------------------------------- messages that fit in memory

  /** Lengths and descriptor members that the C integer types hold. */
  ghost predicate HeldValue(f: Field, v: Value)
    decreases f, 0
  {
    && f.tag < U32
    && f.dataSize < U32
    && (v.Blob? ==> |v.b| < U64)
    && (f.ltype.Submessage? && f.ptr.SubFields? && v.Msg? ==>
          && Held(f.ptr.fields, v.slots)
          && (EncMessage(f.ptr.fields, v.slots).Ok? ==> |EncMessage(f.ptr.fields, v.slots).value| < U64))
  }

  ghost predicate HeldSlot(fields: seq<Field>, slots: seq<Slot>, i: nat)
    requires i < |fields| == |slots|
    decreases fields, 0
  {
    var f, slot, u := fields[i], slots[i], slots[Head(fields, i)];
    && f.tag < U32
    && (slot.Plain? || slot.Opt? ==> HeldValue(f, slot.v))
    && (slot.Rep? ==> HeldItems(f, slot.items))
    && (u.Union? && u.sel.Member? ==> HeldValue(f, u.sel.v))
  }

  ghost predicate HeldItems(f: Field, items: seq<Value>)
    decreases f, 1
  {
    && f.tag < U32
    && f.dataSize < U32
    && (forall k :: 0 <= k < |items| ==> HeldValue(f, items[k]))
    && (EncPackedItems(f, items).Ok? ==> |EncPackedItems(f, items).value| < U64)
  }

  ghost predicate Held(fields: seq<Field>, slots: seq<Slot>)
    decreases fields, 1
  {
    |fields| == |slots| ==> forall i :: 0 <= i < |fields| ==> HeldSlot(fields, slots, i)
  }

  /** `pb_ostream_t` over a memory buffer, or, when it does not write, the sizing stream. */
  class OStream {
    const writes: bool
    const buf: array<byte>
    const start: nat
    var state: nat
    var maxSize: nat
    var bytesWritten: nat
    /** The bytes stored through this stream. */
    ghost var written: seq<byte>

    ghost predicate Valid()
      reads this, buf
    {
      writes ==>
        && bytesWritten <= maxSize
        && start <= state
        && state + (maxSize - bytesWritten) <= buf.Length
        && buf[start..state] == written
    }

    /** `pb_ostream_from_buffer`, also used for the substream of a submessage. */
    constructor OnBuffer(buf: array<byte>, start: nat, maxSize: nat)
      requires start + maxSize <= buf.Length
      ensures Valid() && writes && this.buf == buf && this.start == start && written == []
      ensures state == start && this.maxSize == maxSize && bytesWritten == 0
    {
      this.writes, this.buf, this.start := true, buf, start;
      this.state, this.maxSize, this.bytesWritten, this.written := start, maxSize, 0, [];
    }

    constructor Sizing()
      ensures Valid() && !writes && bytesWritten == 0 && fresh(buf)
    {
      writes, start, state, maxSize, bytesWritten, written := false, 0, 0, 0, 0, [];
      buf := new byte[0];
    }

    /** The effect of a writing method that is to produce `bytes`. It succeeds if and only
        if there is something to produce and it fits; then exactly those bytes are appended,
        or only counted by a sizing stream. Nothing in front of them changes. */
    twostate predicate Wrote(ok: bool, new bytes: Result<seq<byte>>)
      reads this, buf
    {
      && Valid()
      && maxSize == old(maxSize)
      && old(state) <= state
      && (forall k :: 0 <= k < old(state) && k < buf.Length ==> buf[k] == old(buf[k]))
      && (!writes ==> state == old(state) && written == old(written) && buf[..] == old(buf[..]))
      && (ok <==> bytes.Ok? && (writes ==> old(bytesWritten) + |bytes.value| <= maxSize))
      && (ok ==> bytesWritten == old(bytesWritten) + |bytes.value|)
      && (ok && writes ==>
            && written == old(written) + bytes.value
            && state == old(state) + |bytes.value|
            && forall k :: state <= k < buf.Length ==> buf[k] == old(buf[k]))
    }

    /** `pb_write`. */
    method Write(b: seq<byte>) returns (ok: bool)
      requires Valid()
      modifies this, buf
      ensures Wrote(ok, Ok(b))
    {
      if writes {
        if bytesWritten + |b| > maxSize {
          return false;
        }
        CopyIn(b);
        state := state + |b|;
        written := written + b;
      }
      bytesWritten := bytesWritten + |b|;
      return true;
    }

    /** The loop of `buf_write`. */
    method CopyIn(b: seq<byte>)
      requires state + |b| <= buf.Length
      modifies buf
      ensures buf[state..state + |b|] == b
      ensures forall k :: 0 <= k < buf.Length && !(state <= k < state + |b|) ==> buf[k] == old(buf[k])
    {
      for i := 0 to |b|
        invariant forall k :: 0 <= k < i ==> buf[state + k] == b[k]
        invariant forall k :: 0 <= k < buf.Length && !(state <= k < state + i) ==> buf[k] == old(buf[k])
      {
        buf[state + i] := b[i];
      }
    }

    /** `pb_write` of a number of bytes without content, which only a sizing stream sees. */
    method Count(n: nat)
      requires Valid() && !writes
      modifies this`bytesWritten
      ensures bytesWritten == old(bytesWritten) + n && Valid()
    {
      bytesWritten := bytesWritten + n;
    }

    method EncodeVarint(v: nat) returns (ok: bool)
      requires Valid() && v < U64
      modifies this, buf
      ensures Wrote(ok, Ok(EncVarint(v)))
    {
      if v < 128 {
        ok := Write([v]);
        return;
      }
      var groups := VarintGroups(v);
      ok := Write(groups);
    }

    static method VarintGroups(v: nat) returns (s: seq<byte>)
      requires 128 <= v < U64
      ensures s == EncVarint(v)
    {
      GroupsLength(v);
      Varint64Length(v);
      hide EncVarint, Pow2;
      var buffer := new byte[10];
      var i, value := 0, v;
      while value != 0
        invariant 0 <= i <= 10 && i + |Groups(value)| == |Groups(v)|
        invariant Groups(v) == buffer[..i] + Groups(value)
        decreases value
      {
        ghost var stored := buffer[..i];
        buffer[i] := value % 128 + 128;
        assert buffer[..i + 1] == stored + [value % 128 + 128];
        value := value / 128;
        i := i + 1;
      }
      GroupsAreVarint(v);
      hide Groups;
      assert buffer[..i] == Groups(v);
      buffer[i - 1] := buffer[i - 1] - 128;
      s := buffer[..i];
    }

    method EncodeTag(wireType: nat, tag: nat) returns (ok: bool)
      requires Valid() && tag * 8 + wireType < U64
      modifies this, buf
      ensures Wrote(ok, Ok(EncTag(wireType, tag)))
    {
      ok := EncodeVarint(tag * 8 + wireType);
    }

    /** `pb_encode_fixed32` and `pb_encode_fixed64`: the bytes of the number, low byte first. */
    method EncodeFixed(v: nat, n: nat) returns (ok: bool)
      requires Valid() && (n == 4 || n == 8)
      modifies this, buf
      ensures Wrote(ok, Ok(EncFixed(v, n)))
    {
      hide EncFixed;
      FourBytesAreFixed(v, n);
      if n == 4 {
        NoBytes(v / 0x1_0000_0000);
        ok := Write([v % 0x100, v / 0x100 % 0x100, v / 0x1_0000 % 0x100, v / 0x100_0000 % 0x100]);
      } else {
        var high := v / 0x1_0000_0000;
        FourBytesAreFixed(high, 4);
        NoBytes(high / 0x1_0000_0000);
        ok := Write([v % 0x100, v / 0x100 % 0x100, v / 0x1_0000 % 0x100, v / 0x100_0000 % 0x100,
                     high % 0x100, high / 0x100 % 0x100, high / 0x1_0000 % 0x100, high / 0x100_0000 % 0x100]);
      }
    }

    method EncodeString(b: seq<byte>) returns (ok: bool)
      requires Valid() && |b| < U64
      modifies this, buf
      ensures Wrote(ok, Ok(EncVarint(|b|) + b))
    {
      ok := EncodeVarint(|b|);
      if ok {
        ok := Write(b);
      }
    }

    /** The loop of `pb_enc_string`: where the terminator is, or the end of the buffer. */
    static method StringLength(b: seq<byte>, max: nat) returns (size: nat)
      ensures size == StrNLen(b, max)
    {
      size := 0;
      while size < max && size < |b| && b[size] != 0
        invariant size <= max && size <= |b|
        invariant StrNLen(b, max) == size + StrNLen(b[size..], max - size)
      {
        assert b[size..][1..] == b[size + 1..];
        size := size + 1;
      }
    }

    /** `pb_enc_bytes`, `pb_enc_string` and `pb_enc_fixed_length_bytes`. */
    method EncodeBlob(f: Field, v: Value) returns (ok: bool)
      requires Valid() && f.dataSize < U32
      requires f.ltype.Bytes? || f.ltype.String? || f.ltype.FixedLengthBytes?
      modifies this, buf
      ensures Wrote(ok, EncScalar(f, v))
    {
      hide EncVarint, EncFixed, StrNLen;
      match f.ltype {
        case Bytes =>
          if !v.Blob? || |v.b| + BYTES_OFFSET > f.dataSize {
            return false;  // bytes size exceeded
          }
          ok := EncodeString(v.b);
        case String =>
          if !v.Blob? {
            return false;
          }
          var n := StringLength(v.b, f.dataSize);
          ok := EncodeString(v.b[..n]);
        case FixedLengthBytes =>
          if !v.Blob? || |v.b| != f.dataSize {
            return false;
          }
          ok := EncodeString(v.b);
      }
    }

    /** The encoder of `PB_ENCODERS` for an item other than a submessage. */
    method EncodeScalar(f: Field, v: Value) returns (ok: bool)
      requires Valid() && f.dataSize < U32
      modifies this, buf
      ensures Wrote(ok, EncScalar(f, v))
    {
      if f.ltype.Bytes? || f.ltype.String? || f.ltype.FixedLengthBytes? {
        ok := EncodeBlob(f, v);
        return;
      }
      hide EncVarint, EncFixed, StrNLen, Wrote;
      match f.ltype {
        case Varint =>
          if !IntSize(f.dataSize) || !v.Int? || !(-(U64 / 2) <= v.x < U64 / 2) {
            return false;  // invalid data_size
          }
          ok := EncodeVarint(ToU64(v.x));
        case UVarint =>
          if !IntSize(f.dataSize) || !v.Int? || !(0 <= v.x < U64) {
            return false;  // invalid data_size
          }
          ok := EncodeVarint(v.x);
        case SVarint =>
          if !IntSize(f.dataSize) || !v.Int? || !(-(U64 / 2) <= v.x < U64 / 2) {
            return false;  // invalid data_size
          }
          ok := EncodeVarint(ZigZag(v.x));
        case Fixed32 =>
          if !v.Int? || !(0 <= v.x < U32) {
            return false;
          }
          ok := EncodeFixed(v.x, 4);
        case Fixed64 =>
          if !v.Int? || !(0 <= v.x < U64) {
            return false;
          }
          ok := EncodeFixed(v.x, 8);
        case _ =>
          return false;
      }
    }

    /** `pb_encode_tag_for_field`. */
    method EncodeTagForField(f: Field) returns (ok: bool)
      requires Valid() && f.tag < U32
      modifies this, buf
      ensures Wrote(ok, Ok(EncTag(WireType(f.ltype), f.tag)))
    {
      ok := EncodeTag(WireType(f.ltype), f.tag);
    }

    method EncodePackedItems(f: Field, items: seq<Value>) returns (ok: bool)
      requires Valid() && f.dataSize < U32 && f.ltype.Packable()
      modifies this, buf
      ensures Wrote(ok, EncPackedItems(f, items))
    {
      hide EncScalar, Rest;
      ghost var done: seq<byte> := [];
      assert items[0..] == items;
      RestStart(EncPackedItems(f, items));
      for i := 0 to |items|
        invariant Wrote(true, Ok(done))
        invariant Rest(EncPackedItems(f, items), done, EncPackedItems(f, items[i..]))
      {
        assert items[i..][1..] == items[i + 1..];
        RestStep(EncPackedItems(f, items), done, EncPackedItems(f, items[i..]),
                 EncScalar(f, items[i]), EncPackedItems(f, items[i + 1..]));
        ok := EncodeScalar(f, items[i]);
        if !ok {
          return;
        }
        done := done + EncScalar(f, items[i]).value;
      }
      RestDone(EncPackedItems(f, items), done);
      return true;
    }

    /** The entries of an array that is not packed. */
    method EncodeItems(f: Field, items: seq<Value>) returns (ok: bool)
      requires Valid() && HeldItems(f, items)
      modifies this, buf
      ensures Wrote(ok, EncItems(f, items))
      decreases f, 3, 0
    {
      hide EncTagged, Rest, HeldValue;
      ghost var done: seq<byte> := [];
      assert items[0..] == items;
      RestStart(EncItems(f, items));
      for i := 0 to |items|
        invariant Wrote(true, Ok(done))
        invariant Rest(EncItems(f, items), done, EncItems(f, items[i..]))
      {
        assert items[i..][1..] == items[i + 1..];
        RestStep(EncItems(f, items), done, EncItems(f, items[i..]),
                 EncTagged(f, items[i]), EncItems(f, items[i + 1..]));
        ok := EncodeTagged(f, items[i]);
        if !ok {
          return;
        }
        done := done + EncTagged(f, items[i]).value;
      }
      RestDone(EncItems(f, items), done);
      return true;
    }

    /** A tag and the item behind it. */
    method EncodeTagged(f: Field, v: Value) returns (ok: bool)
      requires Valid() && HeldValue(f, v)
      modifies this, buf
      ensures Wrote(ok, EncTagged(f, v))
      decreases f, 2, 0
    {
      ok := EncodeTagForField(f);
      if ok {
        ok := EncodeValue(f, v);
      }
    }

    /** Calls the encoder of the field's type. */
    method EncodeValue(f: Field, v: Value) returns (ok: bool)
      requires Valid() && HeldValue(f, v)
      modifies this, buf
      ensures Wrote(ok, EncValue(f, v))
      decreases f, 1, 0
    {
      if f.ltype.Submessage? {
        if !f.ptr.SubFields? || !v.Msg? {
          return false;  // invalid field descriptor
        }
        ok := EncodeSubmessage(f.ptr.fields, v.slots);
      } else {
        ok := EncodeScalar(f, v);
      }
    }

    /** `encode_array`: a packed array is sized first, fixed-width items by multiplication. */
    method EncodeArray(f: Field, items: seq<Value>) returns (ok: bool)
      requires Valid() && HeldItems(f, items)
      modifies this, buf
      ensures Wrote(ok, EncArray(f, items))
      decreases f, 4, 0
    {
      if items == [] {
        return true;
      }
      if |items| > f.arraySize {
        return false;  // array max size exceeded
      }
      if f.ltype.Packable() {
        ok := EncodePacked(f, items);
      } else {
        ok := EncodeItems(f, items);
      }
    }

    method EncodePacked(f: Field, items: seq<Value>) returns (ok: bool)
      requires Valid() && HeldItems(f, items) && f.ltype.Packable()
      requires 0 < |items| <= f.arraySize
      modifies this, buf
      ensures Wrote(ok, EncArray(f, items))
    {
      hide EncVarint, EncPackedItems;
      ghost var body := EncPackedItems(f, items);
      ok := EncodeTag(WT_STRING, f.tag);
      if !ok {
        return;
      }
      var sized, size := PackedSize(f, items);
      if !sized {
        return false;
      }
      ok := EncodeVarint(size);
      if !ok {
        return;
      }
      if !writes {
        Count(size);
        return true;
      }
      ok := EncodePackedItems(f, items);
    }

    /** How much a packed array takes: fixed-width items by multiplication, others by a sizing stream. */
    static method PackedSize(f: Field, items: seq<Value>) returns (ok: bool, size: nat)
      requires f.dataSize < U32 && f.ltype.Packable()
      ensures ok == EncPackedItems(f, items).Ok?
      ensures ok ==> size == |EncPackedItems(f, items).value|
    {
      if f.ltype.Fixed32? || f.ltype.Fixed64? {
        PackedIsOkIff(f, items);
        // The array of the struct holds nothing but such numbers.
        ok := forall k :: 0 <= k < |items| ==> EncScalar(f, items[k]).Ok?;
        size := (if f.ltype.Fixed32? then 4 else 8) * |items|;
        if ok {
          PackedFixedSize(f, items);
        }
        return;
      }
      var sizing := new OStream.Sizing();
      ok := sizing.EncodePackedItems(f, items);
      size := sizing.bytesWritten;
    }

    /** `encode_basic_field`. */
    method EncodeField(fields: seq<Field>, slots: seq<Slot>, i: nat) returns (ok: bool)
      requires Valid() && i < |fields| == |slots| && HeldSlot(fields, slots, i)
      modifies this, buf
      ensures Wrote(ok, EncField(fields, slots, i))
      decreases fields, 0, 0
    {
      var f, slot := fields[i], slots[i];
      if f.ltype.Extension? {
        return true;  // No extension is registered.
      }
      match f.htype {
        case Required =>
          if !slot.Plain? {
            return false;
          }
          ok := EncodeTagged(f, slot.v);
        case Optional =>
          var present: bool;
          if f.sizeOffset != 0 {
            if !slot.Opt? {
              return false;
            }
            present := slot.has;
          } else {
            if !slot.Plain? {
              return false;
            }
            present := !IsZero(f, slot.v);
          }
          if !present {
            return true;
          }
          ok := EncodeTagged(f, slot.v);
        case Repeated =>
          if !slot.Rep? {
            return false;
          }
          ok := EncodeArray(f, slot.items);
        case OneOf =>
          var u := slots[Head(fields, i)];
          if !u.Union? {
            return false;
          }
          if u.sel.NoMember? || u.sel.tag != f.tag {
            return true;
          }
          ok := EncodeTagged(f, u.sel.v);
      }
    }

    /** `pb_encode`: one field after the other, as the iterator shows them. */
    method Encode(fields: seq<Field>, slots: seq<Slot>) returns (ok: bool)
      requires Valid() && |fields| == |slots| && Held(fields, slots)
      modifies this, buf
      ensures Wrote(ok, EncMessage(fields, slots))
      decreases fields, 2, 0
    {
      if fields == [] {
        return true;
      }
      ghost var whole := EncMessage(fields, slots);
      var iter := new FieldIter(fields, 0);
      ghost var done: seq<byte> := [];
      RestStart(whole);
      hide EncField, Rest, EncMessage, HeldSlot;
      var more := true;
      while more
        invariant Wrote(true, Ok(done))
        invariant fresh(iter) && iter.Valid() && iter.fields == fields
        invariant more ==> Rest(whole, done, EncFrom(fields, slots, iter.pos))
        invariant !more ==> whole == Ok(done)
        decreases more, |fields| - iter.pos
      {
        ghost var i := iter.pos;
        RestStep(whole, done, EncFrom(fields, slots, i), EncField(fields, slots, i), EncFrom(fields, slots, i + 1));
        ok := EncodeField(fields, slots, iter.pos);
        if !ok {
          return;
        }
        done := done + EncField(fields, slots, i).value;
        more := iter.Next();
        if !more {
          RestDone(whole, done);
        }
      }
      return true;
    }

    /** `pb_encode_submessage`: a first pass sizes the message, a second one writes it
        through a substream that has room for exactly that size. */
    method EncodeSubmessage(fields: seq<Field>, slots: seq<Slot>) returns (ok: bool)
      requires Valid() && Held(fields, slots)
      requires EncMessage(fields, slots).Ok? ==> |EncMessage(fields, slots).value| < U64
      modifies this, buf
      ensures Wrote(ok, Prefixed(EncMessage(fields, slots)))
      decreases fields, 3, 0
    {
      if |fields| != |slots| {
        return false;
      }
      hide EncVarint, EncMessage, Held;
      var sizing := new OStream.Sizing();
      ok := sizing.Encode(fields, slots);
      if !ok {
        return;
      }
      var size := sizing.bytesWritten;
      ok := EncodeVarint(size);
      if !ok {
        return;
      }
      if !writes {
        Count(size);
        return true;
      }
      if bytesWritten + size > maxSize {
        return false;  // stream full
      }
      ok := WriteBody(fields, slots, size);
    }

    /** The second pass. That it writes as much as the first one counted is proved, so the
        "submsg size changed" error never occurs. */
    method WriteBody(fields: seq<Field>, slots: seq<Slot>, size: nat) returns (ok: bool)
      requires Valid() && writes && Held(fields, slots) && |fields| == |slots|
      requires EncMessage(fields, slots).Ok? && size == |EncMessage(fields, slots).value|
      requires bytesWritten + size <= maxSize
      modifies this, buf
      ensures ok && Wrote(ok, EncMessage(fields, slots))
      decreases fields, 2, 1
    {
      hide EncMessage, Held;
      var sub := new OStream.OnBuffer(buf, state, size);
      var status := sub.Encode(fields, slots);
      Adopt(sub);
      ok := sub.bytesWritten == size && status;
    }

    /** Takes over what was written through a substream that started where this stream stands. */
    method Adopt(sub: OStream)
      requires writes && start <= state <= buf.Length && buf[start..state] == written
      requires sub != this && sub.writes && sub.buf == buf && sub.start == state && sub.Valid()
      modifies this`state, this`bytesWritten, this`written
      ensures state == sub.state && bytesWritten == old(bytesWritten) + sub.bytesWritten
      ensures written == old(written) + sub.written && buf[start..state] == written
    {
      assert buf[start..sub.state] == buf[start..state] + buf[state..sub.state];
      bytesWritten := bytesWritten + sub.bytesWritten;
      state := sub.state;
      written := written + sub.written;
    }
  }

  /** `pb_get_encoded_size`: what a sizing stream counts is what a writing one stores. */
  method GetEncodedSize(fields: seq<Field>, slots: seq<Slot>) returns (ok: bool, size: nat)
    requires |fields| == |slots| && Held(fields, slots)
    ensures ok == EncMessage(fields, slots).Ok?
    ensures ok ==> size == |EncMessage(fields, slots).value|
  {
    hide EncMessage, Held;
    var stream := new OStream.Sizing();
    size := 0;
    ok := stream.Encode(fields, slots);
    if ok {
      size := stream.bytesWritten;
    }
  }

  /** `whole` is `done` followed by `rest`, or fails because `rest` does. */
  ghost predicate Rest(whole: Result<seq<byte>>, done: seq<byte>, rest: Result<seq<byte>>) {
    whole == if rest.Ok? then Ok(done + rest.value) else Error
  }

  lemma RestStart(whole: Result<seq<byte>>)
    ensures Rest(whole, [], whole)
  {
    if whole.Ok? {
      assert [] + whole.value == whole.value;
    }
  }

  lemma RestStep(whole: Result<seq<byte>>, done: seq<byte>, rest: Result<seq<byte>>,
                 first: Result<seq<byte>>, more: Result<seq<byte>>)
    requires Rest(whole, done, rest)
    requires rest == if first.Ok? && more.Ok? then Ok(first.value + more.value) else Error
    ensures first.Ok? ==> Rest(whole, done + first.value, more)
    ensures whole.Ok? ==> first.Ok? && |done| + |first.value| <= |whole.value|
  {
    if rest.Ok? {
      assert done + (first.value + more.value) == done + first.value + more.value;
    }
  }

  lemma RestDone(whole: Result<seq<byte>>, done: seq<byte>)
    requires Rest(whole, done, Ok([]))
    ensures whole == Ok(done)
  {
    assert done + [] == done;
  }

  function Prefixed(body: Result<seq<byte>>): Result<seq<byte>> {
    if body.Ok? then Ok(EncVarint(|body.value|) + body.value) else Error
  }

  /** Four bytes of a number, each by its own shift. */
  function FourBytes(v: nat): (s: seq<byte>)
    ensures |s| == 4
  {
    [v % 0x100, v / 0x100 % 0x100, v / 0x1_0000 % 0x100, v / 0x100_0000 % 0x100]
  }

  lemma NoBytes(v: nat)
    ensures EncFixed(v, 0) == []
  {
  }

  lemma ShiftTwice(v: nat)
    ensures v / 0x100 / 0x100 == v / 0x1_0000
    ensures v / 0x1_0000 / 0x100 == v / 0x100_0000
    ensures v / 0x100_0000 / 0x100 == v / 0x1_0000_0000
  {
  }

  lemma FourBytesAreFixed(v: nat, n: nat)
    requires n >= 4
    ensures EncFixed(v, n) == FourBytes(v) + EncFixed(v / 0x1_0000_0000, n - 4)
  {
    ShiftTwice(v);
    assert EncFixed(v, n) == [v % 0x100] + EncFixed(v / 0x100, n - 1);
    assert EncFixed(v / 0x100, n - 1) == [v / 0x100 % 0x100] + EncFixed(v / 0x1_0000, n - 2);
    assert EncFixed(v / 0x1_0000, n - 2) == [v / 0x1_0000 % 0x100] + EncFixed(v / 0x100_0000, n - 3);
    assert EncFixed(v / 0x100_0000, n - 3) == [v / 0x100_0000 % 0x100] + EncFixed(v / 0x1_0000_0000, n - 4);
  }
}
