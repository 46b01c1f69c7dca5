/** What `pb_encode` writes for a message, as a function, and what its sizing pass counts. */
module PbEncode {
  import opened ByteString
  import opened PbWire
  import opened PbSchema

  // Wire types.
  const WT_VARINT := 0
  const WT_64BIT := 1
  const WT_STRING := 2
  const WT_32BIT := 5

  // ------------------------------------------------------------------ ranges

  predicate IntSize(n: nat) {
    n == 1 || n == 2 || n == 4 || n == 8
  }

  predicate FitsSigned(x: int, bytes: nat)
    requires bytes > 0
  {
    var half: int := Pow2(8 * bytes - 1);
    -half <= x < half
  }

  predicate FitsUnsigned(x: int, bytes: nat) {
    0 <= x < Pow2(8 * bytes)
  }

  // ----------------------------------------------------------------- scalars

  function EncTag(wireType: nat, tag: nat): (s: seq<byte>)
    ensures |s| >= 1
  {
    EncVarint(tag * 8 + wireType)
  }

  function WireType(t: LType): nat {
    match t
    case Varint => WT_VARINT
    case UVarint => WT_VARINT
    case SVarint => WT_VARINT
    case Fixed32 => WT_32BIT
    case Fixed64 => WT_64BIT
    case _ => WT_STRING
  }

  /** Length of the C string in a buffer of `max` bytes that starts with `b`, then a terminator. */
  function StrNLen(b: seq<byte>, max: nat): (n: nat)
    ensures n <= |b| && n <= max
  {
    if b == [] || max == 0 || b[0] == 0 then 0 else 1 + StrNLen(b[1..], max - 1)
  }

  /** Content of one item other than a submessage, without its tag. */
  function EncScalar(f: Field, v: Value): Result<seq<byte>> {
    match f.ltype
    case Varint =>
      if IntSize(f.dataSize) && v.Int? && -(U64 / 2) <= v.x < U64 / 2 then Ok(EncVarint(ToU64(v.x))) else Error
    case UVarint =>
      if IntSize(f.dataSize) && v.Int? && 0 <= v.x < U64 then Ok(EncVarint(v.x)) else Error
    case SVarint =>
      if IntSize(f.dataSize) && v.Int? && -(U64 / 2) <= v.x < U64 / 2 then Ok(EncVarint(ZigZag(v.x))) else Error
    case Fixed32 =>
      if v.Int? && 0 <= v.x < U32 then Ok(EncFixed(v.x, 4)) else Error
    case Fixed64 =>
      if v.Int? && 0 <= v.x < U64 then Ok(EncFixed(v.x, 8)) else Error
    case Bytes =>
      if v.Blob? && |v.b| + BYTES_OFFSET <= f.dataSize then Ok(EncVarint(|v.b|) + v.b) else Error
    case String =>
      if v.Blob? then
        var n := StrNLen(v.b, f.dataSize);
        Ok(EncVarint(n) + v.b[..n])
      else Error
    case FixedLengthBytes =>
      if v.Blob? && |v.b| == f.dataSize then Ok(EncVarint(|v.b|) + v.b) else Error
    case Submessage => Error
    case Extension => Error
  }

  /** The items of a packed array, one after the other. */
  function EncPackedItems(f: Field, items: seq<Value>): Result<seq<byte>> {
    if items == [] then Ok([])
    else
      var first :- EncScalar(f, items[0]);
      var rest :- EncPackedItems(f, items[1..]);
      Ok(first + rest)
  }

  // ---------------------------------------------------------------- messages

  /** Content of one item, without its tag: a submessage is prefixed with its length. */
  function EncValue(f: Field, v: Value): Result<seq<byte>>
    decreases f, 0, 0
  {
    if f.ltype.Submessage? then
      if f.ptr.SubFields? && v.Msg? then
        var body :- EncMessage(f.ptr.fields, v.slots);
        Ok(EncVarint(|body|) + body)
      else Error
    else EncScalar(f, v)
  }

  function EncTagged(f: Field, v: Value): Result<seq<byte>>
    decreases f, 1, 0
  {
    var content :- EncValue(f, v);
    Ok(EncTag(WireType(f.ltype), f.tag) + content)
  }

  /** The items of an array that is not packed: each with a tag of its own. */
  function EncItems(f: Field, items: seq<Value>): Result<seq<byte>>
    decreases f, 2, |items|
  {
    if items == [] then Ok([])
    else
      var first :- EncTagged(f, items[0]);
      var rest :- EncItems(f, items[1..]);
      Ok(first + rest)
  }

  /** Arrays are packed whenever the type allows it. */
  function EncArray(f: Field, items: seq<Value>): Result<seq<byte>>
    decreases f, 3, 0
  {
    if items == [] then Ok([])
    else if |items| > f.arraySize then Error
    else if f.ltype.Packable() then
      var body :- EncPackedItems(f, items);
      Ok(EncTag(WT_STRING, f.tag) + EncVarint(|body|) + body)
    else EncItems(f, items)
  }

  /** Descriptor `i`: nothing at all when it is not present. A slot whose shape is not
      that of its descriptor, which the C struct cannot have, is an error. */
  function EncField(fields: seq<Field>, slots: seq<Slot>, i: nat): Result<seq<byte>>
    requires i < |fields| == |slots|
    decreases fields, 0, 0
  {
    var f := fields[i];
    if f.ltype.Extension? then Ok([])
    else match f.htype
      case Required =>
        if slots[i].Plain? then EncTagged(f, slots[i].v) else Error
      case Optional =>
        if f.HasFlag() then
          if !slots[i].Opt? then Error
          else if slots[i].has then EncTagged(f, slots[i].v) else Ok([])
        else
          if !slots[i].Plain? then Error
          else if !IsZero(f, slots[i].v) then EncTagged(f, slots[i].v) else Ok([])
      case Repeated =>
        if slots[i].Rep? then EncArray(f, slots[i].items) else Error
      case OneOf =>
        var u := slots[Head(fields, i)];
        if !u.Union? then Error
        else if u.sel.Member? && u.sel.tag == f.tag then EncTagged(f, u.sel.v) else Ok([])
  }

  function EncFrom(fields: seq<Field>, slots: seq<Slot>, i: nat): Result<seq<byte>>
    requires i <= |fields| == |slots|
    decreases fields, 1, |fields| - i
  {
    if i == |fields| then Ok([])
    else
      var first :- EncField(fields, slots, i);
      var rest :- EncFrom(fields, slots, i + 1);
      Ok(first + rest)
  }

  function EncMessage(fields: seq<Field>, slots: seq<Slot>): Result<seq<byte>>
    decreases fields, 2, 0
  {
    if |fields| != |slots| then Error else EncFrom(fields, slots, 0)
  }

  // ------------------------------------------------------- the sizing pass

  /** Bytes `pb_encode_varint` counts: one for every seven bits. */
  function VarintSize(v: nat): nat {
    if v < 128 then 1 else 1 + VarintSize(v / 128)
  }

  function TagSize(wireType: nat, tag: nat): nat {
    VarintSize(tag * 8 + wireType)
  }

  /** Counts an item as the sizing stream does, without producing its bytes. */
  function SizeScalar(f: Field, v: Value): Result<nat> {
    match f.ltype
    case Varint =>
      if IntSize(f.dataSize) && v.Int? && -(U64 / 2) <= v.x < U64 / 2 then Ok(VarintSize(ToU64(v.x))) else Error
    case UVarint =>
      if IntSize(f.dataSize) && v.Int? && 0 <= v.x < U64 then Ok(VarintSize(v.x)) else Error
    case SVarint =>
      if IntSize(f.dataSize) && v.Int? && -(U64 / 2) <= v.x < U64 / 2 then Ok(VarintSize(ZigZag(v.x))) else Error
    case Fixed32 => if v.Int? && 0 <= v.x < U32 then Ok(4) else Error
    case Fixed64 => if v.Int? && 0 <= v.x < U64 then Ok(8) else Error
    case Bytes =>
      if v.Blob? && |v.b| + BYTES_OFFSET <= f.dataSize then Ok(VarintSize(|v.b|) + |v.b|) else Error
    case String =>
      if v.Blob? then var n := StrNLen(v.b, f.dataSize); Ok(VarintSize(n) + n) else Error
    case FixedLengthBytes =>
      if v.Blob? && |v.b| == f.dataSize then Ok(VarintSize(f.dataSize) + f.dataSize) else Error
    case Submessage => Error
    case Extension => Error
  }

  function SizePackedItems(f: Field, items: seq<Value>): Result<nat> {
    if items == [] then Ok(0)
    else
      var first :- SizeScalar(f, items[0]);
      var rest :- SizePackedItems(f, items[1..]);
      Ok(first + rest)
  }

  function SizeValue(f: Field, v: Value): Result<nat>
    decreases f, 0, 0
  {
    if f.ltype.Submessage? then
      if f.ptr.SubFields? && v.Msg? then
        var size :- SizeMessage(f.ptr.fields, v.slots);
        Ok(VarintSize(size) + size)
      else Error
    else SizeScalar(f, v)
  }

  function SizeTagged(f: Field, v: Value): Result<nat>
    decreases f, 1, 0
  {
    var content :- SizeValue(f, v);
    Ok(TagSize(WireType(f.ltype), f.tag) + content)
  }

  function SizeItems(f: Field, items: seq<Value>): Result<nat>
    decreases f, 2, |items|
  {
    if items == [] then Ok(0)
    else
      var first :- SizeTagged(f, items[0]);
      var rest :- SizeItems(f, items[1..]);
      Ok(first + rest)
  }

  function SizeArray(f: Field, items: seq<Value>): Result<nat>
    decreases f, 3, 0
  {
    if items == [] then Ok(0)
    else if |items| > f.arraySize then Error
    else if f.ltype.Packable() then
      var size :- SizePackedItems(f, items);
      Ok(TagSize(WT_STRING, f.tag) + VarintSize(size) + size)
    else SizeItems(f, items)
  }

  function SizeField(fields: seq<Field>, slots: seq<Slot>, i: nat): Result<nat>
    requires i < |fields| == |slots|
    decreases fields, 0, 0
  {
    var f := fields[i];
    if f.ltype.Extension? then Ok(0)
    else match f.htype
      case Required =>
        if slots[i].Plain? then SizeTagged(f, slots[i].v) else Error
      case Optional =>
        if f.HasFlag() then
          if !slots[i].Opt? then Error
          else if slots[i].has then SizeTagged(f, slots[i].v) else Ok(0)
        else
          if !slots[i].Plain? then Error
          else if !IsZero(f, slots[i].v) then SizeTagged(f, slots[i].v) else Ok(0)
      case Repeated =>
        if slots[i].Rep? then SizeArray(f, slots[i].items) else Error
      case OneOf =>
        var u := slots[Head(fields, i)];
        if !u.Union? then Error
        else if u.sel.Member? && u.sel.tag == f.tag then SizeTagged(f, u.sel.v) else Ok(0)
  }

  function SizeFrom(fields: seq<Field>, slots: seq<Slot>, i: nat): Result<nat>
    requires i <= |fields| == |slots|
    decreases fields, 1, |fields| - i
  {
    if i == |fields| then Ok(0)
    else
      var first :- SizeField(fields, slots, i);
      var rest :- SizeFrom(fields, slots, i + 1);
      Ok(first + rest)
  }

  function SizeMessage(fields: seq<Field>, slots: seq<Slot>): Result<nat>
    decreases fields, 2, 0
  {
    if |fields| != |slots| then Error else SizeFrom(fields, slots, 0)
  }

  // ------------------------------------------------ sizing agrees with writing

  /** A size result says exactly how long the written bytes are, and fails when writing fails. */
  predicate Measures(size: Result<nat>, bytes: Result<seq<byte>>) {
    if bytes.Ok? then size == Ok(|bytes.value|) else size.Error?
  }

  lemma {:induction false} VarintSizeExact(v: nat)
    ensures VarintSize(v) == |EncVarint(v)|
  {
    if v >= 128 {
      VarintSizeExact(v / 128);
    }
  }

  lemma ScalarSizeExact(f: Field, v: Value)
    ensures Measures(SizeScalar(f, v), EncScalar(f, v))
  {
    if v.Int? {
      if -(U64 / 2) <= v.x < U64 / 2 {
        VarintSizeExact(ToU64(v.x));
        VarintSizeExact(ZigZag(v.x));
      }
      if v.x >= 0 {
        VarintSizeExact(v.x);
      }
    } else if v.Blob? {
      VarintSizeExact(|v.b|);
      VarintSizeExact(StrNLen(v.b, f.dataSize));
    }
  }

  lemma {:induction false} PackedSizeExact(f: Field, items: seq<Value>)
    ensures Measures(SizePackedItems(f, items), EncPackedItems(f, items))
  {
    if items != [] {
      ScalarSizeExact(f, items[0]);
      PackedSizeExact(f, items[1..]);
    }
  }

  lemma {:induction false} PackedIsOkIff(f: Field, items: seq<Value>)
    ensures EncPackedItems(f, items).Ok? <==> forall k :: 0 <= k < |items| ==> EncScalar(f, items[k]).Ok?
  {
    hide EncScalar;
    if items != [] {
      PackedIsOkIff(f, items[1..]);
      assert forall k :: 0 < k < |items| ==> items[k] == items[1..][k - 1];
    }
  }

  /** A packed array of fixed-width items takes 4 or 8 bytes an item. */
  lemma {:induction false} PackedFixedSize(f: Field, items: seq<Value>)
    requires f.ltype.Fixed32? || f.ltype.Fixed64?
    requires EncPackedItems(f, items).Ok?
    ensures |EncPackedItems(f, items).value| == (if f.ltype.Fixed32? then 4 else 8) * |items|
  {
    if items != [] {
      PackedFixedSize(f, items[1..]);
    }
  }

  lemma {:induction false} ValueSizeExact(f: Field, v: Value)
    ensures Measures(SizeValue(f, v), EncValue(f, v))
    decreases f, 0, 0
  {
    if f.ltype.Submessage? {
      if f.ptr.SubFields? && v.Msg? {
        MessageSizeExact(f.ptr.fields, v.slots);
        if EncMessage(f.ptr.fields, v.slots).Ok? {
          VarintSizeExact(|EncMessage(f.ptr.fields, v.slots).value|);
        }
      }
    } else {
      ScalarSizeExact(f, v);
    }
  }

  lemma {:induction false} TaggedSizeExact(f: Field, v: Value)
    ensures Measures(SizeTagged(f, v), EncTagged(f, v))
    decreases f, 1, 0
  {
    ValueSizeExact(f, v);
    VarintSizeExact(f.tag * 8 + WireType(f.ltype));
  }

  lemma {:induction false} ItemsSizeExact(f: Field, items: seq<Value>)
    ensures Measures(SizeItems(f, items), EncItems(f, items))
    decreases f, 2, |items|
  {
    if items != [] {
      TaggedSizeExact(f, items[0]);
      ItemsSizeExact(f, items[1..]);
    }
  }

  lemma {:induction false} ArraySizeExact(f: Field, items: seq<Value>)
    ensures Measures(SizeArray(f, items), EncArray(f, items))
    decreases f, 3, 0
  {
    ItemsSizeExact(f, items);
    PackedSizeExact(f, items);
    VarintSizeExact(f.tag * 8 + WT_STRING);
    if EncPackedItems(f, items).Ok? {
      VarintSizeExact(|EncPackedItems(f, items).value|);
    }
  }

  lemma {:induction false} FieldSizeExact(fields: seq<Field>, slots: seq<Slot>, i: nat)
    requires i < |fields| == |slots|
    ensures Measures(SizeField(fields, slots, i), EncField(fields, slots, i))
    decreases fields, 0, 0
  {
    var f, slot, u := fields[i], slots[i], slots[Head(fields, i)];
    if slot.Plain? || slot.Opt? {
      TaggedSizeExact(f, slot.v);
    }
    if slot.Rep? {
      ArraySizeExact(f, slot.items);
    }
    if u.Union? && u.sel.Member? {
      TaggedSizeExact(f, u.sel.v);
    }
  }

  lemma {:induction false} FromSizeExact(fields: seq<Field>, slots: seq<Slot>, i: nat)
    requires i <= |fields| == |slots|
    ensures Measures(SizeFrom(fields, slots, i), EncFrom(fields, slots, i))
    decreases fields, 1, |fields| - i
  {
    if i < |fields| {
      FieldSizeExact(fields, slots, i);
      FromSizeExact(fields, slots, i + 1);
    }
  }

  /** The first pass counts exactly the bytes the second pass writes, at every nesting
      depth, and fails exactly when the second pass would. */
  lemma {:induction false} MessageSizeExact(fields: seq<Field>, slots: seq<Slot>)
    ensures Measures(SizeMessage(fields, slots), EncMessage(fields, slots))
    decreases fields, 2, 0
  {
    if |fields| == |slots| {
      FromSizeExact(fields, slots, 0);
    }
  }
}
