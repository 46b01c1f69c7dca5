/** What `pb_decode` does with a byte sequence, as functions: reading single values,
    skipping fields, and merging whole messages into existing content. */
module PbDecode {
  import opened ByteString
  import opened PbWire
  import opened PbSchema
  import opened PbIter
  import opened PbEncode

  /** A value read, and the bytes behind it. */
  datatype Read<+T> = Read(value: T, rest: seq<byte>)

  // ------------------------------------------------------------ raw reading

  function Take(s: seq<byte>, n: nat): (r: Result<Read<seq<byte>>>)
    ensures r.Ok? ==> |r.value.rest| <= |s|
  {
    if |s| < n then Error else Ok(Read(s[..n], s[n..]))
  }

  /** The content of a length-prefixed field: the substream, and what follows it. */
  function TakeString(s: seq<byte>): (r: Result<Read<seq<byte>>>)
    ensures r.Ok? ==> |r.value.value| + |r.value.rest| < |s|
  {
    match DecVarint32(s)
    case VFail(_) => Error
    case VOk(size, rest) => Take(rest, size)
  }

  function SkipVarint(s: seq<byte>): (r: Result<seq<byte>>)
    ensures r.Ok? ==> |r.value| < |s|
  {
    if s == [] then Error else if s[0] < 128 then Ok(s[1..]) else SkipVarint(s[1..])
  }

  /** Skips the content of a field nobody knows, by its wire type alone. */
  function SkipField(wireType: nat, s: seq<byte>): (r: Result<seq<byte>>)
    ensures r.Ok? ==> |r.value| < |s|
  {
    if wireType == WT_VARINT then SkipVarint(s)
    else if wireType == WT_64BIT then if |s| < 8 then Error else Ok(s[8..])
    else if wireType == WT_STRING then
      var content :- TakeString(s);
      Ok(content.rest)
    else if wireType == WT_32BIT then if |s| < 4 then Error else Ok(s[4..])
    else Error
  }

  // ----------------------------------------------------------- single values

  /** Narrowing to the size of the field: an error when it changes the number. */
  function NarrowSigned(x: int, dataSize: nat, rest: seq<byte>): (r: Result<Read<Value>>)
    ensures r.Ok? ==> r.value.rest == rest
  {
    if IntSize(dataSize) && FitsSigned(x, dataSize) then Ok(Read(Int(x), rest)) else Error
  }

  function NarrowUnsigned(x: nat, dataSize: nat, rest: seq<byte>): (r: Result<Read<Value>>)
    ensures r.Ok? ==> r.value.rest == rest
  {
    if IntSize(dataSize) && FitsUnsigned(x, dataSize) then Ok(Read(Int(x), rest)) else Error
  }

  /** One item other than a submessage. */
  function DecScalar(f: Field, s: seq<byte>): (r: Result<Read<Value>>)
    ensures r.Ok? ==> |r.value.rest| < |s|
  {
    match f.ltype
    case Varint =>
      (match DecVarint64(s)
       case VFail(_) => Error
       case VOk(v, rest) =>
         // Fields of up to 32 bits accept negative numbers sent as 32-bit ones.
         NarrowSigned(AsSigned(v, if f.dataSize == 8 then 64 else 32), f.dataSize, rest))
    case UVarint =>
      (match DecVarint64(s)
       case VFail(_) => Error
       case VOk(v, rest) => NarrowUnsigned(v, f.dataSize, rest))
    case SVarint =>
      (match DecVarint64(s)
       case VFail(_) => Error
       case VOk(v, rest) => NarrowSigned(UnZigZag(v), f.dataSize, rest))
    case Fixed32 =>
      if |s| < 4 then Error else Ok(Read(Int(DecFixed(s[..4])), s[4..]))
    case Fixed64 =>
      if |s| < 8 then Error else Ok(Read(Int(DecFixed(s[..8])), s[8..]))
    case Bytes =>
      (match DecVarint32(s)
       case VFail(_) => Error
       case VOk(size, rest) =>
         if size + BYTES_OFFSET > f.dataSize then Error
         else
           var b :- Take(rest, size);
           Ok(Read(Blob(b.value), b.rest)))
    case String =>
      (match DecVarint32(s)
       case VFail(_) => Error
       case VOk(size, rest) =>
         // Room for the terminator; the sum is a 32-bit one.
         var needed := (size + 1) % U32;
         if needed < size || needed > f.dataSize then Error
         else
           var b :- Take(rest, size);
           Ok(Read(Blob(b.value), b.rest)))
    case FixedLengthBytes =>
      (match DecVarint32(s)
       case VFail(_) => Error
       case VOk(size, rest) =>
         if size == 0 then Ok(Read(Blob(Zeros(f.dataSize)), rest))
         else if size != f.dataSize then Error
         else
           var b :- Take(rest, size);
           Ok(Read(Blob(b.value), b.rest)))
    case Submessage => Error
    case Extension => Error
  }

  /** A packed array: items are added while there are bytes and room; bytes left over are an error. */
  function DecPacked(f: Field, items: seq<Value>, s: seq<byte>): Result<seq<Value>>
    decreases |s|
  {
    if s == [] then Ok(items)
    else if |items| >= f.arraySize then Error
    else
      var item :- DecScalar(f, s);
      DecPacked(f, items + [item.value], item.rest)
  }

  // ---------------------------------------------------------------- messages

  /** The state of the decoding loop: the content so far, which required fields were
      seen, where the iterator rests, and the least tag an extension can have. */
  datatype State = State(slots: seq<Slot>, seen: set<nat>, pos: nat, extensionStart: nat)

  predicate StateFor(fields: seq<Field>, st: State) {
    |st.slots| == |fields| && (fields != [] ==> st.pos < |fields|)
  }

  function Start(fields: seq<Field>, slots: seq<Slot>): (st: State)
    requires |slots| == |fields|
    ensures StateFor(fields, st)
  {
    State(slots, {}, 0, 0)
  }

  /** One turn of the loop: the end of the message, an error, or a field consumed. */
  datatype Turn = End(rest: seq<byte>) | Failed | More(st: State, rest: seq<byte>)

  /** Marks a required field as seen, unless its number is beyond the bitmap. */
  function MarkSeen(fields: seq<Field>, i: nat, seen: set<nat>): set<nat>
    requires i < |fields|
  {
    if fields[i].htype.Required? && RequiredBefore(fields, i) < MAX_REQUIRED
    then seen + {RequiredBefore(fields, i)} else seen
  }

  /** Looking for an extension placeholder moves the iterator; no extension is registered. */
  function NoteUnknown(fields: seq<Field>, st: State, tag: nat): (st': State)
    requires StateFor(fields, st)
    ensures StateFor(fields, st') && st'.slots == st.slots && st'.seen == st.seen
  {
    if fields == [] || tag < st.extensionStart then st
    else match SearchExtension(fields, st.pos, |fields|)
      case Error => st.(extensionStart := U32 - 1)
      case Ok(e) => st.(extensionStart := fields[e].tag, pos := e)
  }

  /** One item; a submessage is merged into what `prior` holds. */
  function DecValue(f: Field, prior: Value, s: seq<byte>): (r: Result<Read<Value>>)
    ensures r.Ok? ==> |r.value.rest| < |s|
    decreases |s|, 0
  {
    if f.ltype.Submessage? then
      var body :- TakeString(s);
      if f.ptr.SubFields? && prior.Msg? then
        var slots :- DecMessage(f.ptr.fields, prior.slots, body.value);
        Ok(Read(Msg(slots), body.rest))
      else Error
    else DecScalar(f, s)
  }

  /** The content of descriptor `i`. Only arrays look at the wire type. */
  function DecField(fields: seq<Field>, slots: seq<Slot>, i: nat, wireType: nat, s: seq<byte>)
    : (r: Result<Read<seq<Slot>>>)
    requires i < |fields| == |slots|
    ensures r.Ok? ==> |r.value.rest| < |s| && |r.value.value| == |slots|
    decreases |s|, 1
  {
    var f, slot := fields[i], slots[i];
    match f.htype
    case Required =>
      if !slot.Plain? then Error
      else
        var v :- DecValue(f, slot.v, s);
        Ok(Read(slots[i := Plain(v.value)], v.rest))
    case Optional =>
      if f.HasFlag() then
        if !slot.Opt? then Error
        else
          var v :- DecValue(f, slot.v, s);
          Ok(Read(slots[i := Opt(true, v.value)], v.rest))
      else
        if !slot.Plain? then Error
        else
          var v :- DecValue(f, slot.v, s);
          Ok(Read(slots[i := Plain(v.value)], v.rest))
    case Repeated =>
      if !slot.Rep? then Error
      else if wireType == WT_STRING && f.ltype.Packable() then
        var body :- TakeString(s);
        var items :- DecPacked(f, slot.items, body.value);
        Ok(Read(slots[i := Rep(items)], body.rest))
      else if |slot.items| >= f.arraySize then Error
      else
        // A new array entry starts from the defaults.
        var v :- DecValue(f, DefaultOf(f), s);
        Ok(Read(slots[i := Rep(slot.items + [v.value])], v.rest))
    case OneOf =>
      var h := Head(fields, i);
      if !slots[h].Union? then Error
      else
        // A submessage in a union always starts from the defaults.
        var v :- DecValue(f, DefaultOf(f), s);
        Ok(Read(slots[h := Union(Member(f.tag, v.value))], v.rest))
  }

  /** One turn of the loop of `pb_decode_noinit`. A key of zero ends the message, and so
      does a key that cannot be read when nothing is left behind it. */
  function DecTurn(fields: seq<Field>, st: State, s: seq<byte>): (t: Turn)
    requires StateFor(fields, st)
    ensures t.More? ==> |t.rest| < |s| && StateFor(fields, t.st)
    ensures t.End? ==> |t.rest| <= |s|
    decreases |s|, 2
  {
    if s == [] then End([])
    else match DecVarint32(s)
      case VFail(rest) => if rest == [] then End([]) else Failed
      case VOk(key, rest) =>
        var tag, wireType := key / 8, key % 8;
        if key == 0 then End(rest)
        else if fields == [] && tag == 0 then Failed  // The terminator has no valid content.
        else
          var found := if fields == [] then Error else Find(fields, st.pos, tag);
          match found
          case Error =>
            (match SkipField(wireType, rest)
             case Error => Failed
             case Ok(rest') => More(NoteUnknown(fields, st, tag), rest'))
          case Ok(i) =>
            (match DecField(fields, st.slots, i, wireType, rest)
             case Error => Failed
             case Ok(d) => More(st.(slots := d.value, seen := MarkSeen(fields, i, st.seen), pos := i), d.rest))
  }

  function DecLoop(fields: seq<Field>, st: State, s: seq<byte>): (r: Result<Read<State>>)
    requires StateFor(fields, st)
    ensures r.Ok? ==> |r.value.rest| <= |s| && StateFor(fields, r.value.value)
    decreases |s|, 3
  {
    match DecTurn(fields, st, s)
    case End(rest) => Ok(Read(st, rest))
    case Failed => Error
    case More(st', rest) => DecLoop(fields, st', rest)
  }

  predicate AllRequiredSeen(fields: seq<Field>, seen: set<nat>) {
    forall k :: 0 <= k < RequiredBefore(fields, |fields|) ==> k in seen
  }

  /** `pb_decode_noinit`, with what it leaves unread. */
  function DecRead(fields: seq<Field>, slots: seq<Slot>, s: seq<byte>): (r: Result<Read<seq<Slot>>>)
    ensures r.Ok? ==> |r.value.value| == |fields| && |r.value.rest| <= |s|
    decreases |s|, 4
  {
    if |slots| != |fields| then Error
    else
      var end :- DecLoop(fields, Start(fields, slots), s);
      if AllRequiredSeen(fields, end.value.seen) then Ok(Read(end.value.slots, end.rest)) else Error
  }

  /** A nested message: what it leaves unread of its substream is skipped. */
  function DecMessage(fields: seq<Field>, slots: seq<Slot>, s: seq<byte>): (r: Result<seq<Slot>>)
    ensures r.Ok? ==> |r.value| == |fields|
    decreases |s|, 5
  {
    var d :- DecRead(fields, slots, s);
    Ok(d.value)
  }

  /** `pb_decode`: the content starts from the defaults. */
  function Decode(fields: seq<Field>, s: seq<byte>): Result<Read<seq<Slot>>> {
    DecRead(fields, Defaults(fields), s)
  }
}
