/** Message types and message contents of nanopb: the field descriptors the
    generator emits, the struct they describe as a tree of values, and its defaults. */
module PbSchema {
  import opened ByteString
  import opened PbWire

  /** PB_SIZE_MAX for the 32-bit `pb_size_t` the project is built with; as a
      data offset it marks a further member of the same union. */
  const PB_SIZE_MAX: nat := U32 - 1
  /** Offset of the bytes in a `pb_bytes_array_t`. */
  const BYTES_OFFSET: nat := 4
  /** Required fields beyond this many are not tracked. */
  const MAX_REQUIRED: nat := 64

  datatype Result<+T> = Ok(value: T) | Error {
    predicate IsFailure() { Error? }
    function PropagateFailure<U>(): Result<U>
      requires Error?
    {
      Error
    }
    function Extract(): T
      requires Ok?
    {
      value
    }
  }

  datatype LType = Varint | UVarint | SVarint | Fixed32 | Fixed64
                 | Bytes | String | Submessage | Extension | FixedLengthBytes
  {
    /** LTYPE up to LAST_PACKABLE. */
    predicate Packable() {
      Varint? || UVarint? || SVarint? || Fixed32? || Fixed64?
    }
  }

  datatype HType = Required | Optional | Repeated | OneOf

  datatype Ptr = NoPtr | SubFields(fields: seq<Field>) | DefaultValue(v: Value)

  /** One `pb_field_t` of static allocation. */
  datatype Field = Field(tag: nat, ltype: LType, htype: HType, dataOffset: nat, sizeOffset: int,
                         dataSize: nat, arraySize: nat, ptr: Ptr)
  {
    /** An optional field with a has_ flag of its own. */
    predicate HasFlag() {
      htype.Optional? && sizeOffset != 0
    }

    /** A proto3 field: optional, present when it is not zero. */
    predicate Singular() {
      htype.Optional? && sizeOffset == 0
    }
  }

  /** The content of one item. A string is the bytes in front of its terminator. */
  datatype Value = Int(x: int) | Blob(b: seq<byte>) | Msg(slots: seq<Slot>)

  datatype Selection = NoMember | Member(tag: nat, v: Value)

  /** What the struct holds for one descriptor. The first descriptor of a union holds
      the union (its which_ tag and content), the others hold nothing of their own. */
  datatype Slot = Plain(v: Value)
                | Opt(has: bool, v: Value)
                | Rep(items: seq<Value>)
                | Union(sel: Selection)
                | InUnion
                | NoExtensions

  // ------------------------------------------------------------------ unions

  /** Descriptor `i` is a further member of the union of descriptor `i - 1`. */
  predicate Continues(fields: seq<Field>, i: nat)
    requires i < |fields|
  {
    && i > 0
    && fields[i - 1].htype.OneOf?
    && fields[i].htype.OneOf?
    && fields[i].dataOffset == PB_SIZE_MAX
  }

  /** The descriptor whose slot holds the content of descriptor `i`. */
  function Head(fields: seq<Field>, i: nat): (h: nat)
    requires i < |fields|
    ensures h <= i
    ensures !Continues(fields, h)
    ensures fields[h].htype.OneOf? <==> fields[i].htype.OneOf?
    ensures !fields[i].htype.OneOf? ==> h == i
  {
    if Continues(fields, i) then Head(fields, i - 1) else i
  }

  // ---------------------------------------------------------------- defaults

  function Zeros(n: nat): (s: seq<byte>)
    ensures |s| == n
  {
    seq(n, _ => 0)
  }

  /** A field as `pb_field_set_to_default` leaves it: the default pointed to, or zero. */
  function DefaultOf(f: Field): Value
    decreases f, 0
  {
    match f.ltype
    case Submessage => Msg(if f.ptr.SubFields? then Defaults(f.ptr.fields) else [])
    case Bytes => if f.ptr.DefaultValue? then f.ptr.v else Blob([])
    case String => if f.ptr.DefaultValue? then f.ptr.v else Blob([])
    case FixedLengthBytes => if f.ptr.DefaultValue? then f.ptr.v else Blob(Zeros(f.dataSize))
    case _ => if f.ptr.DefaultValue? then f.ptr.v else Int(0)
  }

  function DefaultSlot(fields: seq<Field>, i: nat): Slot
    requires i < |fields|
    decreases fields, 0
  {
    var f := fields[i];
    if f.ltype.Extension? then NoExtensions
    else if f.HasFlag() then Opt(false, DefaultOf(f))
    else match f.htype
      case Repeated => Rep([])
      case OneOf => if Continues(fields, i) then InUnion else Union(NoMember)
      case _ => Plain(DefaultOf(f))
  }

  /** A whole message as `pb_message_set_to_defaults` leaves it. */
  function Defaults(fields: seq<Field>): (slots: seq<Slot>)
    ensures |slots| == |fields|
    decreases fields, 1
  {
    seq(|fields|, i requires 0 <= i < |fields| => DefaultSlot(fields, i))
  }

  // ------------------------------------------------------- required fields

  /** How many of the first `n` descriptors are required ones. */
  function RequiredBefore(fields: seq<Field>, n: nat): (c: nat)
    requires n <= |fields|
    ensures c <= n
  {
    if n == 0 then 0
    else RequiredBefore(fields, n - 1) + if fields[n - 1].htype.Required? then 1 else 0
  }

  /** The bitmap test of the decoder is defined: the word index is inside the
      two-word array and the shift is by less than 32. */
  predicate CountDefined(fields: seq<Field>)
  {
    var n := RequiredBefore(fields, |fields|);
    n == 0 || (n < MAX_REQUIRED && n % 32 != 0)
  }

  // ------------------------------------------------------------ the zero test

  /** `pb_check_proto3_default_value` for fields other than submessages. */
  predicate IsZero(f: Field, v: Value)
  {
    match f.ltype
    case Bytes => v.Blob? && v.b == []
    case String => v.Blob? && (v.b == [] || v.b[0] == 0)
    case FixedLengthBytes => f.dataSize == 0
    case _ => v == Int(0)
  }
}
