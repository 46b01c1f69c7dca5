/** What the codec refuses: numbers that do not fit their field, content that does not fit its
    buffer, arrays that are too long, and messages in which a required field is missing. */
module PbLimits {
  import opened ByteString
  import opened PbWire
  import opened PbSchema
  import opened PbIter
  import opened PbEncode
  import opened PbDecode
  import opened PbRoundTrip

  // ------------------------------------------------------------------- numbers

  /** An unsigned number is read if and only if it fits the width of its field. */
  lemma UnsignedFitsIff(f: Field, v: nat, t: seq<byte>)
    requires f.ltype.UVarint? && IntSize(f.dataSize) && v < U64
    ensures DecScalar(f, EncVarint(v) + t)
         == if v < Pow2(8 * f.dataSize) then Ok(Read(Int(v), t)) else Error
  {
    Varint64RoundTrip(v, t);
  }

  /** So is a zigzag number. */
  lemma ZigZagFitsIff(f: Field, x: int, t: seq<byte>)
    requires f.ltype.SVarint? && IntSize(f.dataSize) && -(U64 / 2) <= x < U64 / 2
    ensures var half: int := Pow2(8 * f.dataSize - 1);
            DecScalar(f, EncVarint(ZigZag(x)) + t) == if -half <= x < half then Ok(Read(Int(x), t)) else Error
  {
    Varint64RoundTrip(ZigZag(x), t);
    ZigZagRoundTrip(x);
  }

  /** A plain signed number of 64 bits is always read. */
  lemma SignedIsRead(f: Field, x: int, t: seq<byte>)
    requires f.ltype.Varint? && f.dataSize == 8 && -(U64 / 2) <= x < U64 / 2
    ensures DecScalar(f, EncVarint(ToU64(x)) + t) == Ok(Read(Int(x), t))
  {
    Powers();
    hide Pow2;
    Varint64RoundTrip(ToU64(x), t);
    WrapSigned(x, 0);
  }

  /** Of one for a shorter field only the low 32 bits count: a negative number may have been sent
      as a 32-bit one or as a 64-bit one, and whatever is above is lost. */
  lemma ShortSignedFitsIff(f: Field, x: int, high: nat, t: seq<byte>)
    requires f.ltype.Varint? && f.dataSize in {1, 2, 4} && -(U32 / 2) <= x < U32 / 2 && high < U32
    ensures var low: nat, half: int := if x < 0 then x + U32 else x, Pow2(8 * f.dataSize - 1);
            DecScalar(f, EncVarint(high * U32 + low) + t) == if -half <= x < half then Ok(Read(Int(x), t)) else Error
  {
    Powers();
    hide Pow2;
    var low: nat := if x < 0 then x + U32 else x;
    Varint64RoundTrip(high * U32 + low, t);
    HighIsLost(high, low);
  }

  lemma HighIsLost(high: nat, low: nat)
    requires low < U32
    ensures (high * U32 + low) % U32 == low
  {
  }

  /** Integer fields of any other width than 1, 2, 4 or 8 bytes are refused by both sides. */
  lemma OddWidthsFail(f: Field, v: Value, s: seq<byte>)
    requires f.ltype.Varint? || f.ltype.UVarint? || f.ltype.SVarint?
    requires f.dataSize !in {1, 2, 4, 8}
    ensures EncScalar(f, v) == Error && DecScalar(f, s) == Error
  {
    hide DecVarint64, FitsSigned, FitsUnsigned;
  }

  // ------------------------------------------------------------------- buffers

  /** Bytes are read if and only if there is room for them behind their count, a string if there is
      room for its terminator, fixed-length bytes if there are none or as many as there must be. */
  lemma BlobFitsIff(f: Field, b: seq<byte>, t: seq<byte>)
    requires |b| < U32 && (f.ltype.Bytes? || f.ltype.String? || f.ltype.FixedLengthBytes?)
    ensures var d := DecScalar(f, EncVarint(|b|) + b + t);
            if f.ltype.Bytes? then d == if |b| + 4 <= f.dataSize then Ok(Read(Blob(b), t)) else Error
            else if f.ltype.String? then
              d == if |b| + 1 <= f.dataSize && |b| + 1 < U32 then Ok(Read(Blob(b), t)) else Error
            else if b != [] then d == if |b| == f.dataSize then Ok(Read(Blob(b), t)) else Error
            else
              && d.Ok? && d.value.rest == t && d.value.value.Blob? && |d.value.value.b| == f.dataSize
              && forall k :: 0 <= k < f.dataSize ==> d.value.value.b[k] == 0
  {
    hide DecVarint32, EncVarint, Take;
    StringTrip(b, t);
    assert b == [] ==> b + t == t;
  }

  /** A length that promises more than there is. */
  lemma CutOffFails(f: Field, n: nat, b: seq<byte>)
    requires |b| < n < U32 && (f.ltype.Bytes? || f.ltype.String? || f.ltype.FixedLengthBytes? || f.ltype.Submessage?)
    ensures DecValue(f, DefaultOf(f), EncVarint(n) + b) == Error
  {
    hide DecVarint32, EncVarint, DefaultOf, DecMessage;
    Varint32RoundTrip(n, b);
  }

  /** The encoder refuses what does not fit: bytes beyond their buffer, fixed-length bytes of another
      length, more items than the array has. */
  lemma TooLargeIsRefused(f: Field, v: Value, items: seq<Value>)
    ensures f.ltype.Bytes? && v.Blob? ==> (EncValue(f, v).Ok? <==> |v.b| + 4 <= f.dataSize)
    ensures f.ltype.FixedLengthBytes? && v.Blob? ==> (EncValue(f, v).Ok? <==> |v.b| == f.dataSize)
    ensures f.ltype.String? && v.Blob? ==> EncValue(f, v).Ok?
    ensures EncArray(f, items).Ok? ==> |items| <= f.arraySize || items == []
    ensures (|items| <= f.arraySize && forall k :: 0 <= k < |items| ==> EncValue(f, items[k]).Ok?) ==>
              EncArray(f, items).Ok?
  {
    hide EncScalar;
    if forall k :: 0 <= k < |items| ==> EncValue(f, items[k]).Ok? {
      if f.ltype.Packable() {
        assert forall k :: 0 <= k < |items| ==> EncValue(f, items[k]) == EncScalar(f, items[k]);
        PackedIsOkIff(f, items);
      } else {
        AllItemsEncode(f, items);
      }
    }
    ScalarEncodesIff(f, v);
  }

  lemma {:induction false} AllItemsEncode(f: Field, items: seq<Value>)
    requires forall k :: 0 <= k < |items| ==> EncValue(f, items[k]).Ok?
    ensures EncItems(f, items).Ok?
  {
    hide EncValue, EncTag;
    if items != [] {
      assert forall k :: 0 <= k < |items| - 1 ==> items[1..][k] == items[k + 1];
      AllItemsEncode(f, items[1..]);
    }
  }

  lemma ScalarEncodesIff(f: Field, v: Value)
    ensures f.ltype.Bytes? && v.Blob? ==> (EncScalar(f, v).Ok? <==> |v.b| + 4 <= f.dataSize)
    ensures f.ltype.FixedLengthBytes? && v.Blob? ==> (EncScalar(f, v).Ok? <==> |v.b| == f.dataSize)
    ensures f.ltype.String? && v.Blob? ==> EncScalar(f, v).Ok?
  {
  }

  /** What is sent of a string: all in front of the first NUL, and of the end of the buffer. */
  lemma {:induction false} StringEndsAtNul(b: seq<byte>, max: nat)
    ensures var n := StrNLen(b, max);
            && (forall k :: 0 <= k < n ==> b[k] != 0)
            && (n == |b| || n == max || b[n] == 0)
  {
    if b != [] && max > 0 && b[0] != 0 {
      StringEndsAtNul(b[1..], max - 1);
      var n := StrNLen(b[1..], max - 1);
      assert forall k :: 0 < k < n + 1 ==> b[k] == b[1..][k - 1];
      assert n < |b[1..]| ==> b[n + 1] == b[1..][n];
    }
  }

  // ------------------------------------------------------------ required fields

  /** Some turn of decoding `s` reads a key of the tag. */
  predicate Occurs(fields: seq<Field>, st: State, s: seq<byte>, tag: nat)
    requires StateFor(fields, st)
    decreases |s|
  {
    var t := DecTurn(fields, st, s);
    && t.More?
    && ((DecVarint32(s).VOk? && DecVarint32(s).value / 8 == tag) || Occurs(fields, t.st, t.rest, tag))
  }

  /** The loop has seen a required field if and only if it had been seen before or its tag occurs. */
  lemma {:induction false} SeenIffOccurs(fields: seq<Field>, st: State, s: seq<byte>, i: nat)
    requires UniqueTags(fields) && StateFor(fields, st) && i < |fields|
    requires fields[i].htype.Required? && !fields[i].ltype.Extension? && RequiredBefore(fields, i) < 64
    requires DecLoop(fields, st, s).Ok?
    ensures RequiredBefore(fields, i) in DecLoop(fields, st, s).value.value.seen
       <==> RequiredBefore(fields, i) in st.seen || Occurs(fields, st, s, fields[i].tag)
    decreases |s|
  {
    var t := DecTurn(fields, st, s);
    if t.More? {
      TurnMarks(fields, st, s, i);
      hide DecTurn, RequiredBefore, DecVarint32;
      SeenIffOccurs(fields, t.st, t.rest, i);
    }
  }

  lemma TurnMarks(fields: seq<Field>, st: State, s: seq<byte>, i: nat)
    requires UniqueTags(fields) && StateFor(fields, st) && i < |fields|
    requires fields[i].htype.Required? && !fields[i].ltype.Extension? && RequiredBefore(fields, i) < 64
    requires DecTurn(fields, st, s).More?
    ensures DecVarint32(s).VOk?
    ensures RequiredBefore(fields, i) in DecTurn(fields, st, s).st.seen
       <==> RequiredBefore(fields, i) in st.seen || DecVarint32(s).value / 8 == fields[i].tag
  {
    hide DecField, SkipField, Find, DecVarintFrom, RequiredBefore, NoteUnknown;
    var tag := DecVarint32(s).value / 8;
    var found := Find(fields, st.pos, tag);
    FindSucceedsIff(fields, st.pos, tag);
    FindOwnTag(fields, st.pos, i);
    if found.Ok? && found.value != i && fields[found.value].htype.Required? {
      NumbersDiffer(fields, found.value, i);
    }
  }

  /** Required fields beyond the sixty-fourth are not tracked. */
  lemma {:induction false} LateFieldsAreNotTracked(fields: seq<Field>, st: State, s: seq<byte>, k: nat)
    requires StateFor(fields, st) && DecLoop(fields, st, s).Ok? && k >= 64
    ensures k in DecLoop(fields, st, s).value.value.seen <==> k in st.seen
    decreases |s|
  {
    hide DecField, SkipField, Find, DecVarint32, RequiredBefore, NoteUnknown;
    var t := DecTurn(fields, st, s);
    if t.More? {
      LateFieldsAreNotTracked(fields, t.st, t.rest, k);
    }
  }

  /** Required fields have numbers of their own. */
  lemma NumbersDiffer(fields: seq<Field>, i: nat, j: nat)
    requires i < |fields| && j < |fields| && i != j && fields[i].htype.Required? && fields[j].htype.Required?
    ensures RequiredBefore(fields, i) != RequiredBefore(fields, j)
  {
    if i < j {
      RequiredMonotone(fields, i + 1, j);
    } else {
      RequiredMonotone(fields, j + 1, i);
    }
  }

  /** Which field a number below the count belongs to. */
  lemma {:induction false} NumberedField(fields: seq<Field>, n: nat, k: nat) returns (i: nat)
    requires n <= |fields| && k < RequiredBefore(fields, n)
    ensures i < n && fields[i].htype.Required? && RequiredBefore(fields, i) == k
  {
    if k < RequiredBefore(fields, n - 1) {
      i := NumberedField(fields, n - 1, k);
    } else {
      i := n - 1;
    }
  }

  /** Bytes are decoded if and only if the loop comes to an end without an error and every required
      field occurs. */
  lemma DecodesIff(fields: seq<Field>, slots: seq<Slot>, s: seq<byte>)
    requires UniqueTags(fields) && |slots| == |fields| && RequiredBefore(fields, |fields|) <= 64
    requires forall i :: 0 <= i < |fields| && fields[i].htype.Required? ==> !fields[i].ltype.Extension?
    ensures DecRead(fields, slots, s).Ok? <==>
            && DecLoop(fields, Start(fields, slots), s).Ok?
            && forall i :: 0 <= i < |fields| && fields[i].htype.Required? ==>
                 Occurs(fields, Start(fields, slots), s, fields[i].tag)
  {
    hide DecLoop, Occurs, UniqueTags;
    var st := Start(fields, slots);
    var r := DecLoop(fields, st, s);
    if r.Ok? {
      var seen := r.value.value.seen;
      forall i | 0 <= i < |fields| && fields[i].htype.Required?
        ensures RequiredBefore(fields, i) < RequiredBefore(fields, |fields|)
        ensures RequiredBefore(fields, i) in seen <==> Occurs(fields, st, s, fields[i].tag)
      {
        RequiredMonotone(fields, i + 1, |fields|);
        SeenIffOccurs(fields, st, s, i);
      }
      if forall i :: 0 <= i < |fields| && fields[i].htype.Required? ==> Occurs(fields, st, s, fields[i].tag) {
        forall k | 0 <= k < RequiredBefore(fields, |fields|)
          ensures k in seen
        {
          var i := NumberedField(fields, |fields|, k);
        }
      }
    }
  }
}
