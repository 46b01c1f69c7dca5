/** What every reader finds in an encoded field, whether it knows the field or not: the wire type
    in the key says how long the content is, so a reader of an older message type passes over
    exactly the fields it does not have. */
module PbSkip {
  import opened ByteString
  import opened PbWire
  import opened PbSchema
  import opened PbIter
  import opened PbEncode
  import opened PbDecode
  import opened PbRoundTrip
  import opened PbMerge

  // -------------------------------------------------------------- single fields

  /** How long the content behind a length prefix is. */
  function LengthSent(f: Field, v: Value): nat {
    if f.ltype.Submessage? then
      if f.ptr.SubFields? && v.Msg? && EncMessage(f.ptr.fields, v.slots).Ok?
      then |EncMessage(f.ptr.fields, v.slots).value| else 0
    else if !v.Blob? then 0
    else if f.ltype.String? then StrNLen(v.b, f.dataSize)
    else |v.b|
  }

  lemma {:induction false} VarintIsSkipped(v: nat, t: seq<byte>)
    ensures SkipVarint(EncVarint(v) + t) == Ok(t)
  {
    var s := EncVarint(v) + t;
    if v < 128 {
      assert s[1..] == t;
    } else {
      assert s[1..] == EncVarint(v / 128) + t;
      VarintIsSkipped(v / 128, t);
    }
  }

  /** The low three bits of a key (the message structure of the encoding, by type): 0 for varints,
      1 for eight bytes, 5 for four bytes, 2 for what has a length in front. */
  function KeyBits(t: LType): nat {
    if t.Varint? || t.UVarint? || t.SVarint? then 0
    else if t.Fixed64? then 1
    else if t.Fixed32? then 5
    else 2
  }

  lemma ScalarIsSkipped(f: Field, v: Value, t: seq<byte>)
    requires EncScalar(f, v).Ok? && !f.ltype.Submessage? && LengthSent(f, v) < U32
    ensures SkipField(KeyBits(f.ltype), EncScalar(f, v).value + t) == Ok(t)
  {
    hide EncVarint, SkipVarint, EncFixed, DecVarint32, StrNLen, TakeString;
    var s := EncScalar(f, v).value;
    if f.ltype.Varint? {
      VarintIsSkipped(ToU64(v.x), t);
    } else if f.ltype.UVarint? {
      VarintIsSkipped(v.x, t);
    } else if f.ltype.SVarint? {
      VarintIsSkipped(ZigZag(v.x), t);
    } else if f.ltype.Fixed32? || f.ltype.Fixed64? {
      assert (s + t)[|s|..] == t;
    } else {
      StringTrip(if f.ltype.String? then v.b[..StrNLen(v.b, f.dataSize)] else v.b, t);
    }
  }

  lemma ValueIsSkipped(f: Field, v: Value, t: seq<byte>)
    requires EncValue(f, v).Ok? && LengthSent(f, v) < U32
    ensures SkipField(KeyBits(f.ltype), EncValue(f, v).value + t) == Ok(t)
  {
    hide EncVarint, DecVarint32, TakeString, EncMessage, EncScalar;
    if f.ltype.Submessage? {
      StringTrip(EncMessage(f.ptr.fields, v.slots).value, t);
    } else {
      ScalarIsSkipped(f, v, t);
    }
  }

  /** There are four wire types; a field of any other one ends decoding. */
  lemma OtherWireTypesFail(fields: seq<Field>, st: State, tag: nat, wireType: nat, t: seq<byte>)
    requires StateFor(fields, st) && Lacks(fields, tag) && tag < U32 / 8
    requires wireType == 3 || wireType == 4 || wireType == 6 || wireType == 7
    ensures DecLoop(fields, st, EncTag(wireType, tag) + t) == Error
  {
    hide EncVarint, DecVarint32, DecField, Find;
    Varint32RoundTrip(tag * 8 + wireType, t);
    if fields != [] {
      FindSucceedsIff(fields, st.pos, tag);
    }
  }

  /** Some bytes are one field with a tag and a wire type, and `t` follows. */
  ghost predicate IsField(s: seq<byte>, tag: nat, wireType: nat, t: seq<byte>) {
    && DecVarint32(s).VOk?
    && DecVarint32(s).value / 8 == tag && DecVarint32(s).value % 8 == wireType
    && SkipField(wireType, DecVarint32(s).rest) == Ok(t)
  }

  lemma KeyIsRead(tag: nat, wireType: nat, content: seq<byte>, t: seq<byte>)
    requires tag < U32 / 8 && wireType < 8
    requires SkipField(wireType, content + t) == Ok(t)
    ensures IsField(EncTag(wireType, tag) + content + t, tag, wireType, t)
  {
    hide EncVarint, DecVarint32, SkipField;
    assert EncTag(wireType, tag) + content + t == EncTag(wireType, tag) + (content + t);
    Varint32RoundTrip(tag * 8 + wireType, content + t);
  }

  /** The key of an encoded item has its tag and the wire type of its content: whoever passes over
      that many bytes finds what follows the item. */
  lemma TaggedIsField(f: Field, v: Value, t: seq<byte>)
    requires f.tag < U32 / 8 && EncTagged(f, v).Ok? && LengthSent(f, v) < U32
    ensures IsField(EncTagged(f, v).value + t, f.tag, KeyBits(f.ltype), t)
  {
    hide EncTag, EncValue, SkipField, LengthSent, IsField;
    ValueIsSkipped(f, v, t);
    KeyIsRead(f.tag, KeyBits(f.ltype), EncValue(f, v).value, t);
  }

  /** A packed array has a length in front, whatever its items are. */
  lemma PackedIsField(f: Field, items: seq<Value>, t: seq<byte>)
    requires f.tag < U32 / 8 && f.ltype.Packable() && items != [] && EncArray(f, items).Ok?
    requires |EncPackedItems(f, items).value| < U32
    ensures IsField(EncArray(f, items).value + t, f.tag, 2, t)
  {
    hide EncTag, EncVarint, EncPackedItems, TakeString, IsField, DecVarint32;
    var body := EncPackedItems(f, items).value;
    StringTrip(body, t);
    var content := EncVarint(|body|) + body;
    KeyIsRead(f.tag, 2, content, t);
    assert EncTag(2, f.tag) + EncVarint(|body|) + body + t == EncTag(2, f.tag) + content + t;
  }

  // ------------------------------------------------------------- whole messages

  /** The message type has no field of that tag. */
  predicate Lacks(known: seq<Field>, tag: nat) {
    tag > 0 && forall i :: 0 <= i < |known| ==> known[i].tag != tag
  }

  ghost predicate SameContent(known: seq<Field>, st: State, st': State) {
    StateFor(known, st) && StateFor(known, st') && st'.slots == st.slots && st'.seen == st.seen
  }

  lemma UnknownIsPassed(known: seq<Field>, st: State, s: seq<byte>, tag: nat, wireType: nat, t: seq<byte>)
    returns (st': State)
    requires StateFor(known, st) && Lacks(known, tag) && IsField(s, tag, wireType, t)
    ensures SameContent(known, st, st') && DecLoop(known, st, s) == DecLoop(known, st', t)
  {
    hide DecVarint32, DecField, SkipField, Find, NoteUnknown;
    if known != [] {
      FindSucceedsIff(known, st.pos, tag);
    }
    st' := NoteUnknown(known, st, tag);
    assert DecTurn(known, st, s) == More(st', t);
    LoopOnMore(known, st, s);
  }

  lemma {:induction false} ItemsArePassed(known: seq<Field>, st: State, f: Field, items: seq<Value>, t: seq<byte>)
    returns (st': State)
    requires StateFor(known, st) && Lacks(known, f.tag) && f.tag < U32 / 8
    requires EncItems(f, items).Ok? && forall k :: 0 <= k < |items| ==> Fits(f, items[k])
    ensures SameContent(known, st, st') && DecLoop(known, st, EncItems(f, items).value + t) == DecLoop(known, st', t)
    decreases |items|
  {
    hide DecLoop, Fits, EncTagged, IsField, Lacks;
    if items == [] {
      st' := st;
      assert [] + t == t;
    } else {
      var first, rest := EncTagged(f, items[0]).value, EncItems(f, items[1..]).value;
      assert EncItems(f, items).value + t == first + (rest + t);
      FitsIsShort(f, items[0]);
      TaggedIsField(f, items[0], rest + t);
      var st1 := UnknownIsPassed(known, st, first + (rest + t), f.tag, KeyBits(f.ltype), rest + t);
      st' := ItemsArePassed(known, st1, f, items[1..], t);
    }
  }

  lemma FitsIsShort(f: Field, v: Value)
    requires Fits(f, v)
    ensures LengthSent(f, v) < U32
  {
  }

  lemma OneIsPassed(known: seq<Field>, st: State, f: Field, v: Value, t: seq<byte>) returns (st': State)
    requires StateFor(known, st) && Lacks(known, f.tag) && f.tag < U32 / 8 && EncTagged(f, v).Ok? && Fits(f, v)
    ensures SameContent(known, st, st') && DecLoop(known, st, EncTagged(f, v).value + t) == DecLoop(known, st', t)
  {
    hide DecLoop, Fits, EncTagged, IsField, Lacks;
    FitsIsShort(f, v);
    TaggedIsField(f, v, t);
    st' := UnknownIsPassed(known, st, EncTagged(f, v).value + t, f.tag, KeyBits(f.ltype), t);
  }

  /** All that is written for one descriptor. */
  lemma {:induction false} FieldIsPassed(known: seq<Field>, st: State, fields: seq<Field>, slots: seq<Slot>, i: nat,
                                         t: seq<byte>)
    returns (st': State)
    requires StateFor(known, st) && WellFormed(fields) && FitsMessage(fields, slots) && i < |fields|
    requires Lacks(known, fields[i].tag) && EncField(fields, slots, i).Ok?
    ensures SameContent(known, st, st')
    ensures DecLoop(known, st, EncField(fields, slots, i).value + t) == DecLoop(known, st', t)
  {
    At(fields, slots, i);
    var f := fields[i];
    if !f.ltype.Extension? && f.htype.OneOf? {
      HeadIsNoExtension(fields, slots, i);
      if slots[Head(fields, i)].sel.Member? && slots[Head(fields, i)].sel.tag == f.tag {
        SelectedFits(fields, slots, i);
      }
    }
    hide DecLoop, Fits, EncTagged, IsField, Lacks, WellFormed, FitsMessage, EncItems, EncPackedItems, Head, SameContent;
    st' := st;
    if EncField(fields, slots, i).value == [] {
      assert [] + t == t;
      SameAsItself(known, st);
    } else if f.htype.OneOf? {
      st' := OneIsPassed(known, st, f, slots[Head(fields, i)].sel.v, t);
    } else if f.htype.Repeated? {
      var items := slots[i].items;
      if f.ltype.Packable() {
        PackedIsField(f, items, t);
        st' := UnknownIsPassed(known, st, EncArray(f, items).value + t, f.tag, 2, t);
      } else {
        st' := ItemsArePassed(known, st, f, items, t);
      }
    } else {
      st' := OneIsPassed(known, st, f, slots[i].v, t);
    }
  }

  lemma SameAsItself(known: seq<Field>, st: State)
    requires StateFor(known, st)
    ensures SameContent(known, st, st)
  {
  }

  /** A run of descriptors none of which the reader has. */
  lemma {:induction false} FieldsArePassed(known: seq<Field>, st: State, fields: seq<Field>, slots: seq<Slot>, i: nat)
    returns (st': State)
    requires StateFor(known, st) && WellFormed(fields) && FitsMessage(fields, slots) && i <= |fields|
    requires (forall j :: i <= j < |fields| ==> Lacks(known, fields[j].tag)) && EncFrom(fields, slots, i).Ok?
    ensures SameContent(known, st, st')
    ensures DecLoop(known, st, EncFrom(fields, slots, i).value) == DecLoop(known, st', [])
    decreases |fields| - i
  {
    hide DecLoop, WellFormed, FitsMessage, Lacks, EncField;
    st' := st;
    if i == |fields| {
      SameAsItself(known, st);
    } else {
      At(fields, slots, i);
      var rest := EncFrom(fields, slots, i + 1).value;
      var st1 := FieldIsPassed(known, st, fields, slots, i, rest);
      st' := FieldsArePassed(known, st1, fields, slots, i + 1);
    }
  }

  /** A union begins where it does, whatever fields come behind. */
  lemma {:induction false} HeadOfFront(fields: seq<Field>, more: seq<Field>, i: nat)
    requires i < |fields|
    ensures Head(fields + more, i) == Head(fields, i)
  {
    var all := fields + more;
    assert all[i] == fields[i] && (i > 0 ==> all[i - 1] == fields[i - 1]);
    if Continues(fields, i) {
      HeadOfFront(fields, more, i - 1);
    }
  }

  lemma FrontFieldIsSame(fields: seq<Field>, more: seq<Field>, slots: seq<Slot>, extra: seq<Slot>, i: nat)
    requires i < |fields| == |slots| && |more| == |extra|
    ensures EncField(fields + more, slots + extra, i) == EncField(fields, slots, i)
  {
    hide EncTagged, EncArray;
    HeadOfFront(fields, more, i);
    hide Head;
    var all, alls, h := fields + more, slots + extra, Head(fields, i);
    assert all[i] == fields[i] && alls[i] == slots[i] && alls[h] == slots[h];
  }

  lemma {:induction false} FrontIsSame(fields: seq<Field>, more: seq<Field>, slots: seq<Slot>, extra: seq<Slot>, i: nat)
    requires i <= |fields| == |slots| && |more| == |extra| && EncFrom(fields, slots, i).Ok?
    requires EncFrom(fields + more, slots + extra, i).Ok?
    ensures EncFrom(fields + more, slots + extra, |fields|).Ok?
    ensures EncFrom(fields + more, slots + extra, i).value
         == EncFrom(fields, slots, i).value + EncFrom(fields + more, slots + extra, |fields|).value
    decreases |fields| - i
  {
    hide EncField;
    var back := EncFrom(fields + more, slots + extra, |fields|);
    if i == |fields| {
      assert [] + back.value == back.value;
    } else {
      FrontFieldIsSame(fields, more, slots, extra, i);
      FrontIsSame(fields, more, slots, extra, i + 1);
      var first, rest := EncField(fields, slots, i).value, EncFrom(fields, slots, i + 1).value;
      assert first + (rest + back.value) == first + rest + back.value;
    }
  }

  lemma EncodesAny(fields: seq<Field>, slots: seq<Slot>)
    requires WellFormed(fields) && FitsMessage(fields, slots)
    ensures |slots| == |fields| && EncMessage(fields, slots).Ok? && EncFrom(fields, slots, 0) == EncMessage(fields, slots)
    ensures Joins(fields, Defaults(fields), slots) && Merged(fields, Defaults(fields), slots) == Canon(fields, slots)
  {
    hide WellFormed, Joins, Merged, Canon, EncFrom;
    DefaultsAreJoined(fields, slots);
    ReadInto(fields, Defaults(fields), slots);
  }

  lemma AddedAreLacking(fields: seq<Field>, more: seq<Field>, j: nat)
    requires UniqueTags(fields + more) && |fields| <= j < |fields + more|
    ensures Lacks(fields, (fields + more)[j].tag)
  {
    var all := fields + more;
    assert forall i :: 0 <= i < |fields| ==> fields[i] == all[i];
  }

  /** A reader of the message type as it was before fields were added reads all it knows of a
      message of the new type, and passes over exactly the fields it does not have. */
  lemma OldReader(fields: seq<Field>, more: seq<Field>, slots: seq<Slot>, extra: seq<Slot>)
    requires WellFormed(fields) && FitsMessage(fields, slots)
    requires WellFormed(fields + more) && FitsMessage(fields + more, slots + extra) && |more| == |extra|
    ensures EncMessage(fields + more, slots + extra).Ok?
    ensures Decode(fields, EncMessage(fields + more, slots + extra).value) == Ok(Read(Canon(fields, slots), []))
  {
    hide FitsMessage, WellFormedField, DecLoop, EncFrom, Lacks, Canon, Merged, Joins, DecTurn, EncMessage, CountDefined,
         UniqueTags;
    var all, alls, n := fields + more, slots + extra, |fields|;
    EncodesAny(all, alls);
    EncodesAny(fields, slots);
    FrontIsSame(fields, more, slots, extra, 0);
    forall j | n <= j < |all|
      ensures Lacks(fields, all[j].tag)
    {
      AddedAreLacking(fields, more, j);
    }
    var st := MergeTrip(fields, Defaults(fields), slots, Start(fields, Defaults(fields)), EncFrom(all, alls, n).value);
    var end := FieldsArePassed(fields, st, all, alls, n);
    LoopAtEnd(fields, end);
  }
}
