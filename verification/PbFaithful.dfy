/** Exactly which messages come back unchanged from encoding and decoding. */
module PbFaithful {
  import opened ByteString
  import opened PbWire
  import opened PbSchema
  import opened PbEncode
  import opened PbDecode
  import opened PbRoundTrip

  /** Everything the item holds is sent: its strings end at the end of what they hold. */
  predicate CarriedValue(f: Field, v: Value)
    decreases f, 0
  {
    if f.ltype.Submessage? && f.ptr.SubFields? && v.Msg? then Carried(f.ptr.fields, v.slots)
    else if f.ltype.String? && v.Blob? then StrNLen(v.b, f.dataSize) == |v.b|
    else true
  }

  predicate CarriedSlot(fields: seq<Field>, slots: seq<Slot>, i: nat)
    requires i < |fields| == |slots|
    decreases fields, 0
  {
    var f, slot := fields[i], slots[i];
    match slot
    case Plain(v) => if f.Singular() && IsZero(f, v) then v == DefaultOf(f) else CarriedValue(f, v)
    case Opt(has, v) => if has then CarriedValue(f, v) else v == DefaultOf(f)
    case Rep(items) => forall k :: 0 <= k < |items| ==> CarriedValue(f, items[k])
    case Union(sel) =>
      sel.Member? ==>
        MemberOf(fields, i, sel.tag).Ok? && CarriedValue(fields[MemberOf(fields, i, sel.tag).value], sel.v)
    case InUnion => true
    case NoExtensions => true
  }

  /** What is not sent holds its default: optional fields whose has_ flag is off, and zero
      fields without a has_ flag; a which_ tag names a member; no string holds a NUL. */
  predicate Carried(fields: seq<Field>, slots: seq<Slot>)
    decreases fields, 1
  {
    |slots| == |fields| ==> forall i :: 0 <= i < |fields| ==> CarriedSlot(fields, slots, i)
  }

  lemma {:induction false} CarriedValueIff(f: Field, v: Value)
    ensures CanonValue(f, v) == v <==> CarriedValue(f, v)
    decreases f, 0
  {
    if f.ltype.Submessage? && f.ptr.SubFields? && v.Msg? {
      CarriedIff(f.ptr.fields, v.slots);
    } else if f.ltype.String? && v.Blob? {
      assert StrNLen(v.b, f.dataSize) == |v.b| ==> v.b[..StrNLen(v.b, f.dataSize)] == v.b;
    }
  }

  lemma {:induction false} CarriedItemsIff(f: Field, items: seq<Value>)
    ensures CanonItems(f, items) == items <==> forall k :: 0 <= k < |items| ==> CarriedValue(f, items[k])
    decreases f, 1
  {
    forall k | 0 <= k < |items|
      ensures CanonItems(f, items)[k] == items[k] <==> CarriedValue(f, items[k])
    {
      CarriedValueIff(f, items[k]);
    }
  }

  lemma {:induction false} CarriedSlotIff(fields: seq<Field>, slots: seq<Slot>, i: nat)
    requires i < |fields| == |slots|
    ensures CanonSlot(fields, slots, i) == slots[i] <==> CarriedSlot(fields, slots, i)
    decreases fields, 0
  {
    var f, slot := fields[i], slots[i];
    if slot.Plain? || slot.Opt? {
      CarriedValueIff(f, slot.v);
    } else if slot.Rep? {
      CarriedItemsIff(f, slot.items);
    } else if slot.Union? && slot.sel.Member? && MemberOf(fields, i, slot.sel.tag).Ok? {
      CarriedValueIff(fields[MemberOf(fields, i, slot.sel.tag).value], slot.sel.v);
    }
  }

  lemma {:induction false} CarriedIff(fields: seq<Field>, slots: seq<Slot>)
    ensures Canon(fields, slots) == slots <==> Carried(fields, slots)
    decreases fields, 1
  {
    if |slots| == |fields| {
      forall i | 0 <= i < |fields|
        ensures Canon(fields, slots)[i] == slots[i] <==> CarriedSlot(fields, slots, i)
      {
        CarriedSlotIff(fields, slots, i);
      }
    } else {
      assert Canon(fields, slots) == slots;
    }
  }

  /** A message comes back unchanged if and only if what is not sent holds its default. */
  lemma SameMessageIff(fields: seq<Field>, slots: seq<Slot>)
    requires WellFormed(fields) && FitsMessage(fields, slots)
    ensures EncMessage(fields, slots).Ok?
    ensures Decode(fields, EncMessage(fields, slots).value) == Ok(Read(slots, [])) <==> Carried(fields, slots)
  {
    RoundTrip(fields, slots);
    CarriedIff(fields, slots);
  }

  /** A field without has_ flag, with a default of five and set to zero: nothing is sent
      and five comes back. */
  lemma SingularWithDefaultIsLost()
    ensures var f := Field(1, Varint, Optional, 0, 0, 4, 0, DefaultValue(Int(5)));
            && EncMessage([f], [Plain(Int(0))]) == Ok([])
            && Decode([f], []) == Ok(Read([Plain(Int(5))], []))
  {
    var f := Field(1, Varint, Optional, 0, 0, 4, 0, DefaultValue(Int(5)));
    var slots := [Plain(Int(0))];
    assert EncField([f], slots, 0) == Ok([]);
    EncFromStep([f], slots, 0);
    EncFromStep([f], slots, 1);
    assert DefaultOf(f) == Int(5);
    assert DefaultSlot([f], 0) == Plain(Int(5));
    assert Defaults([f]) == [Plain(Int(5))];
    var st := Start([f], Defaults([f]));
    assert DecLoop([f], st, []) == Ok(Read(st, []));
    assert RequiredBefore([f], 1) == 0;
    assert AllRequiredSeen([f], {});
  }

  lemma EncFromStep(fields: seq<Field>, slots: seq<Slot>, i: nat)
    requires i <= |fields| == |slots|
    requires i < |fields| ==> EncField(fields, slots, i) == Ok([])
    ensures EncFrom(fields, slots, i) == if i == |fields| then Ok([]) else EncFrom(fields, slots, i + 1)
  {
    if i < |fields| && EncFrom(fields, slots, i + 1).Ok? {
      assert [] + EncFrom(fields, slots, i + 1).value == EncFrom(fields, slots, i + 1).value;
    }
  }

  /** Nothing is written for a field without has_ flag exactly if its number is zero, there are no
      bytes, or the string ends where it begins. */
  lemma SingularIsSentIff(fields: seq<Field>, slots: seq<Slot>, i: nat)
    requires WellFormed(fields) && FitsMessage(fields, slots) && i < |fields|
    requires fields[i].Singular() && !fields[i].ltype.Extension?
    ensures slots[i].Plain? && EncField(fields, slots, i).Ok?
    ensures EncField(fields, slots, i).value == [] <==>
            match slots[i].v
            case Int(x) => x == 0
            case Blob(b) => b == [] || (fields[i].ltype.String? && b[0] == 0)
            case Msg(_) => false
  {
    hide WellFormed, FitsMessage, EncScalar, EncVarint, DecScalar, Pow2;
    At(fields, slots, i);
    var f, v := fields[i], slots[i].v;
    ScalarTrip(f, v, []);
    assert EncValue(f, v) == EncScalar(f, v);
    assert EncTagged(f, v).Ok? && EncTagged(f, v).value != [];
  }

  lemma SingularCanon(fields: seq<Field>, slots: seq<Slot>, i: nat)
    requires i < |fields| == |slots| && FitsSlot(fields, slots, i) && fields[i].Singular() && fields[i].ptr.NoPtr?
    requires !fields[i].ltype.Extension? && !fields[i].ltype.Submessage?
    ensures slots[i].Plain?
    ensures CanonSlot(fields, slots, i) == match slots[i].v
                                           case Blob(b) =>
                                             if fields[i].ltype.String?
                                             then Plain(Blob(b[..StrNLen(b, fields[i].dataSize)])) else slots[i]
                                           case _ => slots[i]
  {
    var f, v := fields[i], slots[i].v;
    if f.ltype.String? && v.b != [] && v.b[0] == 0 {
      assert v.b[..StrNLen(v.b, f.dataSize)] == [];
    }
  }

  /** A field without has_ flag and without a default comes back as it was, zero or not; of a
      string, the part in front of its terminator. */
  lemma SingularComesBack(fields: seq<Field>, slots: seq<Slot>, i: nat)
    requires WellFormed(fields) && FitsMessage(fields, slots) && i < |fields|
    requires fields[i].Singular() && fields[i].ptr.NoPtr? && !fields[i].ltype.Extension?
    ensures slots[i].Plain? && EncMessage(fields, slots).Ok?
    ensures var d := Decode(fields, EncMessage(fields, slots).value);
            && d.Ok? && |d.value.value| == |fields|
            && d.value.value[i] == match slots[i].v
                                   case Blob(b) =>
                                     if fields[i].ltype.String?
                                     then Plain(Blob(b[..StrNLen(b, fields[i].dataSize)])) else slots[i]
                                   case _ => slots[i]
  {
    hide WellFormed, FitsMessage, Decode, EncMessage, CanonSlot, StrNLen, FitsSlot;
    At(fields, slots, i);
    RoundTrip(fields, slots);
    SingularCanon(fields, slots, i);
    assert Canon(fields, slots)[i] == CanonSlot(fields, slots, i);
  }

  /** An optional field that is off comes back as the default it points to, and as zero if it has
      none. */
  lemma AbsentComesBackDefault(fields: seq<Field>, slots: seq<Slot>, i: nat)
    requires WellFormed(fields) && FitsMessage(fields, slots) && i < |fields|
    requires fields[i].HasFlag() && !fields[i].ltype.Submessage? && !fields[i].ltype.Extension?
    requires slots[i].Opt? && !slots[i].has
    ensures EncMessage(fields, slots).Ok?
    ensures var d := Decode(fields, EncMessage(fields, slots).value);
            && d.Ok? && |d.value.value| == |fields| && d.value.value[i].Opt? && !d.value.value[i].has
            && (fields[i].ptr.DefaultValue? ==> d.value.value[i].v == fields[i].ptr.v)
            && (!fields[i].ptr.DefaultValue? ==>
                  match d.value.value[i].v
                  case Int(x) => x == 0 && fields[i].ltype.Packable()
                  case Blob(b) =>
                    && |b| == (if fields[i].ltype.FixedLengthBytes? then fields[i].dataSize else 0)
                    && (forall k :: 0 <= k < |b| ==> b[k] == 0)
                    && !fields[i].ltype.Packable()
                  case Msg(_) => false)
  {
    hide WellFormed, FitsMessage, Decode, EncMessage;
    At(fields, slots, i);
    RoundTrip(fields, slots);
    assert Canon(fields, slots)[i] == CanonSlot(fields, slots, i);
  }
}
