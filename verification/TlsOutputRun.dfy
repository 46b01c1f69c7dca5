/** Runs of the output path: over any calls, in any order, and whatever the transport takes, the
    order of the records is kept exactly as long as none of their bytes is missing, and none is
    missing where no record is refused. */
module TlsOutputRun {
  import opened ByteString
  import opened TlsBuffer
  import opened TlsOutput

  datatype Call =
    | AddMessage(msg: seq<byte>)
    | FlushFlight
    | WriteAppData(data: seq<byte>, len: int, address: int)
    | DispatchAlert(level: byte, description: byte, address: int)
  {
    /** The bytes at the address are as many as said. */
    predicate Legal() {
      WriteAppData? ==> (len < 0 ==> data == []) && (len >= 0 ==> |data| == len)
    }

    /** The longest record the call seals into the write buffer. */
    function Longest(maxSendFragment: nat): nat {
      match this
      case WriteAppData(_, _, _) => maxSendFragment
      case DispatchAlert(_, _, _) => 2
      case _ => 0
    }
  }

  /** Nothing is missing exactly while order is kept; and where nothing is refused, it is. */
  ghost predicate Accounted(o: Output)
    requires o.Valid()
    reads o, o.bio, o.writeBuffer, o.writeBuffer.buf
  {
    && o.Missing() >= 0
    && (o.Sound() <==> o.Missing() == 0)
    && (o.NeverRefuses() ==> o.Sound())
  }

  /** It stays so when order is kept and nothing more is missing, and when order is lost together
      with some bytes. */
  lemma StaysAccounted(o: Output, missing: int, sound: bool, lost: nat)
    requires o.Valid() && missing >= 0 && (sound <==> missing == 0) && (o.NeverRefuses() ==> sound && lost == 0)
    requires o.Missing() == missing + lost
    requires sound && lost == 0 ==> o.Sound()
    requires sound && lost > 0 ==> !o.Sound()
    ensures Accounted(o)
  {
    if o.Sound() {
      o.SoundIsWhole();
    }
  }

  /** A message is added only while the flight is not being written out. */
  method StepAddMessage(o: Output, msg: seq<byte>)
    requires o.Valid() && Accounted(o)
    modifies o, o.writeBuffer, o.writeBuffer.buf, o.bio
    ensures o.Valid() && Accounted(o)
    ensures o.writeBuffer.buf == old(o.writeBuffer.buf) || o.writeBuffer.buf == null || fresh(o.writeBuffer.buf)
  {
    hide Output.Valid, Output.Sound, Output.Missing, Output.NeverRefuses, Output.Refuses, Output.FlightRest;
    if o.flightOffset == 0 {
      var ok, chunks, left := o.AddMessage(msg);
      StaysAccounted(o, old(o.Missing()), old(o.Sound()), 0);
    }
  }

  method StepFlushFlight(o: Output)
    requires o.Valid() && Accounted(o)
    modifies o, o.writeBuffer, o.writeBuffer.buf, o.bio
    ensures o.Valid() && Accounted(o)
    ensures o.writeBuffer.buf == old(o.writeBuffer.buf) || o.writeBuffer.buf == null || fresh(o.writeBuffer.buf)
  {
    hide Output.Valid, Output.Sound, Output.Missing, Output.NeverRefuses, Output.Refuses, Output.FlightRest;
    var ret := o.FlushFlight();
    StaysAccounted(o, old(o.Missing()), old(o.Sound()), 0);
  }

  method StepWriteAppData(o: Output, data: seq<byte>, len: int, address: int)
    requires o.Valid() && Accounted(o) && (len < 0 ==> data == []) && (len >= 0 ==> |data| == len)
    requires o.Room(o.maxSendFragment)
    modifies o, o.writeBuffer, o.writeBuffer.buf, o.bio
    ensures o.Valid() && Accounted(o)
    ensures o.writeBuffer.buf == old(o.writeBuffer.buf) || o.writeBuffer.buf == null || fresh(o.writeBuffer.buf)
  {
    hide Output.Valid, Output.Sound, Output.Missing, Output.NeverRefuses, Output.Refuses, Output.FlightRest;
    ghost var rest, n := o.FlightRest(), o.sequence;
    var ret, carried := o.WriteAppData(data, len, address);
    o.NothingRefused(n, RT_APPLICATION_DATA, data);
    ghost var lost := Lost(rest, n, o.FlightRest(), o.sequence);
    StaysAccounted(o, old(o.Missing()), old(o.Sound()), lost);
  }

  method StepDispatchAlert(o: Output, alert: seq<byte>, address: int)
    requires o.Valid() && Accounted(o) && |alert| == 2 && o.Room(2)
    modifies o, o.writeBuffer, o.writeBuffer.buf, o.bio
    ensures o.Valid() && Accounted(o)
    ensures o.writeBuffer.buf == old(o.writeBuffer.buf) || o.writeBuffer.buf == null || fresh(o.writeBuffer.buf)
  {
    hide Output.Valid, Output.Sound, Output.Missing, Output.NeverRefuses, Output.Refuses, Output.FlightRest;
    ghost var lost := if o.Loses(RT_ALERT, alert) then |o.FlightRest()| else 0;
    o.NothingLost(RT_ALERT, alert);
    var ret := o.DispatchAlert(alert, address);
    StaysAccounted(o, old(o.Missing()), old(o.Sound()), lost);
  }

  method Step(o: Output, call: Call)
    requires o.Valid() && Accounted(o) && call.Legal() && o.Room(call.Longest(o.maxSendFragment))
    modifies o, o.writeBuffer, o.writeBuffer.buf, o.bio
    ensures o.Valid() && Accounted(o)
    ensures o.writeBuffer.buf == old(o.writeBuffer.buf) || o.writeBuffer.buf == null || fresh(o.writeBuffer.buf)
  {
    hide Output.Valid, Output.Sound, Output.Missing, Output.NeverRefuses, Output.Refuses, Output.FlightRest,
         Output.Room;
    match call
    case AddMessage(msg) => StepAddMessage(o, msg);
    case FlushFlight => StepFlushFlight(o);
    case WriteAppData(data, len, address) => StepWriteAppData(o, data, len, address);
    case DispatchAlert(level, description, address) => StepDispatchAlert(o, [level, description], address);
  }

  /** A run of calls, as far as the flight and a record behind it fit the write buffer. */
  method Run(o: Output, calls: seq<Call>) returns (done: nat)
    requires o.Valid() && o.Sound()
    requires forall c :: c in calls ==> c.Legal()
    modifies o, o.writeBuffer, o.writeBuffer.buf, o.bio
    ensures o.Valid() && done <= |calls|
    ensures o.Missing() >= 0
    ensures o.Sound() <==> o.Missing() == 0
    ensures o.NeverRefuses() ==> o.Sound()
    ensures done < |calls| ==> !o.Room(calls[done].Longest(o.maxSendFragment))
  {
    o.SoundIsWhole();
    done := 0;
    while done < |calls| && o.Room(calls[done].Longest(o.maxSendFragment))
      invariant o.Valid() && done <= |calls| && Accounted(o)
      invariant o.writeBuffer.buf == old(o.writeBuffer.buf) || o.writeBuffer.buf == null || fresh(o.writeBuffer.buf)
    {
      Step(o, calls[done]);
      done := done + 1;
    }
  }

  /** A flight of one byte, a record of application data behind it that cannot be sealed: the
      flight is nowhere then. */
  method LostFlight() returns (o: Output)
    ensures o.Valid() && o.sealed == [7]
    ensures o.bio.wire == [] && o.writeBuffer.len == 0 && o.FlightRest() == []
    ensures !o.InOrder() && o.Missing() == 1
  {
    var bio := new Stream(true);
    var seal: (nat, byte, seq<byte>) -> Option<seq<byte>> :=
      (n, recordType, data) => if recordType == RT_HANDSHAKE then Some([7]) else None;
    o := new Output(bio, MAX_PLAIN_LENGTH, 1, seal, false, false);
    hide Output.Added, Conserved;
    var ok, chunks, left := o.AddMessage([]);
    assert o.SealRecord(0 + |chunks|, RT_HANDSHAKE, FirstOf(left, MAX_PLAIN_LENGTH)).Some?;
    o.EmptyMessage(0, chunks, [], o.sealed);
    assert o.SealRecord(0, RT_HANDSHAKE, []) == Some([7]);
    assert o.sealed == [] + [7] == [7];
    assert o.writeBuffer.len == 0 && o.bio.wire == [];
    assert |o.FlightRest()| == 1;
    assert o.SealRecord(o.sequence, RT_APPLICATION_DATA, [0]).None?;
    assert o.Loses(RT_APPLICATION_DATA, [0]);
    var ret := o.DoWrite(RT_APPLICATION_DATA, [0], 0);
  }
}
