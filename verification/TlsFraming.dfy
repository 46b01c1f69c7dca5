/** Both ends of the handshake framing: what the sender cuts into records is what the receiver
    puts together, and the receiver gets the same messages from any other cut. */
module TlsFraming {
  import opened ByteString
  import TlsBuffer
  import Out = TlsOutput
  import In = TlsInput

  /** The plaintexts in records of their own. */
  function Records(chunks: seq<seq<byte>>): seq<In.Record> {
    if chunks == [] then [] else Records(chunks[..|chunks| - 1]) + [In.Record(In.RT_HANDSHAKE, chunks[|chunks| - 1])]
  }

  /** The records carry the plaintexts, in order. */
  lemma {:induction false} RecordsCarry(chunks: seq<seq<byte>>)
    ensures In.Contents(Records(chunks)) == Out.Joined(chunks) && In.AllHandshake(Records(chunks))
  {
    if chunks != [] {
      var last := |chunks| - 1;
      RecordsCarry(chunks[..last]);
      In.ContentsMore(Records(chunks[..last]), In.Record(In.RT_HANDSHAKE, chunks[last]));
    }
  }

  /** The cuts of some messages, one after the other. */
  predicate CutsOf(cuts: seq<seq<seq<byte>>>, messages: seq<seq<byte>>, max: nat) {
    && |cuts| == |messages|
    && forall i :: 0 <= i < |cuts| ==> Out.Cut(cuts[i], [], messages[i], max)
  }

  function Flat(cuts: seq<seq<seq<byte>>>): seq<seq<byte>> {
    if cuts == [] then [] else Flat(cuts[..|cuts| - 1]) + cuts[|cuts| - 1]
  }

  lemma {:induction false} JoinedSum(a: seq<seq<byte>>, b: seq<seq<byte>>)
    ensures Out.Joined(a + b) == Out.Joined(a) + Out.Joined(b)
  {
    if b == [] {
      assert a + b == a && Out.Joined(a) + [] == Out.Joined(a);
    } else {
      var last := |b| - 1;
      assert (a + b)[..|a + b| - 1] == a + b[..last] && (a + b)[|a + b| - 1] == b[last];
      JoinedSum(a, b[..last]);
      assert Out.Joined(a) + (Out.Joined(b[..last]) + b[last]) == Out.Joined(a) + Out.Joined(b[..last]) + b[last];
    }
  }

  lemma CutIsAll(cut: seq<seq<byte>>, msg: seq<byte>, max: nat)
    requires Out.Cut(cut, [], msg, max)
    ensures Out.Joined(cut) == msg
  {
    assert Out.Joined(cut) == Out.Joined(cut) + [];
  }

  lemma LastCut(cuts: seq<seq<seq<byte>>>, messages: seq<seq<byte>>, max: nat)
    requires CutsOf(cuts, messages, max) && cuts != []
    ensures var last := |cuts| - 1;
            && CutsOf(cuts[..last], messages[..last], max)
            && Out.Joined(cuts[last]) == messages[last]
            && messages == messages[..last] + [messages[last]]
            && Flat(cuts) == Flat(cuts[..last]) + cuts[last]
  {
    hide Out.Joined, Out.Cut;
    CutIsAll(cuts[|cuts| - 1], messages[|cuts| - 1], max);
  }

  lemma {:induction false} CutsJoin(cuts: seq<seq<seq<byte>>>, messages: seq<seq<byte>>, max: nat)
    requires CutsOf(cuts, messages, max)
    ensures Out.Joined(Flat(cuts)) == In.Joined(messages)
  {
    if cuts != [] {
      hide Out.Joined, In.Joined, CutsOf, Flat;
      var last := |cuts| - 1;
      LastCut(cuts, messages, max);
      CutsJoin(cuts[..last], messages[..last], max);
      JoinedSum(Flat(cuts[..last]), cuts[last]);
      In.JoinedMore(messages[..last], messages[last]);
    }
  }

  /** The chunks into which `ssl3_add_message` cuts some messages are a chunking of them. */
  lemma CutsAreChunking(cuts: seq<seq<seq<byte>>>, messages: seq<seq<byte>>, max: nat)
    requires CutsOf(cuts, messages, max)
    ensures In.Contents(Records(Flat(cuts))) == In.Joined(messages) && In.AllHandshake(Records(Flat(cuts)))
  {
    RecordsCarry(Flat(cuts));
    CutsJoin(cuts, messages, max);
  }

  /** A receiver to which records come one after the other, and which takes messages at any
      time between: whatever the records are that carry the messages, these come out. */
  method Receive(records: seq<In.Record>, inInit: bool, maxMessageLen: nat, ghost messages: seq<seq<byte>>)
      returns (input: In.Input)
    requires In.AllHandshake(records) && In.Contents(records) == In.Joined(messages)
    requires In.AllMessages(messages) && In.Within(messages, In.HEADER + maxMessageLen)
    ensures input.Valid() && input.released == messages && input.Buffer() == []
  {
    hide In.Contents, In.Joined, In.AllHandshake, In.AllMessages, In.Within, In.IsMessage, In.Needed;
    hide In.Input.Valid, In.Input.OnlyHandshake, In.Input.CanRead, In.Input.Available;
    input := new In.Input(inInit, maxMessageLen);
    NothingCarried(records);
    for i := 0 to |records|
      invariant fresh(input) && input.Valid() && input.OnlyHandshake() && input.maxMessageLen == maxMessageLen
      invariant input.arrived == In.Contents(records[..i])
    {
      Arriving(records, i);
      input.Arrive(records[i]);
      if * {
        input.TakeMessages();
      }
    }
    input.TakeMessages();
    assert records[..|records|] == records && input.arrived + [] == input.arrived;
    input.TakenAreAll(messages, []);
    input.ReleasedArePrefix(messages, []);
  }

  lemma NothingCarried(records: seq<In.Record>)
    ensures In.Contents(records[..0]) == []
  {
  }

  lemma Arriving(records: seq<In.Record>, i: nat)
    requires i < |records|
    ensures In.Contents(records[..i + 1]) == In.Contents(records[..i]) + records[i].data
    ensures In.AllHandshake(records) ==> records[i].recordType == In.RT_HANDSHAKE
  {
    assert records[..i + 1] == records[..i] + [records[i]];
    In.ContentsMore(records[..i], records[i]);
  }

  lemma CutsMore(cuts: seq<seq<seq<byte>>>, messages: seq<seq<byte>>, max: nat, i: nat, cut: seq<seq<byte>>)
    requires i < |messages| && CutsOf(cuts, messages[..i], max) && Out.Cut(cut, [], messages[i], max)
    ensures CutsOf(cuts + [cut], messages[..i + 1], max) && Flat(cuts + [cut]) == Flat(cuts) + cut
  {
    assert (cuts + [cut])[..|cuts|] == cuts;
  }

  lemma AddedNext(o: Out.Output, start: seq<byte>, n: nat, chunks: seq<seq<byte>>, before: seq<byte>,
                  sealed: seq<byte>, cut: seq<seq<byte>>, msg: seq<byte>)
    requires before == start + o.SealedFrom(n, chunks) && o.Added(n + |chunks|, cut, before, sealed, [], msg)
    ensures sealed == start + o.SealedFrom(n, chunks + cut) && Out.Cut(cut, [], msg, o.maxSendFragment)
  {
    o.SealedInTurn(n, chunks, cut);
    assert start + o.SealedFrom(n, chunks) + o.SealedFrom(n + |chunks|, cut)
        == start + (o.SealedFrom(n, chunks) + o.SealedFrom(n + |chunks|, cut));
  }

  lemma NothingSealed(o: Out.Output, n: nat, sealed: seq<byte>)
    ensures sealed == sealed + o.SealedFrom(n, [])
  {
  }

  lemma IsNotEmpty(messages: seq<seq<byte>>, i: nat)
    requires In.AllMessages(messages) && i < |messages|
    ensures messages[i] != []
  {
    assert messages[i] in messages;
  }

  /** Messages are added to a flight: what is sealed then are records that carry them. */
  method AddMessages(o: Out.Output, messages: seq<seq<byte>>) returns (ok: bool, ghost chunks: seq<seq<byte>>)
    requires o.Valid() && o.flightOffset == 0 && In.AllMessages(messages)
    modifies o`flight, o`sequence, o`sealed
    ensures o.Valid() && o.flightOffset == 0
    ensures ok ==> o.sealed == old(o.sealed) + o.SealedFrom(old(o.sequence), chunks)
    ensures ok ==> In.Contents(Records(chunks)) == In.Joined(messages) && In.AllHandshake(Records(chunks))
    ensures o.NeverRefuses() ==> ok
  {
    hide Out.Output.Valid, Out.Output.Added, Out.Output.SealedFrom, Out.Output.NeverRefuses, Out.Cut, In.IsMessage;
    ghost var cuts := [];
    chunks := [];
    NothingSealed(o, o.sequence, o.sealed);
    for i := 0 to |messages|
      invariant o.Valid() && o.flightOffset == 0
      invariant CutsOf(cuts, messages[..i], o.maxSendFragment) && chunks == Flat(cuts)
      invariant o.sequence == old(o.sequence) + |chunks|
      invariant o.sealed == old(o.sealed) + o.SealedFrom(old(o.sequence), chunks)
    {
      ghost var n, before := o.sequence, o.sealed;
      ghost var cut, left;
      ok, cut, left := o.AddMessage(messages[i]);
      IsNotEmpty(messages, i);
      if !ok {
        o.NothingHeldUp(n + |cut|, left);
        return;
      }
      AddedNext(o, old(o.sealed), old(o.sequence), chunks, before, o.sealed, cut, messages[i]);
      CutsMore(cuts, messages, o.maxSendFragment, i, cut);
      cuts, chunks := cuts + [cut], chunks + cut;
    }
    assert messages[..|messages|] == messages;
    CutsAreChunking(cuts, messages, o.maxSendFragment);
    ok := true;
  }
}
