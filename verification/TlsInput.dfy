/** The handshake input path of TLS: messages are put together from records of any size. What
    comes out does not depend on where the records end, and nothing is read ahead. */
module TlsInput {
  import opened ByteString

  const RT_HANDSHAKE: byte := 22
  const HEADER: nat := 4

  // ----------------------------------------------------------------- the framing

  /** The length in a message header. */
  function LengthIn(b: seq<byte>): nat
    requires |b| >= HEADER
  {
    DecBE(b[1..4])
  }

  /** How many bytes the message at the front of the buffer needs, as far as is known. */
  function Needed(b: seq<byte>): (n: nat)
    ensures n >= HEADER
  {
    if |b| < HEADER then HEADER else HEADER + LengthIn(b)
  }

  /** A whole message: its type, the length of its body in three bytes, and its body. */
  predicate IsMessage(m: seq<byte>) {
    |m| >= HEADER && |m| == Needed(m)
  }

  /** A type, the length of a body in three bytes, most significant first, and that body are a
      message; and there are no other ones. */
  lemma MessageForm(t: byte, body: seq<byte>)
    requires |body| < 0x100_0000
    ensures IsMessage([t] + EncBE(|body|, 3) + body)
  {
    Pow256Values();
    BigEndianRoundTrip(|body|, 3);
    var m := [t] + EncBE(|body|, 3) + body;
    hide EncBE, DecBE;
    assert m[1..4] == EncBE(|body|, 3);
  }

  lemma MessageParts(m: seq<byte>)
    requires IsMessage(m)
    ensures |m| - HEADER < 0x100_0000 && m == [m[0]] + EncBE(|m| - HEADER, 3) + m[HEADER..]
  {
    hide EncBE, DecBE, Pow256;
    Pow256Values();
    BigEndianBack(m[1..4]);
    HeaderJoins(m);
  }

  lemma HeaderJoins(m: seq<byte>)
    requires |m| >= HEADER
    ensures m == [m[0]] + m[1..4] + m[HEADER..]
  {
  }

  predicate AllMessages(s: seq<seq<byte>>) {
    forall m :: m in s ==> IsMessage(m)
  }

  function Joined(s: seq<seq<byte>>): seq<byte> {
    if s == [] then [] else s[0] + Joined(s[1..])
  }

  lemma {:induction false} JoinedMore(s: seq<seq<byte>>, x: seq<byte>)
    ensures Joined(s + [x]) == Joined(s) + x
  {
    if s == [] {
      assert s + [x] == [x] && [x][1..] == [];
    } else {
      assert (s + [x])[0] == s[0] && (s + [x])[1..] == s[1..] + [x];
      JoinedMore(s[1..], x);
    }
  }

  /** No message is the beginning of another one. */
  lemma SameMessage(a: seq<byte>, s: seq<byte>, b: seq<byte>, t: seq<byte>)
    requires IsMessage(a) && IsMessage(b) && a + s == b + t
    ensures a == b && s == t
  {
    assert a[1..4] == (a + s)[1..4] && b[1..4] == (b + t)[1..4];
    assert |a| == |b|;
    assert (a + s)[..|a|] == a && (b + t)[..|b|] == b;
    assert (a + s)[|a|..] == s && (b + t)[|b|..] == t;
  }

  /** There is only one way to cut a byte string into messages. */
  lemma {:induction false} FramingIsUnique(messages: seq<seq<byte>>, released: seq<seq<byte>>, rest: seq<byte>)
    requires AllMessages(messages)
    requires AllMessages(released)
    requires Joined(released) + rest == Joined(messages)
    ensures released <= messages
    ensures rest == Joined(messages[|released|..])
    decreases |released|
  {
    if released == [] {
      assert Joined(released) + rest == rest;
      assert messages[0..] == messages;
    } else {
      var a, tail := released[0], Joined(released[1..]) + rest;
      assert a + tail == Joined(messages);
      assert a in released && IsMessage(a);
      assert |Joined(messages)| >= |a| >= HEADER && messages != [];
      var b := messages[0];
      SameMessage(a, tail, b, Joined(messages[1..]));
      hide Joined, IsMessage;
      FramingIsUnique(messages[1..], released[1..], rest);
      PrefixStep(messages, released);
    }
  }

  lemma PrefixStep(messages: seq<seq<byte>>, released: seq<seq<byte>>)
    requires messages != [] && released != [] && messages[0] == released[0] && released[1..] <= messages[1..]
    ensures released <= messages
    ensures messages[1..][|released| - 1..] == messages[|released|..]
  {
    assert released == [released[0]] + released[1..] && messages == [messages[0]] + messages[1..];
  }

  // --------------------------------------------------------------------- records

  datatype Record = Record(recordType: byte, data: seq<byte>)

  function Contents(records: seq<Record>): seq<byte> {
    if records == [] then [] else records[0].data + Contents(records[1..])
  }

  lemma {:induction false} ContentsMore(records: seq<Record>, r: Record)
    ensures Contents(records + [r]) == Contents(records) + r.data
  {
    if records == [] {
      assert records + [r] == [r] && [r][1..] == [];
    } else {
      assert (records + [r])[0] == records[0] && (records + [r])[1..] == records[1..] + [r];
      ContentsMore(records[1..], r);
    }
  }

  /** How many handshake bytes there are in front of the first record of another type. */
  function Front(records: seq<Record>): nat {
    if records == [] || records[0].recordType != RT_HANDSHAKE then 0
    else |records[0].data| + Front(records[1..])
  }

  predicate AllHandshake(records: seq<Record>) {
    forall r :: r in records ==> r.recordType == RT_HANDSHAKE
  }

  lemma {:induction false} FrontIsAll(records: seq<Record>)
    requires AllHandshake(records)
    ensures Front(records) == |Contents(records)|
  {
    if records != [] {
      FrontIsAll(records[1..]);
    }
  }

  /** What has come out, what is buffered and what has not been read are what arrived. */
  predicate Conserved(released: seq<seq<byte>>, buffer: seq<byte>, record: seq<byte>, incoming: seq<Record>, arrived: seq<byte>) {
    Joined(released) + buffer + record + Contents(incoming) == arrived
  }

  lemma ConservedArriving(released: seq<seq<byte>>, buffer: seq<byte>, record: seq<byte>, incoming: seq<Record>,
                          arrived: seq<byte>, r: Record)
    requires Conserved(released, buffer, record, incoming, arrived)
    ensures Conserved(released, buffer, record, incoming + [r], arrived + r.data)
  {
    ContentsMore(incoming, r);
    assert Joined(released) + buffer + record + (Contents(incoming) + r.data)
        == Joined(released) + buffer + record + Contents(incoming) + r.data;
  }

  lemma ConservedTaking(released: seq<seq<byte>>, buffer: seq<byte>, incoming: seq<Record>, arrived: seq<byte>)
    requires Conserved(released, buffer, [], incoming, arrived) && incoming != []
    ensures Conserved(released, buffer, incoming[0].data, incoming[1..], arrived)
  {
    var front := Joined(released) + buffer;
    assert front + [] + (incoming[0].data + Contents(incoming[1..])) == front + incoming[0].data + Contents(incoming[1..]);
  }

  lemma ConservedReading(released: seq<seq<byte>>, buffer: seq<byte>, record: seq<byte>, incoming: seq<Record>,
                         arrived: seq<byte>, n: nat)
    requires Conserved(released, buffer, record, incoming, arrived) && n <= |record|
    ensures Conserved(released, buffer + record[..n], record[n..], incoming, arrived)
  {
    assert record == record[..n] + record[n..];
    assert Joined(released) + (buffer + record[..n]) + record[n..] == Joined(released) + buffer + record;
  }

  lemma ConservedReleasing(released: seq<seq<byte>>, buffer: seq<byte>, record: seq<byte>, incoming: seq<Record>,
                           arrived: seq<byte>)
    requires Conserved(released, buffer, record, incoming, arrived)
    ensures Conserved(released + [buffer], [], record, incoming, arrived)
  {
    JoinedMore(released, buffer);
    assert Joined(released) + buffer + [] == Joined(released) + buffer;
  }

  // ------------------------------------------------------------------- the input

  /** `init_buf`, the current record, and the records that can be read. */
  class Input {
    var incoming: seq<Record>
    var initBuf: Option<seq<byte>>
    var recordType: byte
    var record: seq<byte>
    var hasMessage: bool
    const inInit: bool
    const maxMessageLen: nat
    /** Every byte that arrived in a record, and the messages released so far. */
    ghost var arrived: seq<byte>
    ghost var released: seq<seq<byte>>

    function Buffer(): seq<byte>
      reads this
    {
      if initBuf.Some? then initBuf.value else []
    }

    /** How many handshake bytes can be read before anything else comes. */
    function Available(): nat
      reads this
    {
      if record == [] then Front(incoming)
      else if recordType == RT_HANDSHAKE then |record| + Front(incoming)
      else 0
    }

    /** Nothing but handshake records has come. */
    ghost predicate OnlyHandshake()
      reads this
    {
      (record != [] ==> recordType == RT_HANDSHAKE) && AllHandshake(incoming)
    }

    /** Whether the message at the front can be completed with what is there. */
    predicate CanRead()
      reads this
    {
      && !IsMessage(Buffer())
      && Needed(Buffer()) <= HEADER + maxMessageLen
      && Needed(Buffer()) <= |Buffer()| + Available()
    }

    /** The buffer never holds a byte behind the current message. */
    ghost predicate Valid()
      reads this
    {
      && |Buffer()| <= Needed(Buffer())
      && Conserved(released, Buffer(), record, incoming, arrived)
      && AllMessages(released)
      && (hasMessage ==> IsMessage(Buffer()))
    }

    constructor (inInit: bool, maxMessageLen: nat)
      ensures Valid() && released == [] && arrived == [] && OnlyHandshake()
      ensures this.inInit == inInit && this.maxMessageLen == maxMessageLen
    {
      this.inInit, this.maxMessageLen := inInit, maxMessageLen;
      incoming, initBuf, recordType, record, hasMessage := [], None, 0, [], false;
      arrived, released := [], [];
    }

    /** The transport delivers a record, at any time. */
    method Arrive(r: Record)
      requires Valid()
      modifies this`incoming, this`arrived
      ensures Valid() && arrived == old(arrived) + r.data && incoming == old(incoming) + [r]
      ensures old(OnlyHandshake()) && r.recordType == RT_HANDSHAKE ==> OnlyHandshake()
    {
      ConservedArriving(released, Buffer(), record, incoming, arrived, r);
      hide Conserved;
      incoming, arrived := incoming + [r], arrived + r.data;
    }

    /** `ssl3_get_record`, as far as it matters here: the next record, or none yet. */
    method GetRecord() returns (ret: int)
      requires Valid() && record == []
      modifies this`incoming, this`recordType, this`record
      ensures Valid()
      ensures ret > 0 <==> old(incoming) != []
      ensures ret > 0 ==> |incoming| < |old(incoming)| && Record(recordType, record) == old(incoming[0])
      ensures ret <= 0 ==> incoming == old(incoming) && record == []
      ensures ret <= 0 ==> old(Available()) == 0
      ensures ret > 0 ==> old(Available()) == if recordType == RT_HANDSHAKE then Available() else 0
      ensures old(OnlyHandshake()) ==> OnlyHandshake() && (ret > 0 ==> recordType == RT_HANDSHAKE)
    {
      hide Conserved, AllMessages, Needed;
      if incoming == [] {
        return -1;
      }
      ConservedTaking(released, Buffer(), incoming, arrived);
      recordType, record := incoming[0].recordType, incoming[0].data;
      incoming := incoming[1..];
      return 1;
    }

    /** `ssl3_read_handshake_bytes` and `extend_handshake_buffer`'s use of it: some bytes, but
        at most `len`, go from the current record to the end of the buffer. */
    method ReadHandshakeBytes(len: nat) returns (ret: int)
      requires Valid() && initBuf.Some? && len > 0 && |Buffer()| + len <= Needed(Buffer()) && !hasMessage
      modifies this`incoming, this`recordType, this`record, this`initBuf
      ensures Valid() && ret <= len && initBuf.Some?
      ensures ret > 0 ==> |Buffer()| == |old(Buffer())| + ret && old(Buffer()) <= Buffer()
      ensures ret <= 0 ==> Buffer() == old(Buffer())
      ensures ret > 0 <==> old(Available()) > 0
      ensures ret > 0 || old(OnlyHandshake()) ==> |Buffer()| + Available() == old(|Buffer()| + Available())
      ensures old(OnlyHandshake()) ==> OnlyHandshake()
    {
      hide Conserved, Needed, AllMessages, Front, AllHandshake;
      while true
        invariant Valid() && initBuf == old(initBuf)
        invariant Available() == old(Available()) && (old(OnlyHandshake()) ==> OnlyHandshake())
        decreases |incoming|, |record|
      {
        if record == [] {
          ret := GetRecord();
          if ret <= 0 {
            return;
          }
        }
        if recordType != RT_HANDSHAKE {
          return -1;  // unexpected record
        }
        if record != [] {
          var n := if len > |record| then |record| else len;
          ConservedReading(released, Buffer(), record, incoming, arrived, n);
          NeededKept(Buffer(), record[..n]);
          initBuf := Some(initBuf.value + record[..n]);
          record := record[n..];
          return n;
        }
        // The record was empty.
      }
    }

    /** `extend_handshake_buffer`. */
    method ExtendHandshakeBuffer(length: nat) returns (ret: int)
      requires Valid() && initBuf.Some? && !hasMessage && length == Needed(Buffer())
      modifies this`incoming, this`recordType, this`record, this`initBuf
      ensures Valid() && initBuf.Some? && old(Buffer()) <= Buffer() && |Buffer()| <= length
      ensures ret > 0 <==> |Buffer()| == length
      ensures ret > 0 <==> length <= old(|Buffer()| + Available())
      ensures ret > 0 || old(OnlyHandshake()) ==> |Buffer()| + Available() == old(|Buffer()| + Available())
      ensures old(OnlyHandshake()) ==> OnlyHandshake()
    {
      hide Conserved, Available, OnlyHandshake;
      while |Buffer()| < length
        invariant Valid() && initBuf.Some? && old(Buffer()) <= Buffer()
        invariant |Buffer()| < length ==> Needed(Buffer()) == length
        invariant |Buffer()| <= length
        invariant |Buffer()| + Available() == old(|Buffer()| + Available()) && (old(OnlyHandshake()) ==> OnlyHandshake())
        decreases length - |Buffer()|
      {
        ret := ReadHandshakeBytes(length - |Buffer()|);
        if ret <= 0 {
          return;
        }
        NeededSame(old(Buffer()), Buffer());
      }
      return 1;
    }

    /** `parse_message`: the buffer holds the current message, or it says how much that needs. */
    method ParseMessage() returns (whole: bool, bytesNeeded: nat)
      requires Valid()
      ensures whole <==> IsMessage(Buffer())
      ensures !whole ==> bytesNeeded == Needed(Buffer())
    {
      if initBuf.None? || |initBuf.value| < HEADER {
        return false, HEADER;
      }
      bytesNeeded := HEADER + LengthIn(initBuf.value);
      whole := |initBuf.value| >= bytesNeeded;
    }

    /** `ssl3_get_message`: all of the buffer, for nothing is read ahead. */
    method GetMessage() returns (found: bool, raw: seq<byte>)
      requires Valid()
      modifies this`hasMessage
      ensures Valid()
      ensures found <==> IsMessage(Buffer())
      ensures found ==> raw == Buffer() && hasMessage
      ensures !found ==> hasMessage == old(hasMessage)
    {
      hide Conserved;
      raw := [];
      var bytesNeeded: nat;
      found, bytesNeeded := ParseMessage();
      if !found {
        return;
      }
      raw := initBuf.value[..HEADER + LengthIn(initBuf.value)];
      hasMessage := true;
    }

    /** `ssl3_read_message`: the header, or what the header says is missing. */
    method ReadMessage() returns (ret: int)
      requires Valid()
      modifies this`incoming, this`recordType, this`record, this`initBuf
      ensures Valid() && old(Buffer()) <= Buffer()
      ensures ret > 0 <==> old(CanRead())
      ensures ret <= 0 && !IsMessage(old(Buffer())) ==> !IsMessage(Buffer()) && (old(OnlyHandshake()) ==> !CanRead())
      ensures IsMessage(old(Buffer())) || Needed(old(Buffer())) > HEADER + maxMessageLen ==> ret == -1
      ensures ret > 0 || old(OnlyHandshake()) ==> |Buffer()| + Available() == old(|Buffer()| + Available())
      ensures old(OnlyHandshake()) ==> OnlyHandshake()
      ensures ret > 0 ==> |Buffer()| == Needed(old(Buffer())) > |old(Buffer())|
      ensures ret > 0 && |old(Buffer())| >= HEADER ==> IsMessage(Buffer())
    {
      hide Conserved, Front, AllHandshake;
      var whole, bytesNeeded := ParseMessage();
      if whole {
        return -1;
      }
      // The length field would allow 16 MB.
      if bytesNeeded > HEADER + maxMessageLen {
        return -1;
      }
      if initBuf.None? {
        initBuf := Some([]);
      }
      ret := ExtendHandshakeBuffer(bytesNeeded);
      if ret > 0 && |old(Buffer())| >= HEADER {
        assert Buffer()[1..4] == old(Buffer())[1..4];
      }
      NeededSame(old(Buffer()), Buffer());
    }

    /** `ssl3_next_message`: what is behind the message moves to the front; there is nothing. */
    method NextMessage()
      requires Valid() && IsMessage(Buffer())
      modifies this`initBuf, this`hasMessage, this`released
      ensures Valid() && Buffer() == [] && !hasMessage && (initBuf.Some? <==> inInit)
      ensures released == old(released) + [old(Buffer())]
    {
      ConservedReleasing(released, Buffer(), record, incoming, arrived);
      hide Conserved;
      var length := HEADER + LengthIn(initBuf.value);
      released := released + [initBuf.value[..length]];
      assert initBuf.value[..length] == initBuf.value && initBuf.value[length..] == [];
      initBuf := Some(initBuf.value[length..]);
      hasMessage := false;
      // Behind the handshake no empty buffer is kept.
      if !inInit && |initBuf.value| == 0 {
        initBuf := None;
      }
    }

    /** The messages that have come, one after the other: as the handshake takes them, as long
        as it asks for more. */
    method TakeMessages()
      requires Valid()
      modifies this`incoming, this`recordType, this`record, this`initBuf, this`hasMessage, this`released
      ensures Valid() && !IsMessage(Buffer())
      ensures old(OnlyHandshake()) ==> OnlyHandshake() && !CanRead()
    {
      hide Conserved, Front, AllHandshake, CanRead;
      while true
        invariant Valid() && (old(OnlyHandshake()) ==> OnlyHandshake())
        decreases |Buffer()| + Available(), Available()
      {
        var found, raw := GetMessage();
        if found {
          NextMessage();
        } else {
          var ret := ReadMessage();
          if ret <= 0 {
            return;
          }
        }
      }
    }

    /** Whatever messages the peer has sent and however its records cut them, the messages
        released are the first of them, and the buffer holds a part of the next one. */
    lemma ReleasedArePrefix(messages: seq<seq<byte>>, later: seq<byte>)
      requires Valid() && arrived + later == Joined(messages)
      requires AllMessages(messages)
      ensures released <= messages
      ensures |released| < |messages| ==> Buffer() <= messages[|released|]
      ensures |released| == |messages| ==> Buffer() == []
    {
      var behind := record + Contents(incoming) + later;
      Regroup(Joined(released), Buffer(), record, Contents(incoming), later, arrived, Joined(messages));
      hide Conserved, Needed, IsMessage, AllMessages, Contents, Joined;
      PrefixOf(messages, released, Buffer(), behind);
    }

    lemma AvailableIsAll()
      requires Valid() && OnlyHandshake()
      ensures |arrived| == |Joined(released)| + |Buffer()| + Available()
    {
      FrontIsAll(incoming);
    }

    /** Once the messages that can be read have been taken, exactly those are released whose
        bytes have arrived; when all the bytes have arrived, all of the messages. */
    lemma TakenAreAll(messages: seq<seq<byte>>, later: seq<byte>)
      requires Valid() && OnlyHandshake() && !IsMessage(Buffer()) && !CanRead()
      requires arrived + later == Joined(messages) && AllMessages(messages)
      requires Within(messages, HEADER + maxMessageLen)
      ensures released <= messages && |Joined(released)| <= |arrived|
      ensures |released| < |messages| ==> |arrived| < |Joined(messages[..|released| + 1])|
      ensures later == [] ==> released == messages
    {
      hide Conserved, Joined, AllMessages, Within, Available, OnlyHandshake, Needed, IsMessage;
      ReleasedArePrefix(messages, later);
      AvailableIsAll();
      var k := |released|;
      if k < |messages| {
        IsOne(messages, k);
        OneWithin(messages, HEADER + maxMessageLen, k);
        NeedsMore(Buffer(), messages[k], HEADER + maxMessageLen, Available());
        JoinedUpTo(messages, k);
        assert messages[..k] == released;
        JoinedPart(messages, k + 1);
      }
    }
  }

  /** No message is longer than the limit. */
  predicate Within(messages: seq<seq<byte>>, limit: nat) {
    forall m :: m in messages ==> |m| <= limit
  }

  lemma OneWithin(messages: seq<seq<byte>>, limit: nat, k: nat)
    requires Within(messages, limit) && k < |messages|
    ensures |messages[k]| <= limit
  {
  }

  lemma JoinedUpTo(s: seq<seq<byte>>, k: nat)
    requires k < |s|
    ensures |Joined(s[..k + 1])| == |Joined(s[..k])| + |s[k]|
  {
    assert s[..k + 1] == s[..k] + [s[k]];
    JoinedMore(s[..k], s[k]);
  }

  lemma {:induction false} JoinedPart(s: seq<seq<byte>>, k: nat)
    requires k <= |s|
    ensures |Joined(s[..k])| <= |Joined(s)|
    decreases |s| - k
  {
    if k == |s| {
      assert s[..k] == s;
    } else {
      JoinedPart(s, k + 1);
      JoinedUpTo(s, k);
    }
  }

  /** What is missing of the message at the front is missing of all that is to come. */
  lemma NeedsMore(buffer: seq<byte>, m: seq<byte>, limit: nat, available: nat)
    requires IsMessage(m) && |m| <= limit && HEADER <= limit && buffer <= m && !IsMessage(buffer)
    requires |buffer| <= Needed(buffer)
    requires !(Needed(buffer) <= limit && Needed(buffer) <= |buffer| + available)
    ensures |buffer| + available < |m|
  {
    if |buffer| >= HEADER {
      assert m[1..4] == buffer[1..4];
    }
  }

  lemma {:induction false} PrefixOf(messages: seq<seq<byte>>, released: seq<seq<byte>>, buffer: seq<byte>, behind: seq<byte>)
    requires AllMessages(messages)
    requires AllMessages(released)
    requires Joined(released) + (buffer + behind) == Joined(messages) && |buffer| <= Needed(buffer)
    ensures released <= messages
    ensures |released| < |messages| ==> buffer <= messages[|released|]
    ensures |released| == |messages| ==> buffer == []
  {
    hide Needed, IsMessage, Joined, AllMessages;
    FramingIsUnique(messages, released, buffer + behind);
    if |released| < |messages| {
      IsOne(messages, |released|);
      PartOfNext(messages, |released|, buffer, behind);
    } else {
      NothingMore(messages, |released|, buffer, behind);
    }
  }

  lemma IsOne(messages: seq<seq<byte>>, k: nat)
    requires AllMessages(messages) && k < |messages|
    ensures IsMessage(messages[k])
  {
  }

  lemma PartOfNext(messages: seq<seq<byte>>, k: nat, buffer: seq<byte>, behind: seq<byte>)
    requires k < |messages| && IsMessage(messages[k]) && |buffer| <= Needed(buffer)
    requires buffer + behind == Joined(messages[k..])
    ensures buffer <= messages[k]
  {
    JoinedFrom(messages, k);
    hide Joined;
    BufferIsPart(buffer, behind, messages[k], Joined(messages[k + 1..]));
  }

  lemma NothingMore(messages: seq<seq<byte>>, k: nat, buffer: seq<byte>, behind: seq<byte>)
    requires k == |messages| && buffer + behind == Joined(messages[k..])
    ensures buffer == []
  {
    NothingJoined(messages, k);
    EmptySum(buffer, behind);
  }

  lemma EmptySum(a: seq<byte>, b: seq<byte>)
    requires |a + b| == 0
    ensures a == []
  {
  }

  lemma JoinedFrom(s: seq<seq<byte>>, k: nat)
    requires k < |s|
    ensures Joined(s[k..]) == s[k] + Joined(s[k + 1..])
  {
    assert s[k..][1..] == s[k + 1..];
  }

  lemma NothingJoined(s: seq<seq<byte>>, k: nat)
    requires k == |s|
    ensures Joined(s[k..]) == []
  {
  }

  lemma Regroup(a: seq<byte>, b: seq<byte>, c: seq<byte>, d: seq<byte>, e: seq<byte>, arrived: seq<byte>, all: seq<byte>)
    requires a + b + c + d == arrived && arrived + e == all
    ensures a + (b + (c + d + e)) == all
  {
  }

  /** A buffer that is not longer than its message needs is a part of that message. */
  lemma BufferIsPart(b: seq<byte>, s: seq<byte>, m: seq<byte>, t: seq<byte>)
    requires b + s == m + t && IsMessage(m) && |b| <= Needed(b)
    ensures b <= m
  {
    if |b| >= HEADER {
      assert b[1..4] == (b + s)[1..4] && m[1..4] == (m + t)[1..4];
    }
    assert (b + s)[..|b|] == b && (m + t)[..|b|] == m[..|b|];
  }

  /** Reading no more than is needed stays within the message. */
  lemma NeededKept(b: seq<byte>, more: seq<byte>)
    requires |b| + |more| <= Needed(b)
    ensures |b + more| <= Needed(b + more)
  {
    if |b| >= HEADER {
      assert (b + more)[1..4] == b[1..4];
    }
  }

  lemma NeededSame(b: seq<byte>, b': seq<byte>)
    requires b <= b' && |b'| <= Needed(b)
    ensures |b'| < Needed(b) ==> Needed(b') == Needed(b)
  {
    if |b| >= HEADER {
      assert b'[1..4] == b[1..4];
    }
  }
}
