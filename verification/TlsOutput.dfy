/** The output path of TLS: the pending flight, the write buffer and resumable writes of
    application data. Whatever the transport takes, the bytes on the wire, in the buffer and in
    the flight together are all records in the order they were sealed in, and every byte of
    application data is sealed once. */
module TlsOutput {
  import opened ByteString
  import opened TlsBuffer

  const RT_CHANGE_CIPHER_SPEC: byte := 20
  const RT_ALERT: byte := 21
  const RT_HANDSHAKE: byte := 22
  const RT_APPLICATION_DATA: byte := 23
  const MAX_PLAIN_LENGTH: nat := 16384
  const INT_MAX: nat := 0x7fff_ffff

  /** What is on the wire, in the buffer and left of the flight is what was sealed, in order. */
  predicate Conserved(wire: seq<byte>, buffer: seq<byte>, rest: seq<byte>, sealed: seq<byte>) {
    wire + buffer + rest == sealed
  }

  /** Exactly the first `n` bytes. */
  predicate UpTo(covered: seq<byte>, data: seq<byte>, n: nat) {
    n <= |data| && covered == data[..n]
  }

  lemma UpToMore(covered: seq<byte>, data: seq<byte>, n: nat, m: nat)
    requires UpTo(covered, data, n) && n + m <= |data|
    ensures UpTo(covered + data[n..n + m], data, n + m)
  {
    assert data[..n] + data[n..n + m] == data[..n + m];
  }

  lemma Nothing(data: seq<byte>)
    ensures UpTo([], data, 0)
  {
  }

  lemma Bounded(covered: seq<byte>, data: seq<byte>, n: nat)
    ensures UpTo(covered, data, n) ==> n <= |data|
  {
  }

  lemma ConservedAdding(wire: seq<byte>, buffer: seq<byte>, rest: seq<byte>, sealed: seq<byte>, record: seq<byte>)
    requires Conserved(wire, buffer, rest, sealed)
    ensures Conserved(wire, buffer, rest + record, sealed + record)
  {
    assert wire + buffer + (rest + record) == wire + buffer + rest + record;
  }

  lemma ConservedFlushing(wire: seq<byte>, buffer: seq<byte>, rest: seq<byte>, sealed: seq<byte>,
                          wire': seq<byte>, buffer': seq<byte>)
    requires Conserved(wire, buffer, rest, sealed) && wire' + buffer' == wire + buffer
    ensures Conserved(wire', buffer', rest, sealed)
  {
  }

  lemma ConservedSending(wire: seq<byte>, rest: seq<byte>, sealed: seq<byte>, n: nat)
    requires Conserved(wire, [], rest, sealed) && n <= |rest|
    ensures Conserved(wire + rest[..n], [], rest[n..], sealed)
  {
    Moved(wire, rest, n);
    assert wire + [] == wire && wire + rest[..n] + [] == wire + rest[..n];
  }

  /** A record sealed behind the flight comes behind everything sealed before. */
  lemma ConservedSplicing(wire: seq<byte>, rest: seq<byte>, sealed: seq<byte>, record: seq<byte>)
    requires Conserved(wire, [], rest, sealed)
    ensures Conserved(wire, rest + record, [], sealed + record)
  {
    assert wire + (rest + record) + [] == wire + [] + rest + record;
  }

  /** Order is not kept where bytes are missing. */
  lemma ConservedLength(wire: seq<byte>, buffer: seq<byte>, rest: seq<byte>, sealed: seq<byte>)
    requires Conserved(wire, buffer, rest, sealed)
    ensures |wire| + |buffer| + |rest| == |sealed|
    ensures buffer == [] && rest == [] ==> wire == sealed
  {
    assert buffer == [] && rest == [] ==> wire + [] + [] == wire;
  }

  /** From `n` records sealed to `n'`, with the flight as it was, or gone. */
  predicate Moves(rest: seq<byte>, n: nat, rest': seq<byte>, n': nat) {
    n <= n' && (rest' == rest || rest' == []) && (n < n' ==> rest' == [])
  }

  /** There was a flight, it is gone, and nothing was sealed. */
  predicate Dropped(rest: seq<byte>, n: nat, rest': seq<byte>, n': nat) {
    rest != [] && rest' == [] && n' == n
  }

  /** The length of a flight that was dropped. */
  function Lost(rest: seq<byte>, n: nat, rest': seq<byte>, n': nat): nat {
    if Dropped(rest, n, rest', n') then |rest| else 0
  }

  lemma NothingMoved(rest: seq<byte>, n: nat)
    ensures Moves(rest, n, rest, n) && !Dropped(rest, n, rest, n) && Lost(rest, n, rest, n) == 0
  {
  }

  lemma MovesOn(rest: seq<byte>, n: nat, rest1: seq<byte>, n1: nat, rest2: seq<byte>, n2: nat)
    requires Moves(rest, n, rest1, n1) && !Dropped(rest, n, rest1, n1) && Moves(rest1, n1, rest2, n2)
    ensures Moves(rest, n, rest2, n2)
    ensures Dropped(rest, n, rest2, n2) <==> Dropped(rest1, n1, rest2, n2)
    ensures Lost(rest, n, rest2, n2) == Lost(rest1, n1, rest2, n2)
    ensures Dropped(rest, n, rest2, n2) ==> n1 == n
    ensures !Dropped(rest, n, rest2, n2) ==> Lost(rest, n, rest2, n2) == 0 && |rest2| <= |rest|
    ensures |rest1| <= |rest|
  {
  }

  class Output {
    const bio: Stream
    const writeBuffer: Buffer
    const maxSendFragment: nat
    const overhead: nat
    const seal: (nat, byte, seq<byte>) -> Option<seq<byte>>
    const partialWrite: bool
    const movingBuffer: bool
    var sequence: nat
    var flight: Option<seq<byte>>
    var flightOffset: nat
    var wnum: nat
    var wpendTot: nat
    var wpendType: byte
    var wpendRet: nat
    var wpendBuf: int
    var wpendPending: bool

    /** All records sealed, in order. */
    ghost var sealed: seq<byte>
    /** The application data sealed since the last write was completed. */
    ghost var covered: seq<byte>

    /** `tls_seal_record` for the record of a given number, type and plaintext. */
    function SealRecord(n: nat, recordType: byte, data: seq<byte>): Option<seq<byte>> {
      seal(n, recordType, data)
    }

    ghost predicate Sized() {
      forall n, t, p :: SealRecord(n, t, p).Some? ==> 0 < |SealRecord(n, t, p).value| <= |p| + overhead
    }

    ghost predicate Valid()
      reads this, bio, writeBuffer, writeBuffer.buf
    {
      && writeBuffer.Valid()
      && 0 < maxSendFragment <= MAX_PLAIN_LENGTH
      && Sized()
      && (if flight.Some? then flightOffset <= |flight.value| else flightOffset == 0)
      && (wpendPending ==> 0 < wpendTot == wpendRet)
    }

    /** What is on the wire, in the buffer and left of the flight is all that was sealed, in
        the order it was sealed in. */
    ghost predicate InOrder()
      requires Valid()
      reads this, bio, writeBuffer, writeBuffer.buf
    {
      Conserved(bio.wire, writeBuffer.Contents(), FlightRest(), sealed)
    }

    /** That holds, and the offset of the buffer will not come around before it is empty. */
    ghost predicate Sound()
      requires Valid()
      reads this, bio, writeBuffer, writeBuffer.buf
    {
      InOrder() && writeBuffer.Fits()
    }

    /** How many of the bytes sealed are nowhere. */
    ghost function Missing(): int
      requires Valid()
      reads this, bio, writeBuffer, writeBuffer.buf
    {
      |sealed| - |bio.wire| - writeBuffer.len - |FlightRest()|
    }

    /** The flight and a record of `n` bytes behind it fit the buffer, wherever it is. */
    predicate Room(n: nat)
      reads this`flight, this`flightOffset
    {
      n + overhead + |FlightRest()| + ALIGN - 1 <= U16
    }

    /** Nothing is in the way of a write of this length. */
    predicate Ready(n: nat)
      reads this, writeBuffer
    {
      && !wpendPending && 0 < n <= MAX_PLAIN_LENGTH
      && writeBuffer.buf == null && n + overhead + |FlightRest()| < U16
    }

    /** These are the arguments with which a blocked write can be taken up again. */
    predicate Retries(recordType: byte, data: seq<byte>, address: int)
      reads this`wpendTot, this`wpendType, this`wpendBuf
    {
      wpendTot <= |data| && (movingBuffer || wpendBuf == address) && wpendType == recordType
    }

    /** A write of this record will seal it. */
    predicate Seals(recordType: byte, data: seq<byte>)
      reads this, writeBuffer
    {
      Ready(|data|) && SealRecord(sequence, recordType, data).Some?
    }

    /** A write of this record will move the flight to the buffer and then fail to seal. */
    predicate Loses(recordType: byte, data: seq<byte>)
      reads this, writeBuffer
    {
      Ready(|data|) && FlightRest() != [] && SealRecord(sequence, recordType, data).None?
    }

    /** The record of some part of the data cannot be sealed. */
    ghost predicate Refuses(n: nat, recordType: byte, data: seq<byte>) {
      exists i, k :: Part(i, k, |data|) && SealRecord(n, recordType, data[i..k]).None?
    }

    ghost predicate Part(i: int, k: int, n: nat) {
      0 <= i < k <= n && k - i <= MAX_PLAIN_LENGTH
    }

    ghost predicate NeverRefuses() {
      forall n, t, p :: 0 < |p| <= MAX_PLAIN_LENGTH ==> SealRecord(n, t, p).Some?
    }

    /** The part of the flight the transport has not taken. */
    function FlightRest(): (s: seq<byte>)
      reads this`flight, this`flightOffset
    {
      if flight.Some? && flightOffset <= |flight.value| then flight.value[flightOffset..] else []
    }

    /** How much application data is in a record that waits to be written. */
    function AppPending(): nat
      reads this
    {
      if wpendPending && wpendType == RT_APPLICATION_DATA then wpendRet else 0
    }

    /** A write of `data` is to be begun, or can be taken up again: exactly what is counted
        as written or waits in the buffer has been sealed. */
    ghost predicate Resumable(data: seq<byte>)
      reads this
    {
      UpTo(covered, data, wnum + AppPending())
    }

    lemma SoundIsWhole()
      requires Valid() && InOrder()
      ensures Missing() == 0
    {
      ConservedLength(bio.wire, writeBuffer.Contents(), FlightRest(), sealed);
    }

    lemma NothingRefused(n: nat, recordType: byte, data: seq<byte>)
      ensures NeverRefuses() ==> !Refuses(n, recordType, data)
    {
      forall i, k | Part(i, k, |data|)
        ensures NeverRefuses() ==> SealRecord(n, recordType, data[i..k]).Some?
      {
        assert |data[i..k]| == k - i;
      }
    }

    lemma NothingLost(recordType: byte, data: seq<byte>)
      ensures NeverRefuses() ==> !Loses(recordType, data)
    {
      assert SealRecord(sequence, recordType, data) == SealRecord(sequence, recordType, data);
    }

    lemma FragmentsAreRecords()
      requires Valid()
      ensures 0 < maxSendFragment <= MAX_PLAIN_LENGTH
    {
    }

    constructor (bio: Stream, maxSendFragment: nat, overhead: nat, seal: (nat, byte, seq<byte>) -> Option<seq<byte>>,
                 partialWrite: bool, movingBuffer: bool)
      requires bio.wire == [] && 0 < maxSendFragment <= MAX_PLAIN_LENGTH
      requires forall n, t, p :: seal(n, t, p).Some? ==> 0 < |seal(n, t, p).value| <= |p| + overhead
      ensures Valid() && this.bio == bio && sealed == [] && fresh(writeBuffer) && Sound()
      ensures this.seal == seal && this.maxSendFragment == maxSendFragment && this.overhead == overhead
      ensures flight.None? && !wpendPending && sequence == 0 && wnum == 0 && writeBuffer.buf == null
      ensures forall data: seq<byte> :: Resumable(data)
    {
      this.bio, this.maxSendFragment, this.overhead, this.seal := bio, maxSendFragment, overhead, seal;
      this.partialWrite, this.movingBuffer := partialWrite, movingBuffer;
      writeBuffer := new Buffer();
      sequence, flight, flightOffset, wnum := 0, None, 0, 0;
      wpendTot, wpendType, wpendRet, wpendBuf, wpendPending := 0, 0, 0, 0, false;
      sealed, covered := [], [];
    }

    /** `add_record_to_flight`; never called while the flight is being written out. */
    method AddRecordToFlight(recordType: byte, data: seq<byte>) returns (ok: bool)
      requires Valid() && flightOffset == 0
      modifies this`flight, this`sequence, this`sealed
      ensures Valid() && flightOffset == 0
      ensures ok <==> SealRecord(old(sequence), recordType, data).Some?
      ensures ok ==>
                && sealed == old(sealed) + SealRecord(old(sequence), recordType, data).value
                && sequence == old(sequence) + 1
      ensures !ok ==> sealed == old(sealed) && sequence == old(sequence) && FlightRest() == old(FlightRest())
      ensures Missing() == old(Missing()) && (old(Sound()) ==> Sound())
    {
      hide Conserved, Sized;
      if flight.None? {
        flight := Some([]);
      }
      var record := SealRecord(sequence, recordType, data);
      if record.None? {
        return false;
      }
      sequence := sequence + 1;
      if Sound() {
        ConservedAdding(bio.wire, writeBuffer.Contents(), flight.value, sealed, record.value);
      }
      sealed := sealed + record.value;
      flight := Some(flight.value + record.value);
      return true;
    }

    /** `ssl_write_buffer_flush`. */
    method FlushBuffer() returns (ret: int)
      requires Valid()
      modifies writeBuffer, bio
      ensures Valid() && Missing() == old(Missing()) && (old(Sound()) ==> Sound())
      ensures ret > 0 ==> writeBuffer.buf == null
      ensures ret > 0 <==> writeBuffer.len == 0
      ensures bio.steady ==> ret > 0
      ensures writeBuffer.buf == old(writeBuffer.buf) || writeBuffer.buf == null
    {
      hide Conserved, Sized;
      ghost var wire, buffer := bio.wire, writeBuffer.Contents();
      ghost var sound := Sound();
      ret := writeBuffer.Flush(bio);
      if sound {
        ConservedFlushing(wire, buffer, FlightRest(), sealed, bio.wire, writeBuffer.Contents());
      }
    }

    /** The loop of `ssl3_flush_flight`. */
    method SendFlight() returns (ret: int)
      requires Valid() && flight.Some? && writeBuffer.Contents() == []
      modifies this`flightOffset, bio
      ensures Valid() && (ret > 0 <==> FlightRest() == [])
      ensures bio.steady ==> ret > 0
      ensures Missing() == old(Missing()) && (old(Sound()) ==> Sound())
    {
      hide Conserved, Sized;
      while flightOffset < |flight.value|
        invariant Valid() && writeBuffer.Contents() == []
        invariant Missing() == old(Missing()) && (old(Sound()) ==> Sound())
        decreases |flight.value| - flightOffset
      {
        ghost var wire, rest := bio.wire, FlightRest();
        ret := bio.Write(flight.value[flightOffset..]);
        assert rest[..0] == [] && wire + [] == wire;
        if ret <= 0 {
          return;
        }
        if old(Sound()) {
          ConservedSending(wire, rest, sealed, ret);
        }
        flightOffset := flightOffset + ret;
        assert FlightRest() == rest[ret..];
      }
      return 1;
    }

    /** `ssl3_flush_flight`: the write buffer goes first. */
    method FlushFlight() returns (ret: int)
      requires Valid()
      modifies this`flight, this`flightOffset, writeBuffer, bio
      ensures Valid() && Missing() == old(Missing()) && (old(Sound()) ==> Sound())
      ensures ret > 0 <==> flight.None?
      ensures bio.steady && (flight.None? || |flight.value| <= INT_MAX) ==> ret > 0
      ensures ret > 0 && old(flight).Some? && old(Sound()) ==> bio.wire == sealed
      ensures ret > 0 && old(flight).Some? ==> bio.flushed == |bio.wire|
      ensures old(flight).None? ==> bio.wire == old(bio.wire)
      ensures writeBuffer.buf == old(writeBuffer.buf) || writeBuffer.buf == null
    {
      hide Conserved, Sized;
      if flight.None? {
        return 1;
      }
      if |flight.value| > 0xffff_ffff || |flight.value| > INT_MAX {
        return -1;
      }
      if writeBuffer.len > 0 {
        ret := FlushBuffer();
        if ret <= 0 {
          return;
        }
      }
      assert writeBuffer.Contents() == [];
      ret := SendFlight();
      if ret <= 0 {
        return;
      }
      if old(Sound()) {
        ConservedLength(bio.wire, [], [], sealed);
      }
      ret := bio.Flush();
      if ret <= 0 {
        return -1;
      }
      flight, flightOffset := None, 0;
      return 1;
    }

    /** `ssl3_write_pending`. */
    method WritePending(recordType: byte, data: seq<byte>, address: int) returns (ret: int)
      requires Valid() && wpendPending
      modifies this`wpendPending, writeBuffer, bio
      ensures Valid() && Missing() == old(Missing()) && (old(Sound()) ==> Sound())
      ensures ret > 0 ==> !wpendPending && ret == wpendRet && wpendTot <= |data| && wpendType == recordType
      ensures ret <= 0 ==> wpendPending
      ensures ret > 0 ==> old(Retries(recordType, data, address))
      ensures !old(Retries(recordType, data, address)) ==> ret == -1 && bio.wire == old(bio.wire)
      ensures ret <= 0 && old(Retries(recordType, data, address)) ==> writeBuffer.len > 0 && !bio.steady
      ensures writeBuffer.buf == old(writeBuffer.buf) || writeBuffer.buf == null
      ensures ret > 0 ==> writeBuffer.buf == null
    {
      if wpendTot > |data| || (!movingBuffer && wpendBuf != address) || wpendType != recordType {
        return -1;  // bad write retry
      }
      hide Conserved, Sized;
      ret := FlushBuffer();
      if ret <= 0 {
        return;
      }
      wpendPending := false;
      return wpendRet;
    }

    /** `do_ssl3_write`. */
    method DoWrite(recordType: byte, data: seq<byte>, address: int) returns (ret: int)
      requires Valid()
      modifies this`sequence, this`flight, this`flightOffset, this`wpendTot, this`wpendType, this`wpendRet
      modifies this`wpendBuf, this`wpendPending, this`sealed, this`covered
      modifies writeBuffer, writeBuffer.buf, bio
      ensures Valid()
      ensures old(wpendPending) && ret > 0 ==>
                !wpendPending && ret == old(wpendRet) <= |data| && old(wpendType) == recordType && covered == old(covered)
      ensures old(wpendPending) && ret <= 0 ==>
                wpendPending && wpendRet == old(wpendRet) && wpendType == old(wpendType) && covered == old(covered)
      ensures old(wpendPending) && ret > 0 ==> old(Retries(recordType, data, address))
      ensures ret <= 0 && old(if wpendPending then Retries(recordType, data, address) else Seals(recordType, data)) ==>
                writeBuffer.len > 0 && !bio.steady
      ensures ret > 0 ==> writeBuffer.buf == null
      ensures old(wpendPending) ==> sealed == old(sealed) && sequence == old(sequence)
      ensures !old(wpendPending) && !wpendPending && ret <= 0 ==> covered == old(covered) && sealed == old(sealed)
      ensures old(Seals(recordType, data)) ==>
                && sealed == old(sealed) + SealRecord(old(sequence), recordType, data).value
                && covered == old(covered) + (if recordType == RT_APPLICATION_DATA then data else [])
      ensures !old(wpendPending) ==> ((ret > 0 || wpendPending) <==> old(Seals(recordType, data)))
      ensures !old(wpendPending) && ret > 0 ==> ret == |data| && !wpendPending
      ensures !old(wpendPending) && wpendPending ==> wpendRet == |data| && wpendType == recordType
      ensures data == [] && !old(wpendPending) ==> ret == 0
      ensures writeBuffer.buf == old(writeBuffer.buf) || writeBuffer.buf == null || fresh(writeBuffer.buf)
      // The flight is lost exactly when nothing can be sealed behind it.
      ensures old(Loses(recordType, data)) <==> Dropped(old(FlightRest()), old(sequence), FlightRest(), sequence)
      ensures Missing() == old(Missing()) + if old(Loses(recordType, data)) then |old(FlightRest())| else 0
      ensures old(Sound()) && old(Room(|data|)) ==> (Sound() <==> !old(Loses(recordType, data)))
      ensures Moves(old(FlightRest()), old(sequence), FlightRest(), sequence)
    {
      hide Conserved, Sized, Buffer.Contents, Buffer.Valid;
      if wpendPending {
        ret := WritePending(recordType, data, address);
        return;
      }
      if |data| > MAX_PLAIN_LENGTH {
        return -1;
      }
      if |data| == 0 {
        return 0;
      }
      ret := SealBehindFlight(recordType, data);
      if ret <= 0 {
        return;
      }
      // These are what a repeated call is compared with.
      wpendTot, wpendBuf, wpendType, wpendRet, wpendPending := |data|, address, recordType, |data|, true;
      ret := WritePending(recordType, data, address);
    }

    /** Seals a record into the write buffer, with what is left of the flight in front of it.
        The flight is gone then, also when sealing fails. */
    method SealBehindFlight(recordType: byte, data: seq<byte>) returns (ret: int)
      requires Valid() && !wpendPending && 0 < |data| <= MAX_PLAIN_LENGTH
      modifies this`sequence, this`flight, this`flightOffset, this`sealed, this`covered
      modifies writeBuffer, writeBuffer.buf
      ensures Valid() && (ret == 1 || ret == -1)
      ensures writeBuffer.buf == old(writeBuffer.buf) || fresh(writeBuffer.buf)
      ensures ret == 1 <==> old(Seals(recordType, data))
      ensures ret == 1 ==>
                && sealed == old(sealed) + SealRecord(old(sequence), recordType, data).value
                && covered == old(covered) + (if recordType == RT_APPLICATION_DATA then data else [])
                && sequence == old(sequence) + 1 && FlightRest() == []
      ensures ret == -1 ==> sealed == old(sealed) && covered == old(covered) && sequence == old(sequence)
      ensures ret == -1 ==> FlightRest() == if old(Loses(recordType, data)) then [] else old(FlightRest())
      ensures Missing() == old(Missing()) + if old(Loses(recordType, data)) then |old(FlightRest())| else 0
      ensures old(Sound()) ==> (InOrder() <==> !old(Loses(recordType, data)))
      ensures old(Sound()) && (ret == -1 || old(Room(|data|))) ==> writeBuffer.Fits()
    {
      var maxOut := |data| + overhead + |FlightRest()|;
      var record := SealRecord(sequence, recordType, data);
      assert record.Some? ==> |record.value| <= |data| + overhead;
      hide Conserved, Sized;
      var ok := InitBuffer(maxOut);
      if !ok {
        return -1;
      }
      if record.None? {
        DropFlight();
        return -1;
      }
      Splice(record.value);
      if recordType == RT_APPLICATION_DATA {
        covered := covered + data;
      }
      return 1;
    }

    /** `ssl_write_buffer_init`. */
    method InitBuffer(maxOut: nat) returns (ok: bool)
      requires Valid() && maxOut > 0
      modifies writeBuffer
      ensures Valid() && Missing() == old(Missing()) && (old(Sound()) ==> Sound())
      ensures ok <==> old(writeBuffer.buf) == null && maxOut < U16
      ensures ok ==> writeBuffer.buf != null && fresh(writeBuffer.buf)
      ensures ok ==> writeBuffer.cap == maxOut && writeBuffer.len == 0 && writeBuffer.offset < ALIGN
      ensures !ok ==> writeBuffer.buf == old(writeBuffer.buf)
    {
      hide Conserved, Sized;
      ghost var contents := writeBuffer.Contents();
      ok := writeBuffer.Init(maxOut);
      assert writeBuffer.Contents() == contents;
    }

    /** The flight was moved to the buffer, and nothing was sealed behind it. */
    method DropFlight()
      requires Valid() && writeBuffer.len == 0
      modifies this`flight, this`flightOffset
      ensures Valid() && FlightRest() == []
      ensures Missing() == old(Missing()) + |old(FlightRest())|
      ensures old(InOrder()) ==> (InOrder() <==> old(FlightRest()) == [])
    {
      hide Sized;
      if InOrder() {
        ConservedLength(bio.wire, writeBuffer.Contents(), FlightRest(), sealed);
      }
      hide Conserved;
      flight, flightOffset := None, 0;
      if InOrder() {
        ConservedLength(bio.wire, writeBuffer.Contents(), FlightRest(), sealed);
      }
    }

    /** Moves the flight to the buffer, with a record behind it. */
    method Splice(record: seq<byte>)
      requires Valid() && writeBuffer.buf != null && writeBuffer.len == 0 && writeBuffer.offset < ALIGN
      requires |FlightRest()| + |record| <= writeBuffer.cap
      modifies this`sequence, this`flight, this`flightOffset, this`sealed
      modifies writeBuffer`len, writeBuffer.buf
      ensures Valid() && sealed == old(sealed) + record && sequence == old(sequence) + 1 && FlightRest() == []
      ensures Missing() == old(Missing()) && (old(InOrder()) ==> InOrder())
      ensures writeBuffer.offset == old(writeBuffer.offset) && writeBuffer.len <= writeBuffer.cap
    {
      hide Conserved, Sized, Buffer.Contents;
      var rest := FlightRest();
      assert writeBuffer.Contents() == [];
      if InOrder() {
        ConservedSplicing(bio.wire, rest, sealed, record);
      }
      writeBuffer.Fill(rest, record);
      flight, flightOffset := None, 0;
      sequence := sequence + 1;
      sealed := sealed + record;
    }

    /** `ssl3_write_app_data` on `data`, which lies at `address`. When it returns k > 0, the
        records sealed for this write, over all its attempts, carry exactly the first k bytes.
        When it is blocked it can be taken up again, with the same bytes and any more. */
    method WriteAppData(data: seq<byte>, len: int, address: int) returns (ret: int, ghost carried: seq<byte>)
      requires Valid() && (len < 0 ==> data == []) && (len >= 0 ==> |data| == len)
      modifies this`sequence, this`flight, this`flightOffset, this`wpendTot, this`wpendType, this`wpendRet
      modifies this`wpendBuf, this`wpendPending, this`sealed, this`covered, this`wnum
      modifies writeBuffer, writeBuffer.buf, bio
      ensures Valid() && ret <= |data|
      ensures writeBuffer.buf == old(writeBuffer.buf) || writeBuffer.buf == null || fresh(writeBuffer.buf)
      ensures old(Resumable(data)) && ret > 0 ==> UpTo(carried, data, ret)
      ensures old(Resumable(data)) && ret <= 0 && len >= 0 ==> Resumable(data)
      ensures ret > 0 ==> wnum == 0 && covered == [] && AppPending() == 0
      ensures ret > 0 && !partialWrite ==> ret == len
      ensures len < old(wnum) ==> ret == -1 && wnum == 0 && covered == old(covered)
      // Order is lost exactly when the flight is dropped, and that is a record that could not be sealed.
      ensures Missing() == old(Missing()) + Lost(old(FlightRest()), old(sequence), FlightRest(), sequence)
      ensures old(Sound()) && old(Room(maxSendFragment)) ==>
                (Sound() <==> !Dropped(old(FlightRest()), old(sequence), FlightRest(), sequence))
      ensures Dropped(old(FlightRest()), old(sequence), FlightRest(), sequence) ==>
                ret <= 0 && Refuses(old(sequence), RT_APPLICATION_DATA, data)
      // Only the transport can hold it up, where no record is refused.
      ensures bio.steady && NeverRefuses() && old(wnum) < len && old(Room(maxSendFragment) && Goes(data, wnum, address)) ==>
                ret > 0
    {
      hide Valid, UpTo, Sound, Missing, Refuses, NeverRefuses, Goes, Retries, Room, FlightRest, Moves, Dropped, Lost;
      FragmentsAreRecords();
      NothingMoved(FlightRest(), sequence);
      Nothing(data);
      Bounded(covered, data, wnum + AppPending());
      carried := [];
      ghost var resumable := Resumable(data);
      var tot := wnum;
      SetWritten(0);
      if len < 0 || len < tot {
        return -1, carried;  // bad length
      }
      var n := len - tot;
      while true
        invariant Valid() && wnum == 0 && tot + n == len && n >= 0
        invariant writeBuffer.buf == old(writeBuffer.buf) || writeBuffer.buf == null || fresh(writeBuffer.buf)
        invariant resumable ==> UpTo(covered, data, tot + AppPending())
        invariant Missing() == old(Missing())
        invariant old(Room(maxSendFragment)) ==> Room(maxSendFragment) && (old(Sound()) ==> Sound())
        invariant Moves(old(FlightRest()), old(sequence), FlightRest(), sequence)
        invariant !Dropped(old(FlightRest()), old(sequence), FlightRest(), sequence)
        invariant Lost(old(FlightRest()), old(sequence), FlightRest(), sequence) == 0
        invariant old(wnum) < len && old(Goes(data, wnum, address)) ==> n > 0 && Goes(data, tot, address)
        decreases n
      {
        var nw := if n > maxSendFragment then maxSendFragment else n;
        ghost var rest, number := FlightRest(), sequence;
        ret := WriteSome(data, tot, nw, address);
        assert data[tot..tot + nw] == FirstOf(data[tot..], maxSendFragment);
        MovesOn(old(FlightRest()), old(sequence), rest, number, FlightRest(), sequence);
        if ret <= 0 {
          SetWritten(tot);
          return;
        }
        if ret == n || partialWrite {
          carried := Complete();
          return tot + ret, carried;
        }
        n := n - ret;
        tot := tot + ret;
      }
    }

    /** One record of application data, the bytes from `tot` on, or the rest of an earlier one. */
    method WriteSome(data: seq<byte>, tot: nat, nw: nat, address: int) returns (ret: int)
      requires Valid() && tot + nw <= |data| && nw <= maxSendFragment
      modifies this`sequence, this`flight, this`flightOffset, this`wpendTot, this`wpendType, this`wpendRet
      modifies this`wpendBuf, this`wpendPending, this`sealed, this`covered
      modifies writeBuffer, writeBuffer.buf, bio
      ensures Valid() && ret <= nw
      ensures writeBuffer.buf == old(writeBuffer.buf) || writeBuffer.buf == null || fresh(writeBuffer.buf)
      ensures ret > 0 ==> AppPending() == 0
      ensures UpTo(old(covered), data, tot + old(AppPending())) ==>
                UpTo(covered, data, tot + if ret > 0 then ret else AppPending())
      ensures Moves(old(FlightRest()), old(sequence), FlightRest(), sequence)
      ensures old(Room(maxSendFragment)) ==> Room(maxSendFragment)
      ensures Missing() == old(Missing()) + Lost(old(FlightRest()), old(sequence), FlightRest(), sequence)
      ensures old(Sound()) && old(Room(maxSendFragment)) ==>
                (Sound() <==> !Dropped(old(FlightRest()), old(sequence), FlightRest(), sequence))
      ensures Dropped(old(FlightRest()), old(sequence), FlightRest(), sequence) ==>
                ret <= 0 && Refuses(old(sequence), RT_APPLICATION_DATA, data)
      ensures ret > 0 && tot + ret <= |data| ==> Goes(data, tot + ret, address)
      ensures nw > 0 && data[tot..tot + nw] == FirstOf(data[tot..], maxSendFragment) && old(Goes(data, tot, address))
              && bio.steady && NeverRefuses() && old(Room(maxSendFragment)) ==>
                ret > 0
    {
      hide Valid, UpTo, Sound, Missing;
      FragmentsAreRecords();
      if !wpendPending && UpTo(covered, data, tot) {
        UpToMore(covered, data, tot, nw);
      }
      assert Loses(RT_APPLICATION_DATA, data[tot..tot + nw]) ==> Part(tot, tot + nw, |data|);
      ret := DoWrite(RT_APPLICATION_DATA, data[tot..tot + nw], address + tot);
    }

    /** The record that is blocked, or else the next one, can go on. */
    predicate Goes(data: seq<byte>, tot: nat, address: int)
      requires tot <= |data|
      reads this`wpendPending, this`wpendTot, this`wpendType, this`wpendBuf, writeBuffer`buf
    {
      if wpendPending then Retries(RT_APPLICATION_DATA, FirstOf(data[tot..], maxSendFragment), address + tot)
      else writeBuffer.buf == null
    }

    method SetWritten(n: nat)
      requires Valid()
      modifies this`wnum
      ensures Valid() && wnum == n
      ensures Missing() == old(Missing()) && (old(Sound()) <==> Sound())
    {
      wnum := n;
    }

    /** A write is complete: nothing has been sealed for the next one. */
    ghost method Complete() returns (carried: seq<byte>)
      requires Valid()
      modifies this`covered
      ensures Valid() && covered == [] && carried == old(covered)
      ensures Missing() == old(Missing()) && (old(Sound()) <==> Sound())
    {
      carried := covered;
      covered := [];
    }

    /** `ssl3_dispatch_alert`: seals the alert, or takes up one that is blocked; a write of
        application data that is blocked is not disturbed. */
    method DispatchAlert(alert: seq<byte>, address: int) returns (ret: int)
      requires Valid() && |alert| == 2
      modifies this`sequence, this`flight, this`flightOffset, this`wpendTot, this`wpendType, this`wpendRet
      modifies this`wpendBuf, this`wpendPending, this`sealed, this`covered
      modifies writeBuffer, writeBuffer.buf, bio
      ensures Valid() && ret <= 1 && covered == old(covered) && AppPending() == old(AppPending())
      ensures writeBuffer.buf == old(writeBuffer.buf) || writeBuffer.buf == null || fresh(writeBuffer.buf)
      ensures ret == 1 ==> !wpendPending && (old(wpendPending) ==> old(wpendType) == RT_ALERT && sealed == old(sealed))
      ensures !old(wpendPending) ==> ((ret == 1 || wpendPending) <==> old(Seals(RT_ALERT, alert)))
      ensures old(Seals(RT_ALERT, alert)) ==>
                sealed == old(sealed) + SealRecord(old(sequence), RT_ALERT, alert).value
      ensures old(wpendPending) && ret != 1 ==> wpendPending && wpendType == old(wpendType)
      ensures Missing() == old(Missing()) + if old(Loses(RT_ALERT, alert)) then |old(FlightRest())| else 0
      ensures old(Sound()) && old(Room(2)) ==> (Sound() <==> !old(Loses(RT_ALERT, alert)))
    {
      hide Conserved, Sized, Buffer.Valid, Buffer.Contents, Sound, Missing;
      ret := DoWrite(RT_ALERT, alert, address);
      assert old(covered) + [] == old(covered);
      if ret > 0 {
        return 1;
      }
    }

    /** `ssl3_add_message`: the message is cut into records of at most the greatest length. When
        one of them cannot be sealed, those in front of it stay in the flight. */
    method AddMessage(msg: seq<byte>) returns (ok: bool, ghost chunks: seq<seq<byte>>, ghost left: seq<byte>)
      requires Valid() && flightOffset == 0
      modifies this`flight, this`sequence, this`sealed
      ensures Valid() && flightOffset == 0
      ensures Added(old(sequence), chunks, old(sealed), sealed, left, msg)
      ensures ok ==> left == [] && chunks != [] && sequence == old(sequence) + |chunks|
      ensures !ok ==> SealRecord(old(sequence) + |chunks|, RT_HANDSHAKE, FirstOf(left, maxSendFragment)).None?
      ensures !ok && left == [] ==> msg == []
      ensures Missing() == old(Missing()) && (old(Sound()) ==> Sound())
    {
      hide Valid, Added, SealRecord, FirstOf, RestOf, Sound, Missing, FlightRest;
      FragmentsAreRecords();
      chunks := [];
      var rest, first := msg, true;
      NothingAdded(sequence, sealed, msg);
      while first || rest != []
        invariant Valid() && flightOffset == 0 && sequence == old(sequence) + |chunks|
        invariant Added(old(sequence), chunks, old(sealed), sealed, rest, msg)
        invariant (first ==> rest == msg) && (first <==> chunks == [])
        invariant Missing() == old(Missing()) && (old(Sound()) ==> Sound())
        decreases first, |rest|
      {
        ghost var last := sealed;
        var chunk := FirstOf(rest, maxSendFragment);
        ok := AddRecordToFlight(RT_HANDSHAKE, chunk);
        if !ok {
          return false, chunks, rest;
        }
        AddedMore(old(sequence), chunks, old(sealed), last, rest, msg);
        chunks, rest, first := chunks + [chunk], RestOf(rest, maxSendFragment), false;
      }
      return true, chunks, rest;
    }

    /** The chunks and what is left are the message, and `sealed` is what was sealed before and
        the records of the chunks. */
    ghost predicate Added(n: nat, chunks: seq<seq<byte>>, before: seq<byte>, sealed: seq<byte>, left: seq<byte>,
                          msg: seq<byte>)
    {
      Cut(chunks, left, msg, maxSendFragment) && sealed == before + SealedFrom(n, chunks)
    }

    lemma NothingAdded(n: nat, sealed: seq<byte>, msg: seq<byte>)
      ensures Added(n, [], sealed, sealed, msg, msg)
    {
      assert sealed + [] == sealed && [] + msg == msg;
    }

    lemma AddedMore(n: nat, chunks: seq<seq<byte>>, before: seq<byte>, sealed: seq<byte>, left: seq<byte>, msg: seq<byte>)
      requires Added(n, chunks, before, sealed, left, msg) && maxSendFragment > 0
      requires left == [] ==> msg == [] && chunks == []
      requires SealRecord(n + |chunks|, RT_HANDSHAKE, FirstOf(left, maxSendFragment)).Some?
      ensures var chunk := FirstOf(left, maxSendFragment);
              Added(n, chunks + [chunk], before, sealed + SealRecord(n + |chunks|, RT_HANDSHAKE, chunk).value,
                    RestOf(left, maxSendFragment), msg)
    {
      var chunk := FirstOf(left, maxSendFragment);
      CutMore(chunks, left, msg, maxSendFragment);
      assert (chunks + [chunk])[..|chunks|] == chunks;
      var record := SealRecord(n + |chunks|, RT_HANDSHAKE, chunk).value;
      assert SealedFrom(n, chunks + [chunk]) == SealedFrom(n, chunks) + record;
      hide SealedFrom, Cut;
      assert before + SealedFrom(n, chunks) + record == before + (SealedFrom(n, chunks) + record);
    }

    lemma {:induction false} SealedInTurn(n: nat, a: seq<seq<byte>>, b: seq<seq<byte>>)
      ensures SealedFrom(n, a + b) == SealedFrom(n, a) + SealedFrom(n + |a|, b)
    {
      if b == [] {
        assert a + b == a && SealedFrom(n, a) + [] == SealedFrom(n, a);
      } else {
        var last := |b| - 1;
        assert (a + b)[..|a + b| - 1] == a + b[..last] && (a + b)[|a + b| - 1] == b[last];
        SealedInTurn(n, a, b[..last]);
      }
    }

    lemma NothingHeldUp(n: nat, left: seq<byte>)
      requires Valid() && left != [] && SealRecord(n, RT_HANDSHAKE, FirstOf(left, maxSendFragment)).None?
      ensures !NeverRefuses()
    {
    }

    /** An empty message is one empty record. */
    lemma EmptyMessage(n: nat, chunks: seq<seq<byte>>, before: seq<byte>, sealed: seq<byte>)
      requires Added(n, chunks, before, sealed, [], []) && chunks != [] && SealRecord(n, RT_HANDSHAKE, []).Some?
      ensures sealed == before + SealRecord(n, RT_HANDSHAKE, []).value
    {
      var last := chunks[|chunks| - 1];
      assert last in chunks && |last| <= |Joined(chunks) + []|;
      assert chunks == [[]] && chunks[..0] == [];
      var record := SealRecord(n, RT_HANDSHAKE, []).value;
      assert SealedFrom(n, chunks) == [] + record == record;
    }

    /** The records of some handshake plaintexts, sealed one after the other. */
    ghost function SealedFrom(n: nat, chunks: seq<seq<byte>>): seq<byte> {
      if chunks == [] then []
      else
        var last := SealRecord(n + |chunks| - 1, RT_HANDSHAKE, chunks[|chunks| - 1]);
        SealedFrom(n, chunks[..|chunks| - 1]) + if last.Some? then last.value else []
    }
  }

  function Joined(chunks: seq<seq<byte>>): seq<byte> {
    if chunks == [] then [] else Joined(chunks[..|chunks| - 1]) + chunks[|chunks| - 1]
  }

  /** The chunks and the rest are the message; no chunk is too long, none is empty but the only one
      of an empty message, and all that something follows are as long as can be. */
  predicate Cut(chunks: seq<seq<byte>>, rest: seq<byte>, msg: seq<byte>, max: nat) {
    && Joined(chunks) + rest == msg
    && ((forall c :: c in chunks ==> 0 < |c| <= max) || (msg == [] && chunks == [[]]))
    && (forall k :: 0 <= k < |chunks| && (k + 1 < |chunks| || rest != []) ==> |chunks[k]| == max)
  }

  /** What the next record carries. */
  function FirstOf(rest: seq<byte>, max: nat): (chunk: seq<byte>)
    ensures |chunk| <= |rest| && chunk == rest[..|chunk|] && |chunk| <= max && (chunk == [] ==> rest == [] || max == 0)
  {
    if |rest| > max then rest[..max] else rest
  }

  function RestOf(rest: seq<byte>, max: nat): (behind: seq<byte>)
    ensures max > 0 && rest != [] ==> |behind| < |rest|
    ensures rest == [] ==> behind == []
  {
    rest[|FirstOf(rest, max)|..]
  }

  lemma CutMore(chunks: seq<seq<byte>>, rest: seq<byte>, msg: seq<byte>, max: nat)
    requires Cut(chunks, rest, msg, max) && max > 0 && (rest == [] ==> msg == [] && chunks == [])
    ensures var chunk := FirstOf(rest, max);
            Cut(chunks + [chunk], RestOf(rest, max), msg, max)
  {
    var chunk := FirstOf(rest, max);
    assert (chunks + [chunk])[..|chunks|] == chunks;
    assert rest == chunk + RestOf(rest, max);
  }
}
