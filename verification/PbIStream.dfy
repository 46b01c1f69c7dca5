/** The input stream of nanopb and the decoder that reads from it: every method is
    proved against what `PbDecode` says is read. */
module PbIStream {
  import opened ByteString
  import opened PbWire
  import opened PbSchema
  import opened PbEncode
  import opened PbDecode

  /** `pb_istream_t` over a memory buffer. A substream is a second stream over the same bytes. */
  class IStream {
    const data: seq<byte>
    var state: nat
    var bytesLeft: nat

    predicate Valid()
      reads this
    {
      state + bytesLeft <= |data|
    }

    /** The bytes still to be read. */
    function Remaining(): (s: seq<byte>)
      requires Valid()
      reads this
      ensures |s| == bytesLeft
    {
      data[state..state + bytesLeft]
    }

    /** `pb_istream_from_buffer`. */
    constructor (data: seq<byte>)
      ensures Valid() && this.data == data && Remaining() == data
      ensures state == 0 && bytesLeft == |data|
    {
      this.data, this.state, this.bytesLeft := data, 0, |data|;
    }

    constructor Sub(data: seq<byte>, state: nat, bytesLeft: nat)
      requires state + bytesLeft <= |data|
      ensures Valid() && this.data == data && this.state == state && this.bytesLeft == bytesLeft
    {
      this.data, this.state, this.bytesLeft := data, state, bytesLeft;
    }

    /** Reading moves forward inside the stream; where the stream ends does not change. */
    twostate predicate Advanced()
      reads this
    {
      Valid() && state + bytesLeft == old(state + bytesLeft) && old(state) <= state
    }

    /** After an error the stream is somewhere inside what it had. */
    twostate predicate Within()
      reads this
    {
      Valid() && state + bytesLeft <= old(state + bytesLeft) && old(state) <= state
    }

    /** `pb_readbyte`. */
    method ReadByte() returns (ok: bool, b: byte)
      requires Valid()
      modifies this
      ensures Advanced()
      ensures ok <==> old(Remaining()) != []
      ensures ok ==> b == old(Remaining())[0] && Remaining() == old(Remaining())[1..]
      ensures !ok ==> Remaining() == old(Remaining())
    {
      if bytesLeft == 0 {
        return false, 0;
      }
      b := data[state];
      state, bytesLeft := state + 1, bytesLeft - 1;
      ok := true;
    }

    /** `pb_read`; the bytes are also what is passed over when the caller has no buffer. */
    method Read(n: nat) returns (ok: bool, b: seq<byte>)
      requires Valid()
      modifies this
      ensures Advanced()
      ensures ok == Take(old(Remaining()), n).Ok?
      ensures ok ==> Take(old(Remaining()), n) == Ok(PbDecode.Read(b, Remaining()))
    {
      if bytesLeft < n {
        return false, [];
      }
      b := data[state..state + n];
      state, bytesLeft := state + n, bytesLeft - n;
      assert old(Remaining())[..n] == b && old(Remaining())[n..] == Remaining();
      ok := true;
    }

    /** What a varint reader returns, as the specification puts it. */
    twostate predicate ReadVarint(ok: bool, value: nat, new r: VarintResult)
      reads this
    {
      && Advanced()
      && r == (if ok then VOk(value, Remaining()) else VFail(Remaining()))
    }

    method DecodeVarint32() returns (ok: bool, value: nat)
      requires Valid()
      modifies this
      ensures ReadVarint(ok, value, DecVarint32(old(Remaining())))
    {
      hide Insert, Pow2;
      value := 0;
      var b: byte;
      ok, b := ReadByte();
      if !ok {
        return;
      }
      FirstGroup(b, 32);
      if b < 128 {
        value := b;
        return;
      }
      var bitpos := 7;
      value := b % 128;
      while b >= 128
        invariant ok && Advanced() && bitpos <= 39
        invariant DecVarint32(old(Remaining()))
               == if b < 128 then VOk(value, Remaining()) else DecVarintFrom(Remaining(), 32, bitpos, value)
        decreases bytesLeft
      {
        if bitpos >= 32 {
          return false, value;  // varint overflow
        }
        ok, b := ReadByte();
        if !ok {
          return;
        }
        value := Insert(value, b, bitpos, 32);
        bitpos := bitpos + 7;
      }
    }

    method DecodeVarint() returns (ok: bool, value: nat)
      requires Valid()
      modifies this
      ensures ReadVarint(ok, value, DecVarint64(old(Remaining())))
    {
      hide Insert, Pow2;
      value := 0;
      var bitpos := 0;
      while true
        invariant Advanced() && bitpos <= 70
        invariant DecVarint64(old(Remaining())) == DecVarintFrom(Remaining(), 64, bitpos, value)
        decreases bytesLeft
      {
        if bitpos >= 64 {
          return false, value;  // varint overflow
        }
        var b: byte;
        ok, b := ReadByte();
        if !ok {
          return;
        }
        value := Insert(value, b, bitpos, 64);
        bitpos := bitpos + 7;
        if b < 128 {
          return;
        }
      }
    }

    method SkipVarint() returns (ok: bool)
      requires Valid()
      modifies this
      ensures Advanced()
      ensures ok == PbDecode.SkipVarint(old(Remaining())).Ok?
      ensures ok ==> PbDecode.SkipVarint(old(Remaining())) == Ok(Remaining())
    {
      while true
        invariant Advanced()
        invariant PbDecode.SkipVarint(old(Remaining())) == PbDecode.SkipVarint(Remaining())
        decreases bytesLeft
      {
        var b: byte;
        ok, b := ReadByte();
        if !ok || b < 128 {
          return;
        }
      }
    }

    method SkipString() returns (ok: bool)
      requires Valid()
      modifies this
      ensures Advanced()
      ensures ok == TakeString(old(Remaining())).Ok?
      ensures ok ==> Remaining() == TakeString(old(Remaining())).value.rest
    {
      hide DecVarintFrom;
      var size: nat;
      ok, size := DecodeVarint32();
      if ok {
        var skipped: seq<byte>;
        ok, skipped := Read(size);
      }
    }

    method SkipField(wireType: nat) returns (ok: bool)
      requires Valid()
      modifies this
      ensures Advanced()
      ensures ok == PbDecode.SkipField(wireType, old(Remaining())).Ok?
      ensures ok ==> PbDecode.SkipField(wireType, old(Remaining())) == Ok(Remaining())
    {
      hide PbDecode.SkipVarint, TakeString;
      var skipped: seq<byte>;
      if wireType == WT_VARINT {
        ok := SkipVarint();
      } else if wireType == WT_64BIT {
        ok, skipped := Read(8);
      } else if wireType == WT_STRING {
        ok := SkipString();
      } else if wireType == WT_32BIT {
        ok, skipped := Read(4);
      } else {
        ok := false;
      }
    }

    /** `pb_decode_tag`. A key of zero ends the message, and so does one that cannot be
        read when nothing is left behind it. */
    method DecodeTag() returns (ok: bool, wireType: nat, tag: nat, eof: bool)
      requires Valid()
      modifies this
      ensures Advanced()
      ensures DecVarint32(old(Remaining())).rest == Remaining()
      ensures DecVarint32(old(Remaining())).VFail? ==> !ok && (eof <==> Remaining() == [])
      ensures DecVarint32(old(Remaining())).VOk? ==>
                var key := DecVarint32(old(Remaining())).value;
                (ok <==> key != 0) && (eof <==> key == 0) && (ok ==> tag == key / 8 && wireType == key % 8)
    {
      hide DecVarintFrom;
      eof, wireType, tag := false, 0, 0;
      var key: nat;
      ok, key := DecodeVarint32();
      if !ok {
        eof := bytesLeft == 0;
        return;
      }
      if key == 0 {
        return false, wireType, tag, true;
      }
      tag, wireType := key / 8, key % 8;
    }

    /** This stream goes on at `end`, with `rest`. */
    ghost predicate Follows(end: nat, rest: seq<byte>)
      reads this
    {
      state <= end && end + bytesLeft <= |data| && rest == data[end..end + bytesLeft]
    }

    /** `pb_make_string_substream`: the payload goes to the substream; this stream is left
        with the length of what follows it and moves there when the substream is closed. */
    method MakeSubstream() returns (ok: bool, sub: IStream)
      requires Valid()
      modifies this
      ensures fresh(sub) && sub.Valid() && sub.data == data && sub.state == state
      ensures ok == TakeString(old(Remaining())).Ok?
      ensures ok ==> sub.Remaining() == TakeString(old(Remaining())).value.value
      ensures ok ==> Follows(sub.state + sub.bytesLeft, TakeString(old(Remaining())).value.rest)
      ensures ok ==> sub.state + sub.bytesLeft + bytesLeft == old(state + bytesLeft) && state >= old(state)
      ensures !ok ==> Advanced()
    {
      hide DecVarintFrom;
      var size: nat;
      ok, size := DecodeVarint32();
      sub := new IStream.Sub(data, state, bytesLeft);
      if !ok {
        return;
      }
      if sub.bytesLeft < size {
        return false, sub;  // parent stream too short
      }
      SplitBytes(data, state, size, bytesLeft);
      sub.bytesLeft := size;
      bytesLeft := bytesLeft - size;
    }

    /** `pb_close_string_substream`: passes over what the substream has left. */
    method CloseSubstream(sub: IStream, ghost rest: seq<byte>)
      requires sub != this && sub.data == data && sub.Valid()
      requires state <= sub.state && sub.state + sub.bytesLeft + bytesLeft <= |data|
      modifies this`state, sub
      ensures Valid() && state == old(sub.state + sub.bytesLeft)
      ensures old(Follows(sub.state + sub.bytesLeft, rest)) ==> Remaining() == rest
    {
      if sub.bytesLeft != 0 {
        var ok, skipped := sub.Read(sub.bytesLeft);
      }
      state := sub.state;
    }
  }

  lemma SplitBytes(data: seq<byte>, state: nat, size: nat, left: nat)
    requires size <= left && state + left <= |data|
    ensures data[state..state + left][..size] == data[state..state + size]
    ensures data[state..state + left][size..] == data[state + size..state + size + (left - size)]
  {
  }

  /** The first group of a varint needs no shifting. */
  lemma FirstGroup(b: byte, width: nat)
    requires width == 32 || width == 64
    ensures Insert(0, b, 0, width) == b % 128
  {
    Pow2Values();
    hide Pow2;
    InsertFits(0, b, 0, width);
  }
}
