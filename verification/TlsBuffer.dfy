/** The record-layer buffer of TLS, and a stream transport that takes as much of a write as
    it likes. */
module TlsBuffer {
  import opened ByteString

  const U16 := 0x1_0000
  /** SSL3_ALIGN_PAYLOAD. */
  const ALIGN: nat := 8

  /** A BIO over a byte stream: a write takes a part of the bytes, or fails. A steady one takes
      a part of every write. What has been written may have to be flushed to go out. */
  class Stream {
    const steady: bool
    ghost var wire: seq<byte>
    ghost var flushed: nat

    constructor (steady: bool)
      ensures wire == [] && flushed == 0 && this.steady == steady
    {
      this.steady, wire, flushed := steady, [], 0;
    }

    method Write(data: seq<byte>) returns (ret: int)
      requires data != []
      modifies this`wire
      ensures ret <= |data|
      ensures wire == old(wire) + data[..if ret > 0 then ret else 0]
      ensures steady ==> ret > 0
    {
      ret := *;
      if ret > |data| || (steady && ret <= 0) {
        ret := |data|;
      }
      if ret > 0 {
        wire := wire + data[..ret];
      }
    }

    method Flush() returns (ret: int)
      modifies this`flushed
      ensures flushed == if ret > 0 then |wire| else old(flushed)
      ensures steady ==> ret > 0
    {
      ret := *;
      if steady {
        ret := 1;
      }
      if ret > 0 {
        flushed := |wire|;
      }
    }
  }

  /** `OPENSSL_memcpy` to a place in a buffer. */
  method CopyIn(memory: array<byte>, at: nat, s: seq<byte>)
    requires at + |s| <= memory.Length
    modifies memory
    ensures memory[..at + |s|] == old(memory[..at]) + s
  {
    for i := 0 to |s|
      invariant memory[..at + i] == old(memory[..at]) + s[..i]
    {
      memory[at + i] := s[i];
      assert memory[..at + (i + 1)] == memory[..at + i] + [s[i]];
    }
  }

  /** `SSL3_BUFFER`; its members are 16-bit numbers. */
  class Buffer {
    var buf: array?<byte>
    var offset: nat
    var len: nat
    var cap: nat

    ghost predicate Valid()
      reads this
    {
      if buf == null then offset == 0 && len == 0 && cap == 0
      else offset + cap <= buf.Length && len <= cap < U16 && offset < U16
    }

    function Contents(): (s: seq<byte>)
      requires Valid()
      reads this, buf
      ensures |s| == len
    {
      if buf == null then [] else buf[offset..offset + len]
    }

    /** The offset does not come around before the contents are consumed. */
    predicate Fits()
      reads this
    {
      offset + len <= U16
    }

    constructor ()
      ensures Valid() && buf == null
    {
      buf, offset, len, cap := null, 0, 0, 0;
    }

    /** `ensure_buffer`. Where the contents start depends on where the memory is. */
    method Ensure(capacity: nat) returns (ok: bool)
      requires Valid()
      modifies this
      ensures Valid() && Contents() == old(Contents())
      ensures ok <==> capacity < U16
      ensures ok ==> cap >= capacity && (old(cap) < capacity ==> buf != null && fresh(buf) && cap == capacity && offset < ALIGN)
      ensures !ok || old(cap) >= capacity ==> buf == old(buf) && offset == old(offset) && cap == old(cap)
    {
      if capacity >= U16 {
        return false;
      }
      if cap >= capacity {
        return true;
      }
      var newBuf := new byte[capacity + ALIGN - 1];
      var newOffset: nat :| newOffset < ALIGN;
      if buf != null {
        CopyIn(newBuf, newOffset, Contents());
      }
      buf, offset, cap := newBuf, newOffset, capacity;
      return true;
    }

    /** `consume_buffer`. The offset is a 16-bit number: the contents are then what it selects,
        and that is what was behind the first `n` bytes, as long as it does not come around. */
    method Consume(n: nat)
      requires Valid() && n <= len
      modifies this`offset, this`len, this`cap
      ensures Valid() && len == old(len) - n && buf == old(buf)
      ensures buf != null ==> Contents() == Selected(buf[..], Wrapped(old(offset) + n), old(len) - n)
      ensures old(offset) + n < U16 || n == old(len) ==> Contents() == old(Contents())[n..]
      ensures old(Fits()) ==> Fits()
    {
      ghost var start, size := offset, len;
      offset, len, cap := Wrapped(offset + n), len - n, cap - n;
      hide Wrapped;
      if buf != null {
        Consumed(buf[..], start, size, n);
        assert Contents() == Selected(buf[..], offset, len);
        assert old(Contents()) == Selected(buf[..], start, size);
      }
    }

    /** `clear_buffer`. */
    method Clear()
      modifies this
      ensures Valid() && buf == null
    {
      buf, offset, len, cap := null, 0, 0, 0;
    }

    /** `ssl_write_buffer_init`. */
    method Init(maxLen: nat) returns (ok: bool)
      requires Valid()
      modifies this
      ensures Valid()
      ensures ok <==> old(buf) == null && maxLen < U16
      ensures ok && maxLen > 0 ==> buf != null && fresh(buf) && cap == maxLen && len == 0 && offset < ALIGN
      ensures !ok ==> buf == old(buf) && offset == old(offset) && len == old(len) && cap == old(cap)
    {
      if buf != null {
        return false;
      }
      ok := Ensure(maxLen);
    }

    /** `ssl_write_buffer_set_len`; more than the capacity aborts. */
    method SetLen(n: nat)
      requires Valid() && n <= cap
      modifies this`len
      ensures Valid() && len == n
    {
      len := n;
    }

    /** Fills an empty buffer with a prefix and what is sealed behind it. */
    method Fill(prefix: seq<byte>, record: seq<byte>)
      requires Valid() && buf != null && len == 0 && |prefix| + |record| <= cap
      modifies this`len, buf
      ensures Valid() && buf == old(buf) && offset == old(offset) && Contents() == prefix + record
      ensures buf[..offset] == old(buf[..offset])
    {
      ghost var front := buf[..offset];
      CopyIn(buf, offset, prefix);
      CopyIn(buf, offset + |prefix|, record);
      SetLen(|prefix| + |record|);
      ghost var all := buf[..offset + len];
      assert buf[..offset] == all[..offset] && Contents() == all[offset..];
      Behind(front, prefix, record);
    }

    /** `tls_write_buffer_flush`: what the transport has taken is gone from the buffer, and
        what it has not taken is still there. */
    method Flush(bio: Stream) returns (ret: int)
      requires Valid()
      modifies this, bio
      ensures Valid() && |bio.wire| + len == |old(bio.wire)| + old(len)
      ensures old(Fits()) ==> bio.wire + Contents() == old(bio.wire) + old(Contents()) && Fits()
      ensures ret > 0 ==> buf == null
      ensures ret > 0 <==> len == 0
      ensures bio.steady ==> ret > 0
      ensures buf == null || buf == old(buf)
    {
      hide Buffer.Contents, Selected, Wrapped;
      while len > 0
        invariant Valid() && buf == old(buf) && |bio.wire| + len == |old(bio.wire)| + old(len)
        invariant old(Fits()) ==> Fits() && bio.wire + Contents() == old(bio.wire) + old(Contents())
        decreases len
      {
        ghost var before, rest := bio.wire, Contents();
        ret := bio.Write(Contents());
        if ret <= 0 {
          assert rest[..0] == [] && before + [] == before;
          return;
        }
        Consume(ret);
        Moved(before, rest, ret);
      }
      assert Contents() == [];
      Clear();
      assert Contents() == [];
      return 1;
    }
  }

  lemma Moved(wire: seq<byte>, rest: seq<byte>, n: nat)
    requires n <= |rest|
    ensures wire + rest[..n] + rest[n..] == wire + rest
  {
    assert rest[..n] + rest[n..] == rest;
  }

  lemma Behind(front: seq<byte>, prefix: seq<byte>, record: seq<byte>)
    ensures (front + prefix + record)[..|front|] == front
    ensures (front + prefix + record)[|front|..] == prefix + record
  {
  }

  /** `n` as a 16-bit number. */
  function Wrapped(n: nat): (w: nat)
    ensures w <= n && w < U16
    ensures n < U16 ==> w == n
  {
    n % U16
  }

  /** What the numbers of a buffer select of its memory. */
  function Selected(memory: seq<byte>, offset: nat, len: nat): seq<byte>
    requires offset + len <= |memory|
  {
    memory[offset..offset + len]
  }

  lemma Consumed(memory: seq<byte>, offset: nat, len: nat, n: nat)
    requires offset + len <= |memory| && n <= len
    ensures offset + n < U16 || n == len ==>
              Selected(memory, Wrapped(offset + n), len - n) == Selected(memory, offset, len)[n..]
    ensures offset + len <= U16 ==> Wrapped(offset + n) + (len - n) <= U16
  {
  }

  /** Consuming keeps what is behind the bytes consumed, whatever the memory holds and however
      many bytes they are. */
  ghost predicate AlwaysKept(offset: nat, len: nat) {
    forall memory: seq<byte>, n: nat :: n <= len && offset + len <= |memory| ==>
      Selected(memory, Wrapped(offset + n), len - n) == Selected(memory, offset, len)[n..]
  }

  /** That holds if and only if offset and length together are no more than 65536. */
  lemma KeptIff(offset: nat, len: nat)
    requires offset < U16
    ensures AlwaysKept(offset, len) <==> offset + len <= U16
  {
    if offset + len > U16 {
      // The first byte behind the end of the 16-bit numbers is told from the first of all.
      var n := U16 - offset;
      var memory: seq<byte> := seq(offset + len, i => if i == U16 then 1 else 0);
      assert Wrapped(offset + n) == 0;
      assert Selected(memory, 0, len - n)[0] == 0 && Selected(memory, offset, len)[n..][0] == 1;
    } else {
      forall memory: seq<byte>, n: nat | n <= len && offset + len <= |memory|
        ensures Selected(memory, Wrapped(offset + n), len - n) == Selected(memory, offset, len)[n..]
      {
        assert n < len ==> Wrapped(offset + n) == offset + n;
      }
    }
  }

  /** A buffer of the greatest capacity, full of a byte other than the first of its memory. */
  method FullBuffer() returns (b: Buffer, x: byte)
    ensures fresh(b) && b.Valid() && b.buf != null && fresh(b.buf) && b.offset < ALIGN && b.len == U16 - 1
    ensures b.Contents() == Full(x) && (b.offset > 0 ==> b.buf[0] != x)
  {
    hide Full;
    b := new Buffer();
    var ok := b.Init(U16 - 1);
    x := if b.buf[0] == 0 then 1 else 0;
    b.Fill([], Full(x));
    assert b.Contents() == [] + Full(x) == Full(x);
    assert b.offset > 0 ==> b.buf[..b.offset][0] == b.buf[0];
  }

  /** A full buffer, and a write that takes all in front of where the offset comes around: what
      was not taken is kept exactly if the memory happened to be aligned so that the contents
      start at its first or second byte. */
  method ConsumeFullBuffer() returns (b: Buffer, ghost start: nat, ghost n: nat, ghost before: seq<byte>)
    ensures b.Valid() && start < ALIGN && n <= |before| == U16 - 1
    ensures b.Contents() == before[n..] <==> start <= 1
  {
    hide Full, Selected, Wrapped;
    var x;
    b, x := FullBuffer();
    start, before := b.offset, Full(x);
    var taken := if b.offset <= 1 then U16 - 2 else U16 - b.offset;
    n := taken;
    ghost var memory := b.buf[..];
    b.Consume(taken);
    hide Buffer.Contents;
    if start > 1 {
      ComesAround(memory, start, x);
    }
  }

  function Full(x: byte): (s: seq<byte>)
    ensures |s| == U16 - 1
  {
    seq(U16 - 1, _ => x)
  }

  lemma ComesAround(memory: seq<byte>, start: nat, x: byte)
    requires 1 < start < ALIGN && start + (U16 - 1) <= |memory| && memory[0] != x
    ensures Selected(memory, Wrapped(start + (U16 - start)), start - 1) != Full(x)[U16 - start..]
  {
    assert Selected(memory, 0, start - 1)[0] == memory[0];
    assert Full(x)[U16 - start..][0] == x;
  }
}
