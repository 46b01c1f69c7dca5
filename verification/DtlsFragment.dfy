/** Handshake fragments of DTLS: their header (section 4.2.2 of RFC 6347), and the message
    under reassembly with its bitmask of bytes received. */
module DtlsFragment {
  import opened ByteString
  import opened Bits

  const HM_HEADER_LENGTH := 12

  // ----------------------------------------------------------------- the header

  datatype Header = Header(msgType: byte, msgLen: nat, seqNo: nat, fragOff: nat, fragLen: nat)
  {
    /** The members fit their fields. */
    predicate Encodable() {
      msgLen < 0x100_0000 && seqNo < 0x1_0000 && fragOff < 0x100_0000 && fragLen < 0x100_0000
    }
  }

  function EncHeader(h: Header): (s: seq<byte>)
    ensures |s| == HM_HEADER_LENGTH
  {
    [h.msgType] + EncBE(h.msgLen, 3) + EncBE(h.seqNo, 2) + EncBE(h.fragOff, 3) + EncBE(h.fragLen, 3)
  }

  datatype Parsed = Malformed | Fragment(header: Header, body: seq<byte>, rest: seq<byte>)

  /** `dtls1_parse_fragment`. */
  function ParseFragment(s: seq<byte>): (p: Parsed)
    ensures p.Fragment? ==> p.header.Encodable() && |p.body| == p.header.fragLen
    ensures p.Fragment? ==> |p.rest| == |s| - HM_HEADER_LENGTH - |p.body|
  {
    Pow256Values();
    if s == [] then Malformed
    else
      var len := TakeBE(s[1..], 3);
      if len.Short? then Malformed
      else
        var num := TakeBE(len.rest, 2);
        if num.Short? then Malformed
        else
          var off := TakeBE(num.rest, 3);
          if off.Short? then Malformed
          else
            var count := TakeBE(off.rest, 3);
            if count.Short? || |count.rest| < count.value then Malformed
            else
              Fragment(Header(s[0], len.value, num.value, off.value, count.value),
                       count.rest[..count.value], count.rest[count.value..])
  }

  /** The header in the first twelve bytes. */
  function HeaderIn(s: seq<byte>): Header
    requires |s| >= 12
  {
    Header(s[0], DecBE(s[1..4]), DecBE(s[4..6]), DecBE(s[6..9]), DecBE(s[9..12]))
  }

  /** A fragment is there if twelve bytes and as many more are as the header says. */
  lemma ParseFragmentIs(s: seq<byte>)
    ensures ParseFragment(s)
         == if |s| >= 12 && 12 + HeaderIn(s).fragLen <= |s|
            then Fragment(HeaderIn(s), s[12..12 + HeaderIn(s).fragLen], s[12 + HeaderIn(s).fragLen..]) else Malformed
  {
    hide DecBE, Pow256;
    if |s| >= 12 {
      var tail := s[1..];
      assert tail[..3] == s[1..4] && tail[3..] == s[4..];
      assert s[4..][..2] == s[4..6] && s[4..][2..] == s[6..];
      assert s[6..][..3] == s[6..9] && s[6..][3..] == s[9..];
      assert s[9..][..3] == s[9..12] && s[9..][3..] == s[12..];
      var n := DecBE(s[9..12]);
      if 12 + n <= |s| {
        assert s[12..][..n] == s[12..12 + n] && s[12..][n..] == s[12 + n..];
      }
    }
  }

  lemma SlicesJoin(s: seq<byte>, n: nat)
    requires 12 + n <= |s|
    ensures s == [s[0]] + s[1..4] + s[4..6] + s[6..9] + s[9..12] + s[12..12 + n] + s[12 + n..]
  {
  }

  /** What is parsed is what was written, byte for byte. */
  lemma ParsedIsFragment(s: seq<byte>)
    ensures var p := ParseFragment(s); p.Fragment? ==> s == EncHeader(p.header) + p.body + p.rest
  {
    hide EncBE, DecBE, Pow256, ParseFragment;
    ParseFragmentIs(s);
    if |s| >= 12 && 12 + HeaderIn(s).fragLen <= |s| {
      BigEndianBack(s[1..4]);
      BigEndianBack(s[4..6]);
      BigEndianBack(s[6..9]);
      BigEndianBack(s[9..12]);
      SlicesJoin(s, HeaderIn(s).fragLen);
    }
  }

  /** What is written is parsed again, whatever follows it. */
  lemma ParseBack(h: Header, body: seq<byte>, rest: seq<byte>)
    requires h.Encodable() && |body| == h.fragLen
    ensures ParseFragment(EncHeader(h) + body + rest) == Fragment(h, body, rest)
  {
    Pow256Values();
    var s := EncHeader(h) + body + rest;
    var s4 := EncBE(h.fragLen, 3) + (body + rest);
    var s3 := EncBE(h.fragOff, 3) + s4;
    var s2 := EncBE(h.seqNo, 2) + s3;
    assert s[1..] == EncBE(h.msgLen, 3) + s2;
    TakeBEBack(h.msgLen, 3, s2);
    TakeBEBack(h.seqNo, 2, s3);
    TakeBEBack(h.fragOff, 3, s4);
    TakeBEBack(h.fragLen, 3, body + rest);
    hide EncBE, DecBE, TakeBE;
    assert (body + rest)[..|body|] == body && (body + rest)[|body|..] == rest;
  }

  // -------------------------------------------------- a message under reassembly

  /** What has been received of a message: the bytes known so far. */
  datatype Frag = Frag(msgType: byte, seqNo: nat, msgLen: nat, content: map<nat, byte>)
  {
    predicate Complete() {
      content.Keys == Range(0, msgLen)
    }

    /** The message in the single-fragment form that is also hashed. */
    function Raw(): (s: seq<byte>)
      requires Complete()
    {
      EncHeader(Header(msgType, msgLen, seqNo, 0, msgLen)) + Body()
    }

    function Body(): (s: seq<byte>)
      requires Complete()
    {
      seq(msgLen, i requires 0 <= i < msgLen => assert i in content.Keys; content[i])
    }
  }

  predicate Between(start: nat, k: nat, end: nat) {
    start <= k < end
  }

  function Range(start: nat, end: nat): set<nat> {
    set k: nat | start <= k < end && Between(start, k, end)
  }

  /** The bytes of a fragment at their places in the message. */
  function Placed(off: nat, body: seq<byte>): (m: map<nat, byte>)
    ensures m.Keys == Range(off, off + |body|)
  {
    map k: nat {:trigger Between(off, k, off + |body|)} | off <= k < off + |body| && Between(off, k, off + |body|) :: body[k - off]
  }

  /** A fragment is copied in, unless the message is complete already. */
  function Merge(f: Frag, off: nat, body: seq<byte>): (f': Frag)
    ensures f'.msgType == f.msgType && f'.seqNo == f.seqNo && f'.msgLen == f.msgLen
  {
    if f.Complete() then f else f.(content := f.content + Placed(off, body))
  }

  /** The covered bytes of a buffer. */
  function Known(buffer: seq<byte>, covered: set<nat>): (m: map<nat, byte>)
    requires covered <= Range(0, |buffer|)
    ensures m.Keys == covered
  {
    map k | k in covered :: buffer[k]
  }

  /** Copying a fragment into the buffer adds its bytes to the known ones. */
  lemma KnownAdds(before: seq<byte>, after: seq<byte>, covered: set<nat>, off: nat, body: seq<byte>)
    requires covered <= Range(0, |before|) && off + |body| <= |before|
    requires after == before[..off] + body + before[off + |body|..]
    ensures Known(after, covered + Range(off, off + |body|)) == Known(before, covered) + Placed(off, body)
  {
  }

  // ------------------------------------------------------------------ the bitmask

  predicate MaskBit(mask: seq<bv8>, k: nat)
    requires k < 8 * |mask|
  {
    ByteBit(mask[k / 8], k % 8)
  }

  /** The bits of the mask are exactly the numbers in `covered`. */
  ghost predicate Shows(mask: seq<bv8>, covered: set<nat>) {
    forall k: nat :: k < 8 * |mask| ==> (MaskBit(mask, k) <==> k in covered)
  }

  lemma Numbered(q: nat, k: nat)
    requires k < 8
    ensures (q * 8 + k) / 8 == q && (q * 8 + k) % 8 == k
  {
  }

  /** Or-ing a range into one byte covers that range. */
  lemma OrByte(mask: seq<bv8>, covered: set<nat>, i: nat, lo: nat, hi: nat)
    requires Shows(mask, covered) && i < |mask| && lo <= hi <= 8
    ensures Shows(mask[i := mask[i] | BitRange(lo, hi)], covered + Range(8 * i + lo, 8 * i + hi))
  {
    hide ByteBit, BitRange;
    var mask' := mask[i := mask[i] | BitRange(lo, hi)];
    forall k: nat | k < 8 * |mask'|
      ensures MaskBit(mask', k) <==> k in covered + Range(8 * i + lo, 8 * i + hi)
    {
      assert MaskBit(mask, k) <==> k in covered;
      if k / 8 == i {
        OrRange(mask[i], lo, hi, k % 8);
        assert k == 8 * i + k % 8;
      }
    }
  }

  /** Filling a byte covers its eight numbers. */
  lemma FillByte(mask: seq<bv8>, covered: set<nat>, i: nat)
    requires Shows(mask, covered) && i < |mask|
    ensures Shows(mask[i := 0xFF], covered + Range(8 * i, 8 * i + 8))
  {
    FullRange();
    hide ByteBit, BitRange;
    var mask' := mask[i := BitRange(0, 8)];
    forall k: nat | k < 8 * |mask'|
      ensures MaskBit(mask', k) <==> k in covered + Range(8 * i, 8 * i + 8)
    {
      assert MaskBit(mask, k) <==> k in covered;
      if k / 8 == i {
        BitRangeAt(0, 8, k % 8);
        assert k == 8 * i + k % 8;
      }
    }
  }

  /** The comparison made at the end: full bytes, and the low bits of the last one. */
  ghost predicate AllMarked(mask: seq<bv8>, msgLen: nat)
    requires |mask| == (msgLen + 7) / 8
  {
    && (forall i :: 0 <= i < msgLen / 8 ==> mask[i] == 0xFF)
    && (msgLen % 8 != 0 ==> mask[msgLen / 8] == BitRange(0, msgLen % 8))
  }

  /** It succeeds exactly when every byte of the message is covered. */
  lemma AllMarkedIff(mask: seq<bv8>, covered: set<nat>, msgLen: nat)
    requires |mask| == (msgLen + 7) / 8 && Shows(mask, covered) && covered <= Range(0, msgLen)
    ensures AllMarked(mask, msgLen) <==> covered == Range(0, msgLen)
  {
    FullRange();
    hide ByteBit, BitRange;
    if AllMarked(mask, msgLen) {
      forall k: nat | k < msgLen
        ensures k in covered
      {
        assert MaskBit(mask, k) <==> k in covered;
        if k / 8 < msgLen / 8 {
          BitRangeAt(0, 8, k % 8);
        } else {
          BitRangeAt(0, msgLen % 8, k % 8);
        }
      }
    } else if covered == Range(0, msgLen) {
      forall i | 0 <= i < msgLen / 8
        ensures mask[i] == 0xFF
      {
        ByteIsRange(mask, covered, i, 8);
      }
      if msgLen % 8 != 0 {
        ByteIsRange(mask, covered, msgLen / 8, msgLen % 8);
      }
      assert false;
    }
  }

  lemma ByteIsRange(mask: seq<bv8>, covered: set<nat>, i: nat, n: nat)
    requires Shows(mask, covered) && i < |mask| && n <= 8
    requires forall j: nat :: 8 * i <= j < 8 * i + 8 ==> (j in covered <==> j < 8 * i + n)
    ensures mask[i] == BitRange(0, n)
  {
    hide ByteBit, BitRange;
    forall k: nat | k < 8
      ensures ByteBit(mask[i], k) <==> 0 <= k < n
    {
      Numbered(i, k);
      assert MaskBit(mask, i * 8 + k) <==> i * 8 + k in covered;
    }
    IsRange(mask[i], 0, n);
  }

  lemma NothingMarked(mask: seq<bv8>)
    requires forall i :: 0 <= i < |mask| ==> mask[i] == 0
    ensures Shows(mask, {})
  {
    forall k: nat | k < 8 * |mask|
      ensures !MaskBit(mask, k)
    {
      NoBits(k % 8);
    }
  }

  // ---------------------------------------------------------------- hm_fragment

  /** `hm_fragment`. The bytes of `data` that are not covered hold anything. */
  class HmFragment {
    const msgType: byte
    const seqNo: nat
    const msgLen: nat
    const data: array<byte>
    var reassembly: array?<bv8>
    ghost var covered: set<nat>

    /** The mask is exact: bit k is set if and only if byte k was received, no bit behind the
        message is, and the mask is gone exactly when nothing is missing. */
    ghost predicate Valid()
      reads this, data, reassembly
    {
      && data.Length == HM_HEADER_LENGTH + msgLen
      && data[..HM_HEADER_LENGTH] == EncHeader(Header(msgType, msgLen, seqNo, 0, msgLen))
      && covered <= Range(0, msgLen)
      && (reassembly == null <==> covered == Range(0, msgLen))
      && (reassembly != null ==> reassembly.Length == (msgLen + 7) / 8 && Shows(reassembly[..], covered))
    }

    ghost function Repr(): set<object>
      reads this
    {
      {this, data} + if reassembly == null then {} else {reassembly}
    }

    ghost function View(): (f: Frag)
      requires Valid()
      reads this, data, reassembly
      ensures f.msgType == msgType && f.seqNo == seqNo && f.msgLen == msgLen
      ensures f.Complete() <==> reassembly == null
    {
      Frag(msgType, seqNo, msgLen, Known(data[HM_HEADER_LENGTH..], covered))
    }

    /** `dtls1_hm_fragment_new`. */
    constructor (h: Header)
      ensures Valid() && fresh(Repr())
      ensures View() == Frag(h.msgType, h.seqNo, h.msgLen, map[])
    {
      msgType, seqNo, msgLen := h.msgType, h.seqNo, h.msgLen;
      data := new byte[HM_HEADER_LENGTH + h.msgLen];
      reassembly := null;
      covered := {};
      new;
      var header := EncHeader(Header(h.msgType, h.msgLen, h.seqNo, 0, h.msgLen));
      for i := 0 to HM_HEADER_LENGTH
        invariant data[..i] == header[..i]
        invariant reassembly == null && covered == {}
      {
        data[i] := header[i];
      }
      // An empty message has nothing to assemble.
      if msgLen > 0 {
        var mask := new bv8[(msgLen + 7) / 8](_ => 0);
        assert forall i :: 0 <= i < mask.Length ==> mask[..][i] == 0;
        NothingMarked(mask[..]);
        assert Shows(mask[..], covered);
        reassembly := mask;
        assert 0 in Range(0, msgLen);
      }
      assert View().content == map[];
    }

    /** `dtls1_hm_fragment_mark`. */
    method Mark(start: nat, end: nat)
      requires Valid() && reassembly != null && start <= end <= msgLen
      modifies this`reassembly, this`covered, reassembly
      ensures Valid() && covered == old(covered) + Range(start, end)
      ensures reassembly == null || reassembly == old(reassembly)
    {
      if start == end {
        assert Range(start, end) == {};
        return;
      }
      hide Shows, BitRange;
      MarkBits(start, end);
      covered := covered + Range(start, end);
      AllMarkedIff(reassembly[..], covered, msgLen);
      // The full bytes of the mask, and then its last bits.
      for i := 0 to msgLen / 8
        invariant forall j :: 0 <= j < i ==> reassembly[j] == 0xFF
      {
        if reassembly[i] != 0xFF {
          return;
        }
      }
      if msgLen % 8 != 0 && reassembly[msgLen / 8] != BitRange(0, msgLen % 8) {
        return;
      }
      reassembly := null;
    }

    method MarkBits(start: nat, end: nat)
      requires reassembly != null && reassembly.Length == (msgLen + 7) / 8 && Shows(reassembly[..], covered)
      requires start < end <= msgLen
      modifies reassembly
      ensures Shows(reassembly[..], covered + Range(start, end))
    {
      hide Shows, BitRange;
      var mask := reassembly;
      if start / 8 == end / 8 {
        OrByte(mask[..], covered, start / 8, start % 8, end % 8);
        mask[start / 8] := mask[start / 8] | BitRange(start % 8, end % 8);
        assert mask[..] == old(mask[..])[start / 8 := mask[start / 8]];
      } else {
        OrByte(mask[..], covered, start / 8, start % 8, 8);
        mask[start / 8] := mask[start / 8] | BitRange(start % 8, 8);
        assert mask[..] == old(mask[..])[start / 8 := mask[start / 8]];
        for i := start / 8 + 1 to end / 8
          invariant Shows(mask[..], covered + Range(start, 8 * i))
        {
          ghost var before := mask[..];
          FillByte(mask[..], covered + Range(start, 8 * i), i);
          mask[i] := 0xFF;
          assert mask[..] == before[i := 0xFF];
          assert covered + Range(start, 8 * i) + Range(8 * i, 8 * i + 8) == covered + Range(start, 8 * (i + 1));
        }
        if end % 8 != 0 {
          ghost var before := mask[..];
          OrByte(mask[..], covered + Range(start, 8 * (end / 8)), end / 8, 0, end % 8);
          mask[end / 8] := mask[end / 8] | BitRange(0, end % 8);
          assert mask[..] == before[end / 8 := mask[end / 8]];
          assert covered + Range(start, 8 * (end / 8)) + Range(8 * (end / 8), end) == covered + Range(start, end);
        }
      }
    }

    /** A complete message lies in the buffer in its single-fragment form. */
    lemma CompleteIsRaw()
      requires Valid() && reassembly == null
      ensures View().Body() == data[HM_HEADER_LENGTH..]
      ensures View().Raw() == data[..]
    {
      var f := View();
      assert f.Body() == data[HM_HEADER_LENGTH..];
      assert data[..] == data[..HM_HEADER_LENGTH] + data[HM_HEADER_LENGTH..];
    }

    /** Copies the body of a fragment in and marks it, as `dtls1_read_message` does. */
    method Add(off: nat, body: seq<byte>)
      requires Valid() && off + |body| <= msgLen
      modifies this`reassembly, this`covered, data, reassembly
      ensures Valid() && View() == Merge(old(View()), off, body)
      ensures reassembly == null || reassembly == old(reassembly)
    {
      hide Shows, Known, Placed, Range, EncHeader;
      if reassembly == null {
        return;
      }
      ghost var buffer := data[HM_HEADER_LENGTH..];
      KnownAdds(buffer, buffer[..off] + body + buffer[off + |body|..], covered, off, body);
      CopyIn(off, body);
      Mark(off, off + |body|);
    }

    method CopyIn(off: nat, body: seq<byte>)
      requires Valid() && off + |body| <= msgLen
      modifies data
      ensures Valid()
      ensures data[HM_HEADER_LENGTH..] == old(data[HM_HEADER_LENGTH..][..off] + body + data[HM_HEADER_LENGTH..][off + |body|..])
    {
      for i := 0 to |body|
        invariant forall k :: 0 <= k < i ==> data[HM_HEADER_LENGTH + off + k] == body[k]
        invariant forall k :: 0 <= k < data.Length && !(HM_HEADER_LENGTH + off <= k < HM_HEADER_LENGTH + off + i) ==> data[k] == old(data[k])
      {
        data[HM_HEADER_LENGTH + off + i] := body[i];
      }
    }
  }
}
