/** The scalar wire format of the nanopb codec: base 128 varints, zigzag and
    fixed-width little-endian integers, as pure functions over byte sequences. */
module PbWire {
  import opened ByteString

  const U32 := 0x1_0000_0000
  const U64 := 0x1_0000_0000_0000_0000

  function Pow2(n: nat): (p: nat)
    ensures p > 0
  {
    if n == 0 then 1 else 2 * Pow2(n - 1)
  }

  lemma {:induction false} Pow2Adds(m: nat, n: nat)
    ensures Pow2(m + n) == Pow2(m) * Pow2(n)
  {
    if n == 0 {
    } else {
      Pow2Adds(m, n - 1);
      assert Pow2(m) * (2 * Pow2(n - 1)) == 2 * (Pow2(m) * Pow2(n - 1));
    }
  }

  lemma Pow2Monotone(m: nat, n: nat)
    requires m <= n
    ensures Pow2(m) <= Pow2(n)
  {
    if m < n {
      Pow2Monotone(m, n - 1);
    }
  }

  lemma Pow2Values()
    ensures Pow2(0) == 1 && Pow2(7) == 128 && Pow2(8) == 256 && Pow2(32) == U32 && Pow2(64) == U64
  {
    SmallPowers();
    hide Pow2;
    Pow2Adds(8, 8);
    Pow2Adds(16, 16);
    Pow2Adds(32, 32);
  }

  lemma SmallPowers()
    ensures Pow2(0) == 1 && Pow2(7) == 128 && Pow2(8) == 256
  {
  }

  // -------------------------------------------------------------- varints

  /** Groups of seven bits, least significant first, the top bit of a byte
      saying whether another byte follows. */
  function EncVarint(v: nat): (s: seq<byte>)
    ensures |s| >= 1
  {
    if v < 128 then [v] else [v % 128 + 128] + EncVarint(v / 128)
  }

  /** What a varint reader leaves behind; also a failing reader has consumed input. */
  datatype VarintResult = VOk(value: nat, rest: seq<byte>) | VFail(rest: seq<byte>)

  /** The word with seven more bits of `b` put in at `bitpos`, those beyond the width lost. */
  function Insert(acc: nat, b: byte, bitpos: nat, width: nat): (word: nat)
    ensures word < Pow2(width)
  {
    (acc + b % 128 * Pow2(bitpos)) % Pow2(width)
  }

  /** The loop shared by the 32-bit and the 64-bit reader: `acc` holds the bits below
      `bitpos`; bits shifted out of the result word are lost. */
  function DecVarintFrom(s: seq<byte>, width: nat, bitpos: nat, acc: nat): (r: VarintResult)
    ensures |r.rest| <= |s|
    ensures r.VOk? ==> |r.rest| < |s| && r.value < Pow2(width)
    decreases |s|
  {
    if bitpos >= width || s == [] then VFail(s)
    else
      var acc' := Insert(acc, s[0], bitpos, width);
      if s[0] < 128 then VOk(acc', s[1..]) else DecVarintFrom(s[1..], width, bitpos + 7, acc')
  }

  function DecVarint32(s: seq<byte>): (r: VarintResult)
    ensures |r.rest| <= |s|
    ensures r.VOk? ==> |r.rest| < |s| && r.value < U32
  {
    Pow2Values();
    DecVarintFrom(s, 32, 0, 0)
  }

  function DecVarint64(s: seq<byte>): (r: VarintResult)
    ensures |r.rest| <= |s|
    ensures r.VOk? ==> |r.rest| < |s| && r.value < U64
  {
    Pow2Values();
    DecVarintFrom(s, 64, 0, 0)
  }

  /** The reader undoes the writer whenever the value fits the reader's word. */
  lemma {:induction false} VarintRoundTripFrom(v: nat, t: seq<byte>, width: nat, bitpos: nat, acc: nat)
    requires acc + v * Pow2(bitpos) < Pow2(width)
    requires v > 0 || bitpos < width
    ensures DecVarintFrom(EncVarint(v) + t, width, bitpos, acc) == VOk(acc + v * Pow2(bitpos), t)
    decreases v
  {
    hide Pow2, Insert;
    var low, high := v % 128 * Pow2(bitpos), v / 128 * Pow2(bitpos + 7);
    SplitGroup(v, bitpos);
    if bitpos >= width {
      Pow2Monotone(width, bitpos);
      SplitGroup(v - 1, bitpos);
      assert false;
    }
    var s := EncVarint(v) + t;
    assert s[0] % 128 == v % 128;
    InsertFits(acc, s[0], bitpos, width);
    if v < 128 {
      assert s[1..] == t;
    } else {
      assert s[1..] == EncVarint(v / 128) + t;
      VarintRoundTripFrom(v / 128, t, width, bitpos + 7, acc + low);
    }
  }

  lemma InsertFits(acc: nat, b: byte, bitpos: nat, width: nat)
    requires acc + b % 128 * Pow2(bitpos) < Pow2(width)
    ensures Insert(acc, b, bitpos, width) == acc + b % 128 * Pow2(bitpos)
  {
    hide Pow2;
    SmallMod(acc + b % 128 * Pow2(bitpos), Pow2(width));
  }

  lemma SmallMod(a: nat, m: nat)
    requires a < m
    ensures a % m == a
  {
  }

  lemma SplitGroup(v: nat, bitpos: nat)
    ensures v * Pow2(bitpos) == v % 128 * Pow2(bitpos) + v / 128 * Pow2(bitpos + 7)
    ensures v % 128 * Pow2(bitpos) >= 0 && v / 128 * Pow2(bitpos + 7) >= 0 && v * Pow2(bitpos) >= 0
    ensures (v + 1) * Pow2(bitpos) == v * Pow2(bitpos) + Pow2(bitpos)
  {
    hide Pow2;
    Pow2Adds(bitpos, 7);
    Pow2Values();
    Distribute(v / 128, v % 128, Pow2(bitpos));
    NonNegative(v % 128, Pow2(bitpos));
    NonNegative(v / 128, Pow2(bitpos + 7));
  }

  lemma Distribute(q: nat, r: nat, p: nat)
    ensures (q * 128 + r) * p == r * p + q * (p * 128)
    ensures (q * 128 + r + 1) * p == (q * 128 + r) * p + p
  {
  }

  lemma NonNegative(x: nat, y: nat)
    ensures x * y >= 0
  {
  }

  lemma Varint64RoundTrip(v: nat, t: seq<byte>)
    requires v < U64
    ensures DecVarint64(EncVarint(v) + t) == VOk(v, t)
  {
    hide DecVarintFrom, EncVarint, Pow2;
    Pow2Values();
    VarintRoundTripFrom(v, t, 64, 0, 0);
  }

  lemma Varint32RoundTrip(v: nat, t: seq<byte>)
    requires v < U32
    ensures DecVarint32(EncVarint(v) + t) == VOk(v, t)
  {
    hide DecVarintFrom, EncVarint, Pow2;
    Pow2Values();
    VarintRoundTripFrom(v, t, 32, 0, 0);
  }

  /** Seven bits a byte: `n` bytes are enough for any value below 2^(7n). */
  lemma {:induction false} VarintLength(v: nat, n: nat)
    requires n > 0 && v < Pow2(7 * n)
    ensures |EncVarint(v)| <= n
    decreases v
  {
    if v >= 128 {
      Pow2Values();
      if n == 1 {
        assert false;
      }
      Pow2Adds(7 * (n - 1), 7);
      VarintLength(v / 128, n - 1);
    }
  }

  lemma Varint64Length(v: nat)
    requires v < U64
    ensures |EncVarint(v)| <= 10
  {
    Pow2Values();
    Pow2Monotone(64, 70);
    VarintLength(v, 10);
  }

  /** A successful read looks at nothing behind the varint. */
  lemma {:induction false} VarintLocal(s: seq<byte>, t: seq<byte>, width: nat, bitpos: nat, acc: nat)
    requires DecVarintFrom(s, width, bitpos, acc).VOk?
    ensures DecVarintFrom(s + t, width, bitpos, acc)
         == DecVarintFrom(s, width, bitpos, acc).(rest := DecVarintFrom(s, width, bitpos, acc).rest + t)
    decreases |s|
  {
    var acc' := Insert(acc, s[0], bitpos, width);
    assert (s + t)[1..] == s[1..] + t;
    if s[0] >= 128 {
      VarintLocal(s[1..], t, width, bitpos + 7, acc');
    }
  }

  // -------------------------------------------------- zigzag, sign, fixed width

  /** Two's complement of an int64 as the unsigned 64-bit word the C cast yields. */
  function ToU64(x: int): (v: nat)
    requires -(U64 / 2) <= x < U64 / 2
    ensures v < U64
  {
    if x < 0 then x + U64 else x
  }

  /** The C cast of an unsigned word to a signed type of `bits` bits: the low bits, sign-extended. */
  function AsSigned(v: nat, bits: nat): (x: int)
    requires bits > 0
  {
    var low := v % Pow2(bits);
    if low < Pow2(bits - 1) then low else low - Pow2(bits)
  }

  /** Zigzag: non-negative numbers become even, negative ones odd. */
  function ZigZag(x: int): (v: nat)
    requires -(U64 / 2) <= x < U64 / 2
    ensures v < U64
  {
    if x < 0 then -2 * x - 1 else 2 * x
  }

  function UnZigZag(v: nat): (x: int)
    requires v < U64
    ensures -(U64 / 2) <= x < U64 / 2
  {
    if v % 2 == 1 then -(v / 2) - 1 else v / 2
  }

  lemma ZigZagRoundTrip(x: int)
    requires -(U64 / 2) <= x < U64 / 2
    ensures UnZigZag(ZigZag(x)) == x
  {
    if x < 0 {
      assert ZigZag(x) / 2 == -x - 1;
    }
  }

  function EncFixed(v: nat, n: nat): (s: seq<byte>)
    ensures |s| == n
  {
    if n == 0 then [] else [v % 256] + EncFixed(v / 256, n - 1)
  }

  function DecFixed(s: seq<byte>): (v: nat)
  {
    if s == [] then 0 else s[0] + 256 * DecFixed(s[1..])
  }

  lemma {:induction false} FixedRoundTrip(v: nat, n: nat)
    requires v < Pow2(8 * n)
    ensures DecFixed(EncFixed(v, n)) == v
  {
    if n > 0 {
      Pow2Adds(8 * (n - 1), 8);
      assert Pow2(8) == 256;
      FixedRoundTrip(v / 256, n - 1);
      assert EncFixed(v, n)[1..] == EncFixed(v / 256, n - 1);
    }
  }
}
