/** Bytes, and the fixed-width big-endian integers of the TLS family. */
module ByteString {

  type byte = b: int | 0 <= b < 0x100

  datatype Option<+T> = None | Some(value: T)

  function Pow256(n: nat): (p: nat)
    ensures p > 0
  {
    if n == 0 then 1 else 256 * Pow256(n - 1)
  }

  /** The low `n` bytes of a number, most significant first. */
  function EncBE(v: nat, n: nat): (s: seq<byte>)
    ensures |s| == n
  {
    if n == 0 then [] else EncBE(v / 256, n - 1) + [v % 256]
  }

  function DecBE(s: seq<byte>): (v: nat)
  {
    if s == [] then 0 else DecBE(s[..|s| - 1]) * 256 + s[|s| - 1]
  }

  lemma {:induction false} BigEndianRoundTrip(v: nat, n: nat)
    requires v < Pow256(n)
    ensures DecBE(EncBE(v, n)) == v
  {
    if n > 0 {
      BigEndianRoundTrip(v / 256, n - 1);
      assert EncBE(v, n)[..n - 1] == EncBE(v / 256, n - 1);
    }
  }

  /** Different byte sequences of one length are different numbers. */
  lemma {:induction false} BigEndianBack(s: seq<byte>)
    ensures EncBE(DecBE(s), |s|) == s
    ensures DecBE(s) < Pow256(|s|)
  {
    if s != [] {
      BigEndianBack(s[..|s| - 1]);
      assert DecBE(s) / 256 == DecBE(s[..|s| - 1]);
      assert s == s[..|s| - 1] + [s[|s| - 1]];
    }
  }

  lemma Pow256Values()
    ensures Pow256(1) == 0x100 && Pow256(2) == 0x1_0000 && Pow256(3) == 0x100_0000
    ensures Pow256(6) == 0x1_0000_0000_0000 && Pow256(8) == 0x1_0000_0000_0000_0000
  {
    assert Pow256(3) == 256 * Pow256(2);
    assert Pow256(4) == 256 * Pow256(3);
    assert Pow256(5) == 256 * Pow256(4);
    assert Pow256(6) == 256 * Pow256(5);
    assert Pow256(7) == 256 * Pow256(6);
  }

  /** A number read off the front, as the CBS readers do. */
  datatype Taken<+T> = Taken(value: T, rest: seq<byte>) | Short

  function TakeBE(s: seq<byte>, n: nat): (r: Taken<nat>)
    ensures r.Taken? <==> |s| >= n
    ensures r.Taken? ==> r.rest == s[n..] && r.value < Pow256(n)
  {
    if |s| < n then Short
    else
      BigEndianBack(s[..n]);
      Taken(DecBE(s[..n]), s[n..])
  }

  lemma TakeBEBack(v: nat, n: nat, t: seq<byte>)
    requires v < Pow256(n)
    ensures TakeBE(EncBE(v, n) + t, n) == Taken(v, t)
  {
    BigEndianRoundTrip(v, n);
    assert (EncBE(v, n) + t)[..n] == EncBE(v, n);
    assert (EncBE(v, n) + t)[n..] == t;
  }
}
