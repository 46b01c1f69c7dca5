/** The bitmap of `pb_decode_noinit`: which required fields have been seen, thirty-two to a word. */
module PbSeen {
  import opened Bits

  const ALL_BITS: bv32 := 0xFFFF_FFFF

  predicate BitAt(w: bv32, k: bv6)
    requires k < 32
  {
    (w >> k) & 1 == 1
  }

  /** Bit `k` of a word is set. */
  predicate Bit(w: bv32, k: nat)
    requires k < 32
  {
    BitIndex(k);
    BitAt(w, k as bv6)
  }

  lemma BitIndex(k: nat)
    requires k < 64
    ensures (k as bv6) as int == k
    ensures k < 32 ==> (k as bv6) < 32
  {
    IndexFits(k);
    Ordered(k as bv6, 32);
  }

  lemma Complement(s: bv6)
    requires s <= 32
    ensures (32 - s) as int == 32 - (s as int)
  {
  }

  // ------------------------------------------------------------ or-ing in a bit

  lemma SetBitAt(w: bv32, i: bv6, k: bv6)
    requires i < 32 && k < 32
    ensures BitAt(w | (1 << i), k) <==> BitAt(w, k) || k == i
  {
  }

  lemma SetBit(w: bv32, i: nat, k: nat)
    requires i < 32 && k < 32
    ensures (i as bv6) < 32
    ensures Bit(w | (1 << (i as bv6)), k) <==> Bit(w, k) || k == i
  {
    hide BitAt;
    BitIndex(i);
    BitIndex(k);
    SetBitAt(w, i as bv6, k as bv6);
  }

  // ------------------------------------------------------------- equal words

  predicate SameAt(a: bv32, b: bv32, k: bv6)
    requires k < 32
  {
    BitAt(a, k) == BitAt(b, k)
  }

  lemma {:induction false} SameBits(a: bv32, b: bv32)
    requires SameAt(a, b, 0) && SameAt(a, b, 1) && SameAt(a, b, 2) && SameAt(a, b, 3)
    requires SameAt(a, b, 4) && SameAt(a, b, 5) && SameAt(a, b, 6) && SameAt(a, b, 7)
    requires SameAt(a, b, 8) && SameAt(a, b, 9) && SameAt(a, b, 10) && SameAt(a, b, 11)
    requires SameAt(a, b, 12) && SameAt(a, b, 13) && SameAt(a, b, 14) && SameAt(a, b, 15)
    requires SameAt(a, b, 16) && SameAt(a, b, 17) && SameAt(a, b, 18) && SameAt(a, b, 19)
    requires SameAt(a, b, 20) && SameAt(a, b, 21) && SameAt(a, b, 22) && SameAt(a, b, 23)
    requires SameAt(a, b, 24) && SameAt(a, b, 25) && SameAt(a, b, 26) && SameAt(a, b, 27)
    requires SameAt(a, b, 28) && SameAt(a, b, 29) && SameAt(a, b, 30) && SameAt(a, b, 31)
    ensures a == b
  {
    hide SameAt;
    SameLow(a, b);
    SameHigh(a, b);
    SameHalves(a, b);
  }

  lemma SameLow(a: bv32, b: bv32)
    requires SameAt(a, b, 0) && SameAt(a, b, 1) && SameAt(a, b, 2) && SameAt(a, b, 3)
    requires SameAt(a, b, 4) && SameAt(a, b, 5) && SameAt(a, b, 6) && SameAt(a, b, 7)
    requires SameAt(a, b, 8) && SameAt(a, b, 9) && SameAt(a, b, 10) && SameAt(a, b, 11)
    requires SameAt(a, b, 12) && SameAt(a, b, 13) && SameAt(a, b, 14) && SameAt(a, b, 15)
    ensures a & 0xFFFF == b & 0xFFFF
  {
  }

  lemma SameHigh(a: bv32, b: bv32)
    requires SameAt(a, b, 16) && SameAt(a, b, 17) && SameAt(a, b, 18) && SameAt(a, b, 19)
    requires SameAt(a, b, 20) && SameAt(a, b, 21) && SameAt(a, b, 22) && SameAt(a, b, 23)
    requires SameAt(a, b, 24) && SameAt(a, b, 25) && SameAt(a, b, 26) && SameAt(a, b, 27)
    requires SameAt(a, b, 28) && SameAt(a, b, 29) && SameAt(a, b, 30) && SameAt(a, b, 31)
    ensures a & 0xFFFF_0000 == b & 0xFFFF_0000
  {
  }

  lemma SameHalves(a: bv32, b: bv32)
    requires a & 0xFFFF == b & 0xFFFF && a & 0xFFFF_0000 == b & 0xFFFF_0000
    ensures a == b
  {
  }

  lemma SameWord(a: bv32, b: bv32)
    requires forall k: nat :: k < 32 ==> Bit(a, k) == Bit(b, k)
    ensures a == b
  {
    forall k: bv6 | k < 32
      ensures SameAt(a, b, k)
    {
      Ordered(k, 32);
      BitIndex(k as int);
      assert Bit(a, k as int) == Bit(b, k as int);
      BackAgain(k);
    }
    hide Bit, SameAt;
    SameBits(a, b);
  }

  // --------------------------------------------------- the two comparisons made

  lemma LowBitsAt(s: bv6, k: bv6)
    requires s <= 32 && k < 32
    ensures BitAt(ALL_BITS >> s, k) <==> k < 32 - s
  {
  }

  /** `allbits >> (32 - r)` has exactly the bits below `r`. */
  lemma LowBits(r: nat, k: nat)
    requires r <= 32 && k < 32
    ensures ((32 - r) as bv6) <= 32
    ensures Bit(ALL_BITS >> ((32 - r) as bv6), k) <==> k < r
  {
    hide BitAt;
    BitIndex(32 - r);
    BitIndex(k);
    Ordered(32, (32 - r) as bv6);
    LowBitsAt((32 - r) as bv6, k as bv6);
    Complement((32 - r) as bv6);
    Ordered(k as bv6, 32 - ((32 - r) as bv6));
  }

  /** The word with the bits below `r`. */
  function LowWord(r: nat): bv32
    requires r <= 32
  {
    LowBits(r, 0);
    ALL_BITS >> ((32 - r) as bv6)
  }

  /** A whole word is compared with all bits, the last one with its low `r` bits. */
  lemma WordIsLow(w: bv32, r: nat)
    requires r <= 32
    ensures w == LowWord(r) <==> forall k: nat :: k < 32 ==> (Bit(w, k) <==> k < r)
  {
    forall k: nat | k < 32
      ensures Bit(LowWord(r), k) <==> k < r
    {
      LowBits(r, k);
    }
    hide Bit, LowWord;
    if forall k: nat :: k < 32 ==> (Bit(w, k) <==> k < r) {
      SameWord(w, LowWord(r));
    }
  }

  lemma WordIsFull(w: bv32)
    ensures w == ALL_BITS <==> forall k: nat :: k < 32 ==> Bit(w, k)
  {
    WordIsLow(w, 32);
    NoShift();
  }

  lemma NoShift()
    ensures LowWord(32) == ALL_BITS
  {
  }

  lemma NoBits(k: nat)
    requires k < 32
    ensures !Bit(0, k)
  {
    hide BitAt;
    BitIndex(k);
    NoBitsAt(k as bv6);
  }

  lemma NoBitsAt(k: bv6)
    requires k < 32
    ensures !BitAt(0, k)
  {
  }

  // ------------------------------------------------------------- the whole bitmap

  /** Bit `n` of the two words. */
  predicate BitIn(w: seq<bv32>, n: nat)
    requires |w| == 2 && n < 64
  {
    Bit(w[n / 32], n % 32)
  }

  /** The words hold exactly the numbers in `seen`. */
  ghost predicate Holds(w: seq<bv32>, seen: set<nat>) {
    && |w| == 2
    && (forall n :: n in seen ==> n < 64)
    && (forall n: nat :: n < 64 ==> (BitIn(w, n) <==> n in seen))
  }

  lemma NothingSeen()
    ensures Holds([0, 0], {})
  {
    forall n: nat | n < 64
      ensures !BitIn([0, 0], n)
    {
      NoBits(n % 32);
      hide Bit;
    }
  }

  lemma SameIndex(n: nat, k: nat)
    requires n / 32 == k / 32 && n % 32 == k % 32
    ensures n == k
  {
  }

  /** A word with bit `i` or-ed in. */
  function WithBit(w: bv32, i: nat): bv32
    requires i < 32
  {
    SetBit(w, i, 0);
    w | (1 << (i as bv6))
  }

  lemma WithBitAt(w: bv32, i: nat, k: nat)
    requires i < 32 && k < 32
    ensures Bit(WithBit(w, i), k) <==> Bit(w, k) || k == i
  {
    SetBit(w, i, k);
  }

  /** Or-ing in one bit adds one number. */
  lemma MarkOne(w: seq<bv32>, seen: set<nat>, n: nat)
    requires Holds(w, seen) && n < 64
    ensures Holds(w[n / 32 := WithBit(w[n / 32], n % 32)], seen + {n})
  {
    hide Bit, WithBit;
    var w' := w[n / 32 := WithBit(w[n / 32], n % 32)];
    forall k: nat | k < 64
      ensures BitIn(w', k) <==> k in seen + {n}
    {
      assert BitIn(w, k) <==> k in seen;
      if k / 32 == n / 32 {
        WithBitAt(w[n / 32], n % 32, k % 32);
        if k % 32 == n % 32 {
          SameIndex(n, k);
        }
      }
    }
  }

  /** Comparing the whole words with all bits and the last one with its low bits
      tests that every number below `count` was seen, and no other. */
  lemma BitmapTest(w: seq<bv32>, seen: set<nat>, count: nat)
    requires Holds(w, seen) && count < 64 && forall n :: n in seen ==> n < count
    ensures (count >= 32 ==> w[0] == ALL_BITS) && w[count / 32] == LowWord(count % 32)
       <==> forall n: nat :: n < count ==> n in seen
  {
    WordIsLow(w[count / 32], count % 32);
    WordIsFull(w[0]);
    hide Bit, LowWord;
    forall n: nat | n < 64
      ensures Bit(w[n / 32], n % 32) <==> n in seen
    {
      assert BitIn(w, n) <==> n in seen;
    }
    if forall n: nat :: n < count ==> n in seen {
      forall k: nat | k < 32
        ensures Bit(w[count / 32], k) <==> k < count % 32
      {
        Numbered(count / 32, k);
        Numbered(count / 32, count % 32);
        assert BitIn(w, count / 32 * 32 + k) <==> count / 32 * 32 + k in seen;
      }
      if count >= 32 {
        forall k: nat | k < 32
          ensures Bit(w[0], k)
        {
          Numbered(0, k);
          assert BitIn(w, k);
        }
      }
    } else {
      var n: nat :| n < count && n !in seen;
      assert !BitIn(w, n);
      if n / 32 == count / 32 {
        assert n % 32 < count % 32;
      } else {
        assert n / 32 == 0;
      }
    }
  }

  lemma Numbered(q: nat, k: nat)
    requires k < 32
    ensures (q * 32 + k) / 32 == q && (q * 32 + k) % 32 == k
  {
  }
}
