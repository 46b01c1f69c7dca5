/** Single bits of machine words, by number. */
module Bits {

  lemma IndexFits(k: nat)
    requires k < 64
    ensures (k as bv6) as int == k
  {
  }

  lemma Ordered(x: bv6, y: bv6)
    ensures x < y <==> (x as int) < (y as int)
  {
  }

  // ------------------------------------------------------------- bytes of bits

  predicate ByteBitAt(b: bv8, k: bv6)
    requires k < 8
  {
    (b >> k) & 1 == 1
  }

  /** Bit `k` of a byte is set. */
  predicate ByteBit(b: bv8, k: nat)
    requires k < 8
  {
    Below8(k);
    ByteBitAt(b, k as bv6)
  }

  lemma Below8(k: nat)
    requires k <= 8
    ensures (k as bv6) <= 8 && (k < 8 ==> (k as bv6) < 8)
  {
    IndexFits(k);
    Ordered(8, k as bv6);
    Ordered(k as bv6, 8);
  }

  /** The shifts and masks of `bit_range`, in a 32-bit word that is cut to its low byte. */
  function RangeWord(start: bv6, end: bv6): bv8
    requires start <= 8 && end <= 8
  {
    var one: bv32 := 1;
    ((!((one << start) - 1) & ((one << end) - 1)) & 0xFF) as bv8
  }

  /** `bit_range`. */
  function BitRange(start: nat, end: nat): bv8
    requires start <= 8 && end <= 8
  {
    Below8(start);
    Below8(end);
    RangeWord(start as bv6, end as bv6)
  }

  lemma RangeWordAt(start: bv6, end: bv6, k: bv6)
    requires start <= 8 && end <= 8 && k < 8
    ensures ByteBitAt(RangeWord(start, end), k) <==> start <= k < end
  {
  }

  /** Exactly the bits from `start` to below `end` are set. */
  lemma BitRangeAt(start: nat, end: nat, k: nat)
    requires start <= 8 && end <= 8 && k < 8
    ensures ByteBit(BitRange(start, end), k) <==> start <= k < end
  {
    Below8(start);
    Below8(end);
    Below8(k);
    hide ByteBitAt, RangeWord;
    RangeWordAt(start as bv6, end as bv6, k as bv6);
    IndexFits(start);
    IndexFits(end);
    IndexFits(k);
    Ordered(k as bv6, start as bv6);
    Ordered(k as bv6, end as bv6);
  }

  lemma OrAt(a: bv8, b: bv8, k: bv6)
    requires k < 8
    ensures ByteBitAt(a | b, k) <==> ByteBitAt(a, k) || ByteBitAt(b, k)
  {
  }

  /** Or-ing in a range sets its bits and keeps the others. */
  lemma OrRange(b: bv8, start: nat, end: nat, k: nat)
    requires start <= 8 && end <= 8 && k < 8
    ensures ByteBit(b | BitRange(start, end), k) <==> ByteBit(b, k) || start <= k < end
  {
    BitRangeAt(start, end, k);
    Below8(k);
    hide ByteBitAt, BitRange;
    OrAt(b, BitRange(start, end), k as bv6);
  }

  predicate SameBitAt(a: bv8, b: bv8, k: bv6)
    requires k < 8
  {
    ByteBitAt(a, k) == ByteBitAt(b, k)
  }

  lemma SameBits(a: bv8, b: bv8)
    requires SameBitAt(a, b, 0) && SameBitAt(a, b, 1) && SameBitAt(a, b, 2) && SameBitAt(a, b, 3)
    requires SameBitAt(a, b, 4) && SameBitAt(a, b, 5) && SameBitAt(a, b, 6) && SameBitAt(a, b, 7)
    ensures a == b
  {
  }

  /** A byte is a range exactly when its bits are. */
  lemma IsRange(b: bv8, start: nat, end: nat)
    requires start <= 8 && end <= 8
    ensures b == BitRange(start, end) <==> forall k: nat :: k < 8 ==> (ByteBit(b, k) <==> start <= k < end)
  {
    forall k: nat | k < 8
      ensures ByteBit(BitRange(start, end), k) <==> start <= k < end
    {
      BitRangeAt(start, end, k);
    }
    if forall k: nat :: k < 8 ==> (ByteBit(b, k) <==> start <= k < end) {
      SameByte(b, BitRange(start, end));
    }
  }

  lemma SameByte(a: bv8, b: bv8)
    requires forall k: nat :: k < 8 ==> ByteBit(a, k) == ByteBit(b, k)
    ensures a == b
  {
    forall k: bv6 | k < 8
      ensures SameBitAt(a, b, k)
    {
      Ordered(k, 8);
      assert ByteBit(a, k as int) == ByteBit(b, k as int);
      BackAgain(k);
    }
    hide ByteBit, SameBitAt;
    SameBits(a, b);
  }

  lemma BackAgain(k: bv6)
    ensures (k as int) as bv6 == k
  {
  }

  lemma FullRange()
    ensures BitRange(0, 8) == 0xFF
  {
  }

  lemma NoBits(k: nat)
    requires k < 8
    ensures !ByteBit(0, k)
  {
    Below8(k);
    hide ByteBitAt;
    NoBitsAt(k as bv6);
  }

  lemma NoBitsAt(k: bv6)
    requires k < 8
    ensures !ByteBitAt(0, k)
  {
  }
}
