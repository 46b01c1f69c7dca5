/** The replay window of DTLS (section 4.1.2.6 of RFC 6347): a bitmap of sixty-four bits
    that slides along the greatest number received, and the set that it stands for. */
module DtlsWindow {
  import opened Bits
  import opened ByteString

  const WINDOW: nat := 64

  // ------------------------------------------------------------- bits of the map

  predicate MapBitAt(map64: bv64, k: bv6) {
    (map64 >> k) & 1 == 1
  }

  predicate MapBit(map64: bv64, k: nat)
    requires k < WINDOW
  {
    MapBitAt(map64, k as bv6)
  }

  function Shifted(map64: bv64, shift: nat): bv64
    requires shift < WINDOW
  {
    ShiftedBy(map64, shift as bv6)
  }

  function ShiftedBy(map64: bv64, shift: bv6): bv64 {
    map64 << shift
  }

  function WithBit(map64: bv64, k: nat): bv64
    requires k < WINDOW
  {
    map64 | (1 << (k as bv6))
  }

  /** Two bit numbers whose sum is one. */
  predicate Together(x: bv6, y: bv6) {
    x <= 63 - y
  }

  /** Shifting by 0 to 3, and by a multiple of four. */
  lemma ShiftedLow(map64: bv64, shift: bv6, d: bv6)
    requires shift & 60 == 0 && Together(shift, d)
    ensures MapBitAt(map64, d) <==> MapBitAt(ShiftedBy(map64, shift), shift + d)
  {
  }

  lemma ShiftedHigh(map64: bv64, shift: bv6, d: bv6)
    requires shift & 3 == 0 && Together(shift, d)
    ensures MapBitAt(map64, d) <==> MapBitAt(ShiftedBy(map64, shift), shift + d)
  {
  }

  lemma ShiftedInTurn(map64: bv64, shift: bv6, low: bv6, high: bv6)
    requires low == shift & 3 && high == shift & 60
    ensures ShiftedBy(map64, shift) == ShiftedBy(ShiftedBy(map64, low), high)
  {
  }

  lemma ShiftParts(shift: bv6, d: bv6) returns (low: bv6, high: bv6, middle: bv6)
    requires Together(shift, d)
    ensures low == shift & 3 && high == shift & 60 && middle == low + d
    ensures low & 60 == 0 && high & 3 == 0
    ensures Together(low, d) && Together(high, middle) && high + middle == shift + d
  {
    low, high, middle := shift & 3, shift & 60, (shift & 3) + d;
  }

  lemma {:induction false} ShiftedUp(map64: bv64, shift: bv6, d: bv6)
    requires Together(shift, d)
    ensures MapBitAt(map64, d) <==> MapBitAt(ShiftedBy(map64, shift), shift + d)
  {
    hide MapBitAt, ShiftedBy, Together;
    var low, high, middle := ShiftParts(shift, d);
    ShiftedInTurn(map64, shift, low, high);
    ShiftedLow(map64, low, d);
    ShiftedHigh(ShiftedBy(map64, low), high, middle);
  }

  lemma ShiftedIn(map64: bv64, shift: bv6, k: bv6)
    requires k < shift
    ensures !MapBitAt(ShiftedBy(map64, shift), k)
  {
  }

  lemma Sum(x: bv6, y: bv6)
    requires x as int + y as int < 64
    ensures (x + y) as int == (x as int) + (y as int)
    ensures Together(x, y)
  {
  }

  lemma SumOf(a: nat, b: nat)
    requires a + b < WINDOW
    ensures (a as bv6) + (b as bv6) == (a + b) as bv6
    ensures Together(a as bv6, b as bv6)
  {
    hide Together;
    IndexFits(a);
    IndexFits(b);
    Sum(a as bv6, b as bv6);
    BackAgain((a as bv6) + (b as bv6));
  }

  lemma ShiftedBit(map64: bv64, shift: nat, k: nat)
    requires shift < WINDOW && k < WINDOW
    ensures MapBit(Shifted(map64, shift), k) <==> shift <= k && MapBit(map64, k - shift)
  {
    hide MapBitAt, ShiftedBy, Together;
    if k < shift {
      IndexFits(shift);
      IndexFits(k);
      Ordered(k as bv6, shift as bv6);
      ShiftedIn(map64, shift as bv6, k as bv6);
    } else {
      SumOf(shift, k - shift);
      ShiftedUp(map64, shift as bv6, (k - shift) as bv6);
    }
  }

  lemma WithBitAt(map64: bv64, i: bv6, k: bv6)
    ensures MapBitAt(map64 | (1 << i), k) <==> MapBitAt(map64, k) || k == i
  {
  }

  lemma WithBitIs(map64: bv64, i: nat, k: nat)
    requires i < WINDOW && k < WINDOW
    ensures MapBit(WithBit(map64, i), k) <==> MapBit(map64, k) || k == i
  {
    hide MapBitAt;
    WithBitAt(map64, i as bv6, k as bv6);
    IndexFits(i);
    IndexFits(k);
  }

  lemma EmptyMap(k: nat)
    requires k < WINDOW
    ensures !MapBit(0, k)
  {
    hide MapBitAt;
    EmptyMapAt(k as bv6);
  }

  lemma EmptyMapAt(k: bv6)
    ensures !MapBitAt(0, k)
  {
  }

  // ------------------------------------------------------------------ the window

  /** `DTLS1_BITMAP`. */
  datatype Window = Window(bits: bv64, max: nat)

  const EMPTY_WINDOW := Window(0, 0)

  /** `dtls1_bitmap_should_discard`. */
  predicate ShouldDiscard(w: Window, s: nat) {
    if s > w.max then false
    else w.max - s >= WINDOW || MapBit(w.bits, w.max - s)
  }

  /** `dtls1_bitmap_record`. */
  function Record(w: Window, s: nat): Window {
    var moved :=
      if s > w.max then Window(if s - w.max >= WINDOW then 0 else Shifted(w.bits, s - w.max), s) else w;
    if moved.max - s < WINDOW then moved.(bits := WithBit(moved.bits, moved.max - s)) else moved
  }

  /** The window shows exactly which of the last sixty-four numbers are in the set. */
  ghost predicate Exact(w: Window, seen: set<nat>) {
    && (forall s :: s in seen ==> s <= w.max)
    && (forall k: nat :: k < WINDOW && k <= w.max ==> (MapBit(w.bits, k) <==> w.max - k in seen))
  }

  lemma EmptyIsExact()
    ensures Exact(EMPTY_WINDOW, {})
  {
    EmptyMap(0);
    hide MapBit;
  }

  /** Recording a number adds it to the set, whether the window slides or not. */
  lemma RecordIsExact(w: Window, seen: set<nat>, s: nat)
    requires Exact(w, seen)
    ensures Exact(Record(w, s), seen + {s})
    ensures Record(w, s).max == if s > w.max then s else w.max
  {
    hide MapBit, Shifted, WithBit;
    var w' := Record(w, s);
    forall k: nat | k < WINDOW && k <= w'.max
      ensures MapBit(w'.bits, k) <==> w'.max - k in seen + {s}
    {
      if s > w.max {
        var shift := s - w.max;
        var bits := if shift >= WINDOW then 0 else Shifted(w.bits, shift);
        WithBitIs(bits, 0, k);
        if shift >= WINDOW {
          EmptyMap(k);
        } else {
          ShiftedBit(w.bits, shift, k);
        }
      } else if w.max - s < WINDOW {
        WithBitIs(w.bits, w.max - s, k);
      }
    }
  }

  /** The test refines the set: a number is discarded if and only if it was recorded or is
      sixty-four or more behind the greatest one. */
  lemma DiscardIff(w: Window, seen: set<nat>, s: nat)
    requires Exact(w, seen)
    ensures ShouldDiscard(w, s) <==> s in seen || s + WINDOW <= w.max
  {
    hide MapBit;
    if s <= w.max && w.max - s < WINDOW {
      assert MapBit(w.bits, w.max - s) <==> w.max - (w.max - s) in seen;
    }
  }

  // ------------------------------------------------- any sequence of recordings

  function RecordAll(ss: seq<nat>): Window {
    if ss == [] then EMPTY_WINDOW else Record(RecordAll(ss[..|ss| - 1]), ss[|ss| - 1])
  }

  function Greatest(ss: seq<nat>): nat {
    if ss == [] then 0
    else
      var g, s := Greatest(ss[..|ss| - 1]), ss[|ss| - 1];
      if s > g then s else g
  }

  function Elements(ss: seq<nat>): set<nat> {
    set s | s in ss
  }

  lemma {:induction false} RecordAllIsExact(ss: seq<nat>)
    ensures Exact(RecordAll(ss), Elements(ss)) && RecordAll(ss).max == Greatest(ss)
  {
    hide Exact, Record;
    if ss == [] {
      EmptyIsExact();
      assert Elements(ss) == {};
    } else {
      var front, s := ss[..|ss| - 1], ss[|ss| - 1];
      RecordAllIsExact(front);
      RecordIsExact(RecordAll(front), Elements(front), s);
      assert ss == front + [s];
      assert Elements(ss) == Elements(front) + {s};
    }
  }

  /** After any numbers in any order, with repetitions. */
  lemma WindowRefinesSet(ss: seq<nat>, s: nat)
    ensures ShouldDiscard(RecordAll(ss), s) <==> s in ss || s + WINDOW <= Greatest(ss)
  {
    RecordAllIsExact(ss);
    DiscardIff(RecordAll(ss), Elements(ss), s);
  }
}
