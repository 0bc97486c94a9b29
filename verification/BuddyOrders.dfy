/** The order arithmetic of the buddy allocator. */
module BuddyOrders {
  import opened Prelude
  import opened BuddyBlocks

  const USIZE_BITS: nat := 64

  /** Every representable `usize`. */
  predicate Usize(v: nat) {
    v <= U64_MAX
  }

  lemma UsizeRange()
    ensures Pow2(USIZE_BITS) == 0x1_0000_0000_0000_0000
  {
    assert Pow2(4) == 16;
    Pow2Sum(4, 4);
    Pow2Sum(8, 8);
    Pow2Sum(16, 16);
    Pow2Sum(32, 32);
  }

  lemma {:induction false} Pow2Sum(a: nat, b: nat)
    ensures Pow2(a + b) == Pow2(a) * Pow2(b)
  {
    if b > 0 {
      Pow2Sum(a, b - 1);
      assert Pow2(a) * Pow2(b) == 2 * (Pow2(a) * Pow2(b - 1));
    }
  }

  /** The number of bits needed to write `v`. */
  function BitLength(v: nat): nat {
    if v == 0 then 0 else 1 + BitLength(v / 2)
  }

  function LeadingZeros(v: nat): nat
    requires Usize(v)
  {
    UsizeRange();
    BitLengthBounds(v, USIZE_BITS);
    USIZE_BITS - BitLength(v)
  }

  lemma {:induction false} BitLengthBounds(v: nat, bits: nat)
    ensures v < Pow2(bits) <==> BitLength(v) <= bits
    ensures v > 0 ==> BitLength(v) >= 1 && Pow2(BitLength(v) - 1) <= v < Pow2(BitLength(v))
  {
    if v > 0 {
      BitLengthBounds(v / 2, if bits > 0 then bits - 1 else 0);
      if v / 2 > 0 {
        assert Pow2(BitLength(v) - 1) == 2 * Pow2(BitLength(v / 2) - 1);
      }
    }
  }

  function CeilLog2(v: nat): nat
    requires Usize(v)
  {
    if v <= 1 then 0 else USIZE_BITS - LeadingZeros(v - 1)
  }

  function FloorLog2(v: nat): nat
    requires v > 0 && Usize(v)
  {
    UsizeRange();
    BitLengthBounds(v, USIZE_BITS);
    USIZE_BITS - 1 - LeadingZeros(v)
  }

  /** `ceil_log2` is the smallest order whose block holds `v` frames. */
  lemma CeilLog2IsLeast(v: nat, k: nat)
    requires Usize(v)
    ensures v <= Pow2(CeilLog2(v))
    ensures v <= Pow2(k) <==> CeilLog2(v) <= k
  {
    if v > 1 {
      UsizeRange();
      BitLengthBounds(v - 1, k);
      BitLengthBounds(v - 1, USIZE_BITS);
      assert v - 1 < Pow2(BitLength(v - 1));
    } else {
      assert Pow2(k) >= 1;
    }
  }

  /** `floor_log2` is the largest order whose block fits into `v` frames. */
  lemma FloorLog2IsGreatest(v: nat, k: nat)
    requires v > 0 && Usize(v)
    ensures Pow2(FloorLog2(v)) <= v < 2 * Pow2(FloorLog2(v))
    ensures Pow2(k) <= v <==> k <= FloorLog2(v)
    ensures FloorLog2(v) < USIZE_BITS
  {
    UsizeRange();
    BitLengthBounds(v, USIZE_BITS);
    BitLengthBounds(v, k);
    assert Pow2(BitLength(v)) == 2 * Pow2(BitLength(v) - 1);
  }

  /** `max_fit_order`: the largest order, capped, at which a block fits and is aligned. */
  method MaxFitOrder(start: nat, remaining: nat, maxOrder: nat) returns (order: nat)
    requires remaining > 0 && Usize(remaining)
    ensures order <= maxOrder && Pow2(order) <= remaining && Aligned(start, order)
    ensures forall k :: order < k <= maxOrder && Pow2(k) <= remaining ==> !Aligned(start, k)
  {
    order := Min(FloorLog2(remaining), maxOrder);
    ghost var top := order;
    FloorLog2IsGreatest(remaining, top);
    forall k | top < k <= maxOrder
      ensures Pow2(k) > remaining
    {
      FloorLog2IsGreatest(remaining, k);
    }
    while order > 0 && !Aligned(start, order)
      invariant order <= top
      invariant forall k :: order < k <= top ==> !Aligned(start, k)
    {
      order := order - 1;
    }
    Pow2Monotone(order, top);
  }

  /** The largest order up to `k` at which a block at `start` is aligned and fits into `remaining` frames. */
  function LargestFit(start: nat, remaining: nat, k: nat): (order: nat)
    requires remaining > 0
    ensures order <= k && Pow2(order) <= remaining
  {
    if k == 0 || (Pow2(k) <= remaining && Aligned(start, k)) then k else LargestFit(start, remaining, k - 1)
  }

  lemma {:induction false} LargestFitIs(start: nat, remaining: nat, k: nat, order: nat)
    requires remaining > 0 && order <= k && Pow2(order) <= remaining && Aligned(start, order)
    requires forall j :: order < j <= k && Pow2(j) <= remaining ==> !Aligned(start, j)
    ensures LargestFit(start, remaining, k) == order
  {
    if order < k {
      LargestFitIs(start, remaining, k - 1, order);
    }
  }

  /** Into how many blocks greedy cutting divides `len` frames at `start`. */
  function Cuts(start: nat, len: nat, maxOrder: nat): nat
    decreases len
  {
    if len == 0 then 0
    else
      var size := Pow2(LargestFit(start, len, maxOrder));
      1 + Cuts(start + size, len - size, maxOrder)
  }

  /** Into how many blocks the first `n` ranges are cut. */
  function CutsUpTo(ranges: seq<Range>, n: nat, maxOrder: nat): nat
    requires n <= |ranges|
  {
    if n == 0 then 0 else CutsUpTo(ranges, n - 1, maxOrder) + Cuts(ranges[n - 1].start, ranges[n - 1].len, maxOrder)
  }

  lemma {:induction false} CutsGrow(ranges: seq<Range>, m: nat, n: nat, maxOrder: nat)
    requires m <= n <= |ranges|
    ensures CutsUpTo(ranges, m, maxOrder) <= CutsUpTo(ranges, n, maxOrder)
    decreases n
  {
    if m < n {
      CutsGrow(ranges, m, n - 1, maxOrder);
    }
  }
}
