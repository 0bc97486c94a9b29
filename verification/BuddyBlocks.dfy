/** The geometry of the buddy system: aligned power-of-two blocks that tile the usable
    frame ranges. Nothing here mentions lists or nodes. */
module BuddyBlocks {
  import opened Prelude

  /** A run of `Pow2(order)` frames. */
  datatype Block = Block(start: nat, order: nat) {
    function End(): nat {
      start + Pow2(order)
    }
  }

  /** A usable range of physical frames. */
  datatype Range = Range(start: nat, len: nat) {
    function End(): nat {
      start + len
    }
  }

  /** The low `order` bits of `start` are zero. */
  predicate Aligned(start: nat, order: nat) {
    order == 0 || (start % 2 == 0 && Aligned(start / 2, order - 1))
  }

  /** `block ^ block_size(order)`: flips bit `order` of `start`. */
  function Buddy(start: nat, order: nat): nat {
    if order == 0 then
      if start % 2 == 0 then start + 1 else start - 1
    else
      2 * Buddy(start / 2, order - 1) + start % 2
  }

  /** Flipping a bit twice restores the number, and flipping it once never does. */
  lemma {:induction false} BuddyInvolutive(start: nat, order: nat)
    ensures Buddy(Buddy(start, order), order) == start != Buddy(start, order)
  {
    if order > 0 {
      BuddyInvolutive(start / 2, order - 1);
      assert Buddy(start, order) / 2 == Buddy(start / 2, order - 1);
    }
  }

  /** The bit test is divisibility by the block size. */
  lemma {:induction false} AlignedIsMultiple(start: nat, order: nat)
    ensures Aligned(start, order) <==> exists q: nat :: start == q * Pow2(order)
  {
    if order == 0 {
      assert start == start * Pow2(0);
    } else {
      var s := Pow2(order - 1);
      AlignedIsMultiple(start / 2, order - 1);
      if Aligned(start, order) {
        var q: nat :| start / 2 == q * s;
        assert start == q * Pow2(order);
      }
      if exists q: nat :: start == q * Pow2(order) {
        var q: nat :| start == q * Pow2(order);
        assert start == 2 * (q * s);
        assert start / 2 == q * s;
      }
    }
  }

  /** The two halves of an aligned block are aligned, and each is the other's buddy. */
  lemma {:induction false} HalvesAreBuddies(start: nat, order: nat)
    requires Aligned(start, order + 1)
    ensures Aligned(start, order) && Aligned(start + Pow2(order), order)
    ensures Buddy(start, order) == start + Pow2(order)
    ensures Buddy(start + Pow2(order), order) == start
  {
    if order > 0 {
      HalvesAreBuddies(start / 2, order - 1);
      assert (start + Pow2(order)) / 2 == start / 2 + Pow2(order - 1);
    }
  }

  /** The lower of an aligned block and its buddy starts the aligned block one order up. */
  lemma {:induction false} BuddiesJoin(start: nat, order: nat, low: nat)
    requires Aligned(start, order)
    requires low == Min(start, Buddy(start, order))
    ensures Aligned(low, order + 1)
    ensures (start == low && Buddy(start, order) == low + Pow2(order))
         || (start == low + Pow2(order) && Buddy(start, order) == low)
  {
    if order > 0 {
      BuddiesJoin(start / 2, order - 1, low / 2);
    }
    HalvesAreBuddies(low, order);
  }

  // ---------------------------------------------------------------- usable ranges

  /** Sorted, non-empty ranges, no two of which touch. */
  predicate Separated(ranges: seq<Range>) {
    && (forall i :: 0 <= i < |ranges| ==> ranges[i].len > 0)
    && (forall i, j {:trigger GapBetween(ranges, i, j)} :: 0 <= i < j < |ranges| ==> GapBetween(ranges, i, j))
  }

  predicate GapBetween(ranges: seq<Range>, i: int, j: int) {
    0 <= i < |ranges| && 0 <= j < |ranges| && ranges[i].End() < ranges[j].start
  }

  predicate Fits(ranges: seq<Range>, start: nat, end: nat) {
    exists i :: 0 <= i < |ranges| && ranges[i].start <= start && end <= ranges[i].End()
  }

  function FramesUpTo(ranges: seq<Range>, n: nat): nat
    requires n <= |ranges|
  {
    if n == 0 then 0 else FramesUpTo(ranges, n - 1) + ranges[n - 1].len
  }

  function TotalFrames(ranges: seq<Range>): nat {
    FramesUpTo(ranges, |ranges|)
  }

  /** Because ranges never touch, two adjacent blocks that each fit lie in the same range, so
      their union fits as well. */
  lemma AdjacentBlocksShareRange(ranges: seq<Range>, a: nat, b: nat, c: nat)
    requires Separated(ranges)
    requires a < b < c
    requires Fits(ranges, a, b) && Fits(ranges, b, c)
    ensures Fits(ranges, a, c)
  {
    var i :| 0 <= i < |ranges| && ranges[i].start <= a && b <= ranges[i].End();
    var j :| 0 <= j < |ranges| && ranges[j].start <= b && c <= ranges[j].End();
    assert (i < j ==> GapBetween(ranges, i, j)) && (j < i ==> GapBetween(ranges, j, i));
  }

  // ---------------------------------------------------------------- tilings

  /** Which block, if any, each metadata node describes. */
  type Tiles = seq<Option<Block>>

  predicate Disjoint(a: Block, b: Block) {
    a.End() <= b.start || b.End() <= a.start
  }

  predicate WellPlaced(b: Block, ranges: seq<Range>, maxOrder: nat) {
    b.order <= maxOrder && Aligned(b.start, b.order) && Fits(ranges, b.start, b.End())
  }

  predicate Placed(t: Tiles, n: int, ranges: seq<Range>, maxOrder: nat) {
    0 <= n < |t| && (t[n].Some? ==> WellPlaced(t[n].value, ranges, maxOrder))
  }

  predicate Apart(t: Tiles, n: int, m: int) {
    && 0 <= n < |t| && 0 <= m < |t|
    && (n != m && t[n].Some? && t[m].Some? ==> Disjoint(t[n].value, t[m].value))
  }

  /** Aligned blocks inside the usable ranges, no two of which overlap. */
  predicate Tiling(t: Tiles, ranges: seq<Range>, maxOrder: nat) {
    && (forall n {:trigger Placed(t, n, ranges, maxOrder)} :: 0 <= n < |t| ==> Placed(t, n, ranges, maxOrder))
    && (forall n, m {:trigger Apart(t, n, m)} :: 0 <= n < |t| && 0 <= m < |t| ==> Apart(t, n, m))
  }

  function TilePages(t: Option<Block>): nat {
    if t.Some? then Pow2(t.value.order) else 0
  }

  function PagesUpTo(t: Tiles, n: nat): nat
    requires n <= |t|
  {
    if n == 0 then 0 else PagesUpTo(t, n - 1) + TilePages(t[n - 1])
  }

  function Pages(t: Tiles): nat {
    PagesUpTo(t, |t|)
  }

  lemma {:induction false} PagesUpdate(t: Tiles, n: nat, v: Option<Block>, k: nat)
    requires n < |t| && k <= |t|
    ensures PagesUpTo(t[n := v], k)
         == PagesUpTo(t, k) + if n < k then TilePages(v) - TilePages(t[n]) else 0
  {
    if k > 0 {
      PagesUpdate(t, n, v, k - 1);
    }
  }

  /** Splitting the block of node `n` and giving the upper half to the free node `m`. */
  function SplitTile(t: Tiles, n: nat, m: nat): Tiles
    requires n < |t| && m < |t|
    requires t[n].Some? && t[n].value.order > 0
  {
    var b := t[n].value;
    t[n := Some(Block(b.start, b.order - 1))][m := Some(Block(b.start + Pow2(b.order - 1), b.order - 1))]
  }

  /** Joining the buddies of nodes `n` and `m` into `n`, leaving `m` without a block. */
  function JoinTile(t: Tiles, n: nat, m: nat): Tiles
    requires n < |t| && m < |t|
    requires t[n].Some? && t[m].Some?
  {
    var b := t[n].value;
    t[n := Some(Block(Min(b.start, t[m].value.start), b.order + 1))][m := None]
  }

  /** Two tiles may be replaced by well-placed disjoint ones that stay clear of all others. */
  lemma ReplaceTiles(t: Tiles, n: nat, x: Option<Block>, m: nat, y: Option<Block>,
                     ranges: seq<Range>, maxOrder: nat)
    requires Tiling(t, ranges, maxOrder)
    requires n < |t| && m < |t| && n != m
    requires x.Some? ==> WellPlaced(x.value, ranges, maxOrder)
    requires y.Some? ==> WellPlaced(y.value, ranges, maxOrder)
    requires x.Some? && y.Some? ==> Disjoint(x.value, y.value)
    requires forall o :: 0 <= o < |t| && o != n && o != m && t[o].Some? ==>
               && (x.Some? ==> Disjoint(t[o].value, x.value))
               && (y.Some? ==> Disjoint(t[o].value, y.value))
    ensures Tiling(t[n := x][m := y], ranges, maxOrder)
    ensures Pages(t[n := x][m := y])
         == Pages(t) - TilePages(t[n]) - TilePages(t[m]) + TilePages(x) + TilePages(y)
  {
    PagesUpdate(t, n, x, |t|);
    PagesUpdate(t[n := x], m, y, |t|);
    var u := t[n := x][m := y];
    forall i | 0 <= i < |u|
      ensures Placed(u, i, ranges, maxOrder)
    {
      assert Placed(t, i, ranges, maxOrder);
    }
    forall i, j | 0 <= i < |u| && 0 <= j < |u|
      ensures Apart(u, i, j)
    {
      assert Apart(t, i, j);
    }
  }

  lemma SplitKeepsTiling(t: Tiles, n: nat, m: nat, ranges: seq<Range>, maxOrder: nat)
    requires Tiling(t, ranges, maxOrder)
    requires n < |t| && m < |t| && n != m
    requires t[n].Some? && t[n].value.order > 0 && t[m].None?
    ensures Tiling(SplitTile(t, n, m), ranges, maxOrder)
    ensures Pages(SplitTile(t, n, m)) == Pages(t)
  {
    var b := t[n].value;
    var k := b.order - 1;
    var low, high := Block(b.start, k), Block(b.start + Pow2(k), k);
    assert Placed(t, n, ranges, maxOrder);
    HalvesFit(b, ranges, maxOrder);
    forall o | 0 <= o < |t| && o != n && o != m && t[o].Some?
      ensures Disjoint(t[o].value, low) && Disjoint(t[o].value, high)
    {
      assert Apart(t, o, n);
    }
    assert SplitTile(t, n, m) == t[n := Some(low)][m := Some(high)];
    ReplaceTiles(t, n, Some(low), m, Some(high), ranges, maxOrder);
  }

  lemma HalvesFit(b: Block, ranges: seq<Range>, maxOrder: nat)
    requires b.order > 0 && WellPlaced(b, ranges, maxOrder)
    ensures WellPlaced(Block(b.start, b.order - 1), ranges, maxOrder)
    ensures WellPlaced(Block(b.start + Pow2(b.order - 1), b.order - 1), ranges, maxOrder)
  {
    HalvesAreBuddies(b.start, b.order - 1);
  }

  lemma JoinKeepsTiling(t: Tiles, n: nat, m: nat, ranges: seq<Range>, maxOrder: nat)
    requires Separated(ranges)
    requires Tiling(t, ranges, maxOrder)
    requires n < |t| && m < |t| && n != m
    requires t[n].Some? && t[m].Some? && t[n].value.order == t[m].value.order < maxOrder
    requires t[m].value.start == Buddy(t[n].value.start, t[n].value.order)
    ensures Tiling(JoinTile(t, n, m), ranges, maxOrder)
    ensures Pages(JoinTile(t, n, m)) == Pages(t)
  {
    var a, b := t[n].value, t[m].value;
    var joined := Block(Min(a.start, b.start), a.order + 1);
    assert Placed(t, n, ranges, maxOrder) && Placed(t, m, ranges, maxOrder);
    BuddiesFit(a, b, ranges, maxOrder);
    forall o | 0 <= o < |t| && o != n && o != m && t[o].Some?
      ensures Disjoint(t[o].value, joined)
    {
      assert Apart(t, o, n) && Apart(t, o, m);
      ClearOfBoth(t[o].value, a, b, joined);
    }
    assert JoinTile(t, n, m) == t[n := Some(joined)][m := None];
    ReplaceTiles(t, n, Some(joined), m, None, ranges, maxOrder);
  }

  lemma BuddiesFit(a: Block, b: Block, ranges: seq<Range>, maxOrder: nat)
    requires Separated(ranges)
    requires a.order == b.order < maxOrder && b.start == Buddy(a.start, a.order)
    requires WellPlaced(a, ranges, maxOrder) && WellPlaced(b, ranges, maxOrder)
    ensures WellPlaced(Block(Min(a.start, b.start), a.order + 1), ranges, maxOrder)
    ensures a.End() == b.start || b.End() == a.start
  {
    var low := Min(a.start, b.start);
    BuddiesJoin(a.start, a.order, low);
    AdjacentBlocksShareRange(ranges, low, low + Pow2(a.order), low + 2 * Pow2(a.order));
  }

  lemma ClearOfBoth(o: Block, a: Block, b: Block, joined: Block)
    requires Disjoint(o, a) && Disjoint(o, b)
    requires a.order == b.order && (a.End() == b.start || b.End() == a.start)
    requires joined == Block(Min(a.start, b.start), a.order + 1)
    ensures Disjoint(o, joined)
  {
    assert joined.End() == joined.start + Pow2(a.order) + Pow2(b.order);
    assert Pow2(o.order) > 0;
  }
}
