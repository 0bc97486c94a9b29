/** Seeding the free lists at boot: why greedy cutting leaves no two buddies. */
module BuddySeed {
  import opened Prelude
  import opened BuddyBlocks
  import opened BuddyLists
  import opened BuddyState

  /** The block is as large as it can be: its double would leave the usable range. */
  predicate CutLarge(b: Block, ranges: seq<Range>, maxOrder: nat) {
    b.order < maxOrder && Aligned(b.start, b.order + 1) ==> !Fits(ranges, b.start, b.start + Pow2(b.order + 1))
  }

  predicate SeededTile(t: Tiles, n: int, pos: nat, g: Geometry) {
    0 <= n < |t| && (t[n].Some? ==> t[n].value.End() <= pos && CutLarge(t[n].value, g.ranges, g.maxOrder))
  }

  predicate SeedsBelow(t: Tiles, pos: nat, g: Geometry) {
    forall n {:trigger SeededTile(t, n, pos, g)} :: 0 <= n < |t| ==> SeededTile(t, n, pos, g)
  }

  /** The state between two cuts: everything seeded so far lies below `pos`. */
  ghost predicate Seeding(p: Pool, g: Geometry, pos: nat, frames: nat) {
    && GeometryOk(g) && Chained(p) && ListsOk(p, g) && NodesOk(p, g)
    && Tiling(TilesOf(p), g.ranges, g.maxOrder) && Pages(TilesOf(p)) == frames
    && SeedsBelow(TilesOf(p), pos, g)
  }

  /** The next block may join the free list: neither it nor its buddy is there. */
  lemma SeedRoom(p: Pool, g: Geometry, pos: nat, frames: nat, b: Block)
    requires Seeding(p, g, pos, frames) && pos <= b.start && WellPlaced(b, g.ranges, g.maxOrder)
    ensures Global(b.order) in p.lists && b.start !in Starts(p, Global(b.order))
    ensures b.order < g.maxOrder ==> Buddy(b.start, b.order) !in Starts(p, Global(b.order))
  {
    assert Listed(g, Global(b.order));
    var s := p.lists[Global(b.order)];
    assert Chain(p.nodes, p.owner, Global(b.order), s);
    forall i | 0 <= i < |s|
      ensures Starts(p, Global(b.order))[i] != b.start
      ensures b.order < g.maxOrder ==> Starts(p, Global(b.order))[i] != Buddy(b.start, b.order)
    {
      var t := TilesOf(p);
      assert SeededTile(t, s[i], pos, g) && Placed(t, s[i], g.ranges, g.maxOrder);
      assert NodeFits(g, p.owner[s[i]], p.nodes[s[i]]);
      assert t[s[i]] == Some(Block(p.nodes[s[i]].start, b.order));
      if b.order < g.maxOrder && t[s[i]].value.start == Buddy(b.start, b.order) {
        SeedNoPair(t[s[i]].value, b, g);
      }
    }
  }

  lemma SeedNoPair(a: Block, b: Block, g: Geometry)
    requires Separated(g.ranges) && a.order == b.order < g.maxOrder
    requires WellPlaced(a, g.ranges, g.maxOrder) && WellPlaced(b, g.ranges, g.maxOrder)
    requires a.End() <= b.start && CutLarge(a, g.ranges, g.maxOrder)
    ensures a.start != Buddy(b.start, b.order)
  {
    if a.start == Buddy(b.start, b.order) {
      BuddiesJoin(b.start, b.order, a.start);
      AdjacentBlocksShareRange(g.ranges, a.start, b.start, b.End());
    }
  }

  /** One cut: `m` now stands for `b`, listed at position `i`. */
  lemma SeedKeeps(p: Pool, q: Pool, f: Pool, m: nat, b: Block, i: nat, g: Geometry, pos: nat, frames: nat,
                  end: nat, frames': nat)
    requires end == b.End() && frames' == frames + Pow2(b.order)
    requires Seeding(p, g, pos, frames) && pos <= b.start
    requires WellPlaced(b, g.ranges, g.maxOrder) && CutLarge(b, g.ranges, g.maxOrder)
    requires Spawned(p, q, m, b.start, b.order) && Chained(q) && ListsOk(q, g) && NodesOk(q, g)
    requires Global(b.order) in p.lists && Global(b.order) in q.lists
    requires Starts(q, Global(b.order)) == Starts(p, Global(b.order))
    requires Admits(Starts(q, Global(b.order)), i, b.start, b.order, g.maxOrder)
    requires f == Insert(q, Global(b.order), i, m)
    ensures Seeding(f, g, end, frames')
  {
    InsertKeepsLists(q, Global(b.order), i, m, g);
    InsertKeepsNodes(q, Global(b.order), i, m, g);
    RelinkKeepsTiles(q, Global(b.order), i, m);
    SeedTiles(TilesOf(p), m, b, g, pos);
    forall n | 0 <= n < |f.nodes|
      ensures SeededTile(TilesOf(f), n, end, g)
    {
      assert SeededTile(TilesOf(p), n, pos, g);
    }
  }

  lemma SeedTiles(t: Tiles, m: nat, b: Block, g: Geometry, pos: nat)
    requires m < |t| && t[m].None? && Tiling(t, g.ranges, g.maxOrder) && pos <= b.start
    requires WellPlaced(b, g.ranges, g.maxOrder)
    requires SeedsBelow(t, pos, g)
    ensures Tiling(t[m := Some(b)], g.ranges, g.maxOrder)
    ensures Pages(t[m := Some(b)]) == Pages(t) + Pow2(b.order)
  {
    PagesUpdate(t, m, Some(b), |t|);
    var u := t[m := Some(b)];
    forall n | 0 <= n < |u|
      ensures Placed(u, n, g.ranges, g.maxOrder)
    {
      assert Placed(t, n, g.ranges, g.maxOrder);
    }
    forall n, o | 0 <= n < |u| && 0 <= o < |u|
      ensures Apart(u, n, o)
    {
      assert Apart(t, n, o) && SeededTile(t, n, pos, g) && SeededTile(t, o, pos, g);
    }
  }

  /** Greedy choice: the largest aligned fitting block of what remains of range `r` is cut large. */
  lemma GreedyIsLarge(g: Geometry, r: nat, start: nat, remaining: nat, order: nat)
    requires Separated(g.ranges) && r < |g.ranges|
    requires g.ranges[r].start <= start && start + remaining == g.ranges[r].End() && remaining > 0
    requires order <= g.maxOrder && Pow2(order) <= remaining && Aligned(start, order)
    requires order < g.maxOrder && Pow2(order + 1) <= remaining ==> !Aligned(start, order + 1)
    ensures WellPlaced(Block(start, order), g.ranges, g.maxOrder)
    ensures CutLarge(Block(start, order), g.ranges, g.maxOrder)
  {
    var block := Block(start, order);
    assert g.ranges[r].start <= block.start && block.End() <= g.ranges[r].End();
    forall j | 0 <= j < |g.ranges| && g.ranges[j].start <= start && start + Pow2(order + 1) <= g.ranges[j].End()
      ensures j == r
    {
      assert (r < j ==> GapBetween(g.ranges, r, j)) && (j < r ==> GapBetween(g.ranges, j, r));
    }
  }
}
