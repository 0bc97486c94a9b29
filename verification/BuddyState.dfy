/** The invariant of the buddy allocator and the block-level steps that keep it. */
module BuddyState {
  import opened Prelude
  import opened BuddyBlocks
  import opened BuddyLists

  const MAX_ORDER_SLOTS: nat := 64
  const PER_CPU_CACHE_MAX_ORDER: nat := 4
  const U32_MAX: nat := 0xFFFF_FFFF

  /** What stays fixed after boot. */
  datatype Geometry = Geometry(ranges: seq<Range>, maxOrder: nat, cpuCount: nat, cpuSlots: nat)

  predicate Listed(g: Geometry, id: ListId) {
    match id
    case Unused => true
    case Allocated => true
    case Global(k) => k < MAX_ORDER_SLOTS
    case Cpu(c, k) => c < g.cpuSlots && k <= PER_CPU_CACHE_MAX_ORDER
    case Held => false
  }

  /** What a node's list says about its reference count and order. */
  predicate NodeFits(g: Geometry, id: ListId, node: BlockNode) {
    match id
    case Unused => true
    case Allocated => 1 <= node.refcount <= U32_MAX
    case Global(k) => node.refcount == 0 && node.order == k
    case Cpu(c, k) => node.refcount == 0 && node.order == k && c < g.cpuCount
    case Held => node.refcount == 0
  }

  predicate InRange(s: seq<nat>, limit: nat) {
    forall i :: 0 <= i < |s| ==> s[i] < limit
  }

  /** The block starts along a list. */
  function StartsOf(nodes: seq<BlockNode>, s: seq<nat>): (r: seq<nat>)
    requires InRange(s, |nodes|)
    ensures |r| == |s| && forall i :: 0 <= i < |r| ==> r[i] == nodes[s[i]].start
  {
    seq(|s|, i requires 0 <= i < |s| => nodes[s[i]].start)
  }

  function Starts(p: Pool, id: ListId): seq<nat>
    requires Chained(p) && id in p.lists
  {
    assert Chain(p.nodes, p.owner, id, p.lists[id]);
    StartsOf(p.nodes, p.lists[id])
  }

  predicate Before(s: seq<nat>, i: int, j: int) {
    0 <= i < |s| && 0 <= j < |s| && s[i] < s[j]
  }

  predicate Ascending(s: seq<nat>) {
    forall i, j {:trigger Before(s, i, j)} :: 0 <= i < j < |s| ==> Before(s, i, j)
  }

  predicate Unpaired(s: seq<nat>, i: int, order: nat) {
    0 <= i < |s| && Buddy(s[i], order) !in s
  }

  predicate NoBuddies(s: seq<nat>, order: nat) {
    forall i {:trigger Unpaired(s, i, order)} :: 0 <= i < |s| ==> Unpaired(s, i, order)
  }

  /** A global free list is sorted, and below the top order it never holds two buddies. */
  predicate FreeListOk(p: Pool, k: nat, maxOrder: nat)
    requires Chained(p) && Global(k) in p.lists
  {
    && Ascending(Starts(p, Global(k)))
    && (k < maxOrder ==> NoBuddies(Starts(p, Global(k)), k))
  }

  ghost predicate ListsOk(p: Pool, g: Geometry)
    requires Chained(p)
  {
    && (forall id :: id in p.lists <==> Listed(g, id))
    && (forall k :: 0 <= k < MAX_ORDER_SLOTS ==> FreeListOk(p, k, g.maxOrder))
  }

  predicate NodesOk(p: Pool, g: Geometry)
    requires |p.owner| == |p.nodes|
  {
    forall n :: 0 <= n < |p.nodes| ==> NodeFits(g, p.owner[n], p.nodes[n])
  }

  predicate GeometryOk(g: Geometry) {
    && Separated(g.ranges)
    && g.maxOrder < MAX_ORDER_SLOTS
    && 0 < g.cpuCount <= g.cpuSlots
  }

  /** The allocator invariant: every metadata node is on exactly one acyclic list (or held by
      the running operation), the blocks of all nodes in use are aligned, lie inside one usable
      range, are pairwise disjoint and add up to all usable frames, and free blocks are
      maximally coalesced. */
  ghost predicate Inv(p: Pool, g: Geometry) {
    && GeometryOk(g)
    && Chained(p)
    && ListsOk(p, g)
    && NodesOk(p, g)
    && Tiling(TilesOf(p), g.ranges, g.maxOrder)
    && Pages(TilesOf(p)) == TotalFrames(g.ranges)
  }

  // ---------------------------------------------------------------- how list steps act on free lists

  lemma SameStarts(before: seq<BlockNode>, after: seq<BlockNode>, s: seq<nat>)
    requires SameContents(before, after) && InRange(s, |before|)
    ensures StartsOf(after, s) == StartsOf(before, s)
  {
    forall i | 0 <= i < |s|
      ensures StartsOf(after, s)[i] == StartsOf(before, s)[i]
    {
      assert SameContent(before[s[i]], after[s[i]]);
    }
  }

  lemma StartsWithout(nodes: seq<BlockNode>, s: seq<nat>, i: nat)
    requires InRange(s, |nodes|) && i < |s|
    ensures InRange(Without(s, i), |nodes|)
    ensures StartsOf(nodes, Without(s, i)) == Without(StartsOf(nodes, s), i)
  {
    var t := Without(s, i);
    assert forall j :: 0 <= j < |t| ==> t[j] == s[if j < i then j else j + 1];
  }

  lemma StartsWith(nodes: seq<BlockNode>, s: seq<nat>, i: nat, n: nat)
    requires InRange(s, |nodes|) && i <= |s| && n < |nodes|
    ensures InRange(With(s, i, n), |nodes|)
    ensures StartsOf(nodes, With(s, i, n)) == With(StartsOf(nodes, s), i, nodes[n].start)
  {
    var t := With(s, i, n);
    assert forall j :: 0 <= j < |t| ==> t[j] == if j < i then s[j] else if j == i then n else s[j - 1];
  }

  lemma StartsAfterRemove(p: Pool, id: ListId, i: nat, other: ListId)
    requires Chained(p) && id in p.lists && i < |p.lists[id]| && other in p.lists
    ensures Chained(Remove(p, id, i))
    ensures Starts(Remove(p, id, i), other)
         == if other == id then Without(Starts(p, id), i) else Starts(p, other)
  {
    RemoveKeepsChained(p, id, i);
    RemoveOnlyRelinks(p, id, i);
    var q := Remove(p, id, i);
    assert Chain(p.nodes, p.owner, other, p.lists[other]);
    if other == id {
      StartsWithout(p.nodes, p.lists[id], i);
    }
    SameStarts(p.nodes, q.nodes, q.lists[other]);
  }

  lemma StartsAfterInsert(p: Pool, id: ListId, i: nat, n: nat, other: ListId)
    requires Chained(p) && id in p.lists && i <= |p.lists[id]| && other in p.lists
    requires n < |p.nodes| && p.owner[n] == Held
    ensures Chained(Insert(p, id, i, n))
    ensures Starts(Insert(p, id, i, n), other)
         == if other == id then With(Starts(p, id), i, p.nodes[n].start) else Starts(p, other)
  {
    InsertKeepsChained(p, id, i, n);
    InsertOnlyRelinks(p, id, i, n);
    var q := Insert(p, id, i, n);
    assert Chain(p.nodes, p.owner, other, p.lists[other]);
    if other == id {
      StartsWith(p.nodes, p.lists[id], i, n);
    }
    SameStarts(p.nodes, q.nodes, q.lists[other]);
  }

  lemma StartsAfterDescribe(p: Pool, n: nat, start: nat, order: nat, refcount: nat, other: ListId)
    requires Chained(p) && n < |p.nodes| && other in p.lists && p.owner[n] != other
    ensures Chained(Describe(p, n, start, order, refcount))
    ensures Starts(Describe(p, n, start, order, refcount), other) == Starts(p, other)
  {
    DescribeKeepsChained(p, n, start, order, refcount);
    assert Chain(p.nodes, p.owner, other, p.lists[other]);
  }

  lemma RemoveKeepsLists(p: Pool, id: ListId, i: nat, g: Geometry)
    requires Chained(p) && id in p.lists && i < |p.lists[id]| && ListsOk(p, g)
    ensures Chained(Remove(p, id, i)) && ListsOk(Remove(p, id, i), g)
  {
    RemoveKeepsChained(p, id, i);
    var q := Remove(p, id, i);
    forall k | 0 <= k < MAX_ORDER_SLOTS
      ensures FreeListOk(q, k, g.maxOrder)
    {
      assert FreeListOk(p, k, g.maxOrder);
      StartsAfterRemove(p, id, i, Global(k));
      if Global(k) == id {
        RemovedKeepsOrder(Starts(p, id), i, k);
      }
    }
  }

  lemma RemovedKeepsOrder(s: seq<nat>, i: nat, order: nat)
    requires i < |s|
    ensures Ascending(s) ==> Ascending(Without(s, i))
    ensures NoBuddies(s, order) ==> NoBuddies(Without(s, i), order)
  {
    var t := Without(s, i);
    assert forall j :: 0 <= j < |t| ==> t[j] == s[if j < i then j else j + 1];
    if Ascending(s) {
      forall j, k | 0 <= j < k < |t|
        ensures Before(t, j, k)
      {
        assert Before(s, if j < i then j else j + 1, if k < i then k else k + 1);
      }
    }
    if NoBuddies(s, order) {
      forall j | 0 <= j < |t|
        ensures Unpaired(t, j, order)
      {
        assert Unpaired(s, if j < i then j else j + 1, order);
      }
    }
  }

  /** Where a start may go in a free list: in order, and away from its buddy. */
  predicate Admits(s: seq<nat>, i: nat, start: nat, order: nat, maxOrder: nat) {
    && i <= |s|
    && (forall j :: 0 <= j < i ==> s[j] < start)
    && (forall j :: i <= j < |s| ==> start < s[j])
    && (order < maxOrder ==> Buddy(start, order) !in s)
  }

  lemma InsertKeepsLists(p: Pool, id: ListId, i: nat, n: nat, g: Geometry)
    requires Chained(p) && id in p.lists && i <= |p.lists[id]| && ListsOk(p, g)
    requires n < |p.nodes| && p.owner[n] == Held
    requires id.Global? ==> Admits(Starts(p, id), i, p.nodes[n].start, id.order, g.maxOrder)
    ensures Chained(Insert(p, id, i, n)) && ListsOk(Insert(p, id, i, n), g)
  {
    InsertKeepsChained(p, id, i, n);
    var q := Insert(p, id, i, n);
    forall k | 0 <= k < MAX_ORDER_SLOTS
      ensures FreeListOk(q, k, g.maxOrder)
    {
      assert FreeListOk(p, k, g.maxOrder);
      StartsAfterInsert(p, id, i, n, Global(k));
      if Global(k) == id {
        AdmittedKeepsOrder(Starts(p, id), i, p.nodes[n].start, k, g.maxOrder);
      }
    }
  }

  lemma AdmittedKeepsOrder(s: seq<nat>, i: nat, start: nat, order: nat, maxOrder: nat)
    requires Ascending(s) && (order < maxOrder ==> NoBuddies(s, order))
    requires Admits(s, i, start, order, maxOrder)
    ensures Ascending(With(s, i, start))
    ensures order < maxOrder ==> NoBuddies(With(s, i, start), order)
  {
    var t := With(s, i, start);
    assert forall j :: 0 <= j < |t| ==> t[j] == if j < i then s[j] else if j == i then start else s[j - 1];
    forall j, k | 0 <= j < k < |t|
      ensures Before(t, j, k)
    {
      if j != i && k != i {
        assert Before(s, if j < i then j else j - 1, if k < i then k else k - 1);
      }
    }
    if order < maxOrder {
      AdmittedUnpaired(s, i, start, order);
    }
  }

  lemma AdmittedUnpaired(s: seq<nat>, i: nat, start: nat, order: nat)
    requires i <= |s| && NoBuddies(s, order) && Buddy(start, order) !in s
    ensures NoBuddies(With(s, i, start), order)
  {
    var t := With(s, i, start);
    BuddyInvolutive(start, order);
    forall j | 0 <= j < |t|
      ensures Unpaired(t, j, order)
    {
      if j != i {
        var k := if j < i then j else j - 1;
        assert t[j] == s[k] && Unpaired(s, k, order);
        BuddyInvolutive(s[k], order);
      }
    }
  }

  lemma DescribeKeepsLists(p: Pool, n: nat, start: nat, order: nat, refcount: nat, g: Geometry)
    requires Chained(p) && ListsOk(p, g)
    requires n < |p.nodes| && !p.owner[n].Global?
    ensures Chained(Describe(p, n, start, order, refcount))
    ensures ListsOk(Describe(p, n, start, order, refcount), g)
  {
    DescribeKeepsChained(p, n, start, order, refcount);
    forall k | 0 <= k < MAX_ORDER_SLOTS
      ensures FreeListOk(Describe(p, n, start, order, refcount), k, g.maxOrder)
    {
      assert FreeListOk(p, k, g.maxOrder);
      StartsAfterDescribe(p, n, start, order, refcount, Global(k));
    }
  }

  lemma RemoveKeepsNodes(p: Pool, id: ListId, i: nat, g: Geometry)
    requires Chained(p) && id in p.lists && i < |p.lists[id]|
    requires p.lists[id][i] < |p.nodes| && p.nodes[p.lists[id][i]].refcount == 0
    requires forall m :: 0 <= m < |p.nodes| && m != p.lists[id][i] ==> NodeFits(g, p.owner[m], p.nodes[m])
    ensures NodesOk(Remove(p, id, i), g)
  {
    RemoveOnlyRelinks(p, id, i);
    var q := Remove(p, id, i);
    forall m | 0 <= m < |q.nodes|
      ensures NodeFits(g, q.owner[m], q.nodes[m])
    {
      assert SameContent(p.nodes[m], q.nodes[m]);
    }
  }

  lemma InsertKeepsNodes(p: Pool, id: ListId, i: nat, n: nat, g: Geometry)
    requires Chained(p) && id in p.lists && i <= |p.lists[id]|
    requires n < |p.nodes| && p.owner[n] == Held && NodeFits(g, id, p.nodes[n])
    requires forall m :: 0 <= m < |p.nodes| && m != n ==> NodeFits(g, p.owner[m], p.nodes[m])
    ensures NodesOk(Insert(p, id, i, n), g)
  {
    InsertOnlyRelinks(p, id, i, n);
    var q := Insert(p, id, i, n);
    forall m | 0 <= m < |q.nodes|
      ensures NodeFits(g, q.owner[m], q.nodes[m])
    {
      assert SameContent(p.nodes[m], q.nodes[m]);
    }
  }

  // ---------------------------------------------------------------- moving a block between lists

  /** Taking a free block off its list keeps the invariant. */
  lemma TakeKeepsInv(p: Pool, id: ListId, i: nat, g: Geometry)
    requires Inv(p, g) && id in p.lists && i < |p.lists[id]| && (id.Global? || id.Cpu?)
    ensures Inv(Remove(p, id, i), g)
  {
    assert Chain(p.nodes, p.owner, id, p.lists[id]);
    RemoveKeepsLists(p, id, i, g);
    RemoveKeepsNodes(p, id, i, g);
    RelinkKeepsTiles(p, id, i, 0);
  }

  /** Putting a held block on the list that fits it keeps the invariant. */
  lemma GiveKeepsInv(p: Pool, id: ListId, i: nat, n: nat, g: Geometry)
    requires Inv(p, g) && id in p.lists && i <= |p.lists[id]| && id != Unused
    requires n < |p.nodes| && p.owner[n] == Held && NodeFits(g, id, p.nodes[n])
    requires id.Global? ==> Admits(Starts(p, id), i, p.nodes[n].start, id.order, g.maxOrder)
    ensures Inv(Insert(p, id, i, n), g)
  {
    InsertKeepsLists(p, id, i, n, g);
    InsertKeepsNodes(p, id, i, n, g);
    RelinkKeepsTiles(p, id, i, n);
  }

  /** Handing a held block out to a caller. */
  function HandOut(p: Pool, n: nat): Pool
    requires Chained(p) && Allocated in p.lists && n < |p.nodes| && p.owner[n] == Held
  {
    DescribeKeepsChained(p, n, p.nodes[n].start, p.nodes[n].order, 1);
    Insert(Describe(p, n, p.nodes[n].start, p.nodes[n].order, 1), Allocated, 0, n)
  }

  lemma HandOutKeepsInv(p: Pool, n: nat, g: Geometry)
    requires Inv(p, g) && n < |p.nodes| && p.owner[n] == Held
    ensures Allocated in p.lists && Inv(HandOut(p, n), g)
  {
    var b := p.nodes[n];
    var q := Describe(p, n, b.start, b.order, 1);
    DescribeKeepsLists(p, n, b.start, b.order, 1, g);
    assert Allocated in p.lists;
    assert TilesOf(q) == TilesOf(p);
    InsertKeepsLists(q, Allocated, 0, n, g);
    InsertKeepsNodes(q, Allocated, 0, n, g);
    RelinkKeepsTiles(q, Allocated, 0, n);
  }

  /** Changing the reference count of a block that stays allocated. */
  lemma CountKeepsInv(p: Pool, n: nat, refcount: nat, g: Geometry)
    requires Inv(p, g) && n < |p.nodes| && p.owner[n] == Allocated && 1 <= refcount <= U32_MAX
    ensures Inv(Describe(p, n, p.nodes[n].start, p.nodes[n].order, refcount), g)
  {
    var b := p.nodes[n];
    DescribeKeepsLists(p, n, b.start, b.order, refcount, g);
    assert TilesOf(Describe(p, n, b.start, b.order, refcount)) == TilesOf(p);
  }

  /** Taking a block back from its last holder. */
  function Reclaim(p: Pool, i: nat): Pool
    requires Chained(p) && Allocated in p.lists && i < |p.lists[Allocated]|
  {
    assert Chain(p.nodes, p.owner, Allocated, p.lists[Allocated]);
    var n := p.lists[Allocated][i];
    DescribeKeepsChained(p, n, p.nodes[n].start, p.nodes[n].order, 0);
    Remove(Describe(p, n, p.nodes[n].start, p.nodes[n].order, 0), Allocated, i)
  }

  lemma ReclaimKeepsInv(p: Pool, i: nat, g: Geometry)
    requires Inv(p, g) && Allocated in p.lists && i < |p.lists[Allocated]|
    ensures Inv(Reclaim(p, i), g)
  {
    assert Chain(p.nodes, p.owner, Allocated, p.lists[Allocated]);
    var n := p.lists[Allocated][i];
    var b := p.nodes[n];
    var q := Describe(p, n, b.start, b.order, 0);
    DescribeKeepsLists(p, n, b.start, b.order, 0, g);
    assert TilesOf(q) == TilesOf(p);
    RemoveKeepsLists(q, Allocated, i, g);
    ReclaimedNodes(p, n, g);
    RemoveKeepsNodes(q, Allocated, i, g);
    RelinkKeepsTiles(q, Allocated, i, 0);
  }

  lemma ReclaimedNodes(p: Pool, n: nat, g: Geometry)
    requires Chained(p) && NodesOk(p, g) && n < |p.nodes|
    ensures var q := Describe(p, n, p.nodes[n].start, p.nodes[n].order, 0);
      forall m :: 0 <= m < |p.nodes| && m != n ==> NodeFits(g, q.owner[m], q.nodes[m])
  {
  }

  // ---------------------------------------------------------------- splitting and joining

  /** A spare node is drawn and told which block it stands for. */
  function Spawn(p: Pool, start: nat, order: nat): Pool
    requires Chained(p) && Unused in p.lists && p.lists[Unused] != []
  {
    assert Chain(p.nodes, p.owner, Unused, p.lists[Unused]);
    Describe(Remove(p, Unused, 0), p.lists[Unused][0], start, order, 0)
  }

  lemma DescribedTiles(p: Pool, n: nat, start: nat, order: nat, refcount: nat)
    requires |p.nodes| == |p.owner| && n < |p.nodes| && p.owner[n] != Unused
    ensures TilesOf(Describe(p, n, start, order, refcount)) == TilesOf(p)[n := Some(Block(start, order))]
  {
  }

  /** A held node gives up its block and becomes spare. */
  function Retire(p: Pool, n: nat): Pool
    requires Chained(p) && Unused in p.lists && n < |p.nodes| && p.owner[n] == Held
  {
    DescribeKeepsChained(p, n, 0, 0, 0);
    Insert(Describe(p, n, 0, 0, 0), Unused, 0, n)
  }

  /** `q` is `p` after drawing the spare node `m` for the block `(start, order)`. */
  ghost predicate Spawned(p: Pool, q: Pool, m: nat, start: nat, order: nat) {
    && |p.nodes| == |p.owner| == |q.nodes| == |q.owner|
    && m < |p.nodes| && p.owner[m] == Unused
    && q.owner == p.owner[m := Held]
    && q.nodes[m].start == start && q.nodes[m].order == order
    && TilesOf(q) == TilesOf(p)[m := Some(Block(start, order))]
  }

  lemma SpawnIsSound(p: Pool, start: nat, order: nat, g: Geometry)
    requires Chained(p) && ListsOk(p, g) && NodesOk(p, g)
    requires Unused in p.lists && p.lists[Unused] != []
    ensures Chained(Spawn(p, start, order))
    ensures ListsOk(Spawn(p, start, order), g) && NodesOk(Spawn(p, start, order), g)
    ensures Spawned(p, Spawn(p, start, order), p.lists[Unused][0], start, order)
    ensures Spawn(p, start, order).lists == p.lists[Unused := p.lists[Unused][1..]]
  {
    assert Chain(p.nodes, p.owner, Unused, p.lists[Unused]);
    var m := p.lists[Unused][0];
    var r := Remove(p, Unused, 0);
    RemoveKeepsLists(p, Unused, 0, g);
    RemoveOnlyRelinks(p, Unused, 0);
    DescribeKeepsLists(r, m, start, order, 0, g);
    SpawnedNodes(p, start, order, g);
    SpawnedTiles(p, start, order);
    assert Without(p.lists[Unused], 0) == p.lists[Unused][1..];
  }

  lemma SpawnedStarts(p: Pool, start: nat, order: nat, id: ListId)
    requires Chained(p) && Unused in p.lists && p.lists[Unused] != [] && id in p.lists && id != Unused
    ensures Chained(Spawn(p, start, order))
    ensures Starts(Spawn(p, start, order), id) == Starts(p, id)
  {
    assert Chain(p.nodes, p.owner, Unused, p.lists[Unused]);
    StartsAfterRemove(p, Unused, 0, id);
    StartsAfterDescribe(Remove(p, Unused, 0), p.lists[Unused][0], start, order, 0, id);
  }

  lemma SpawnedNodes(p: Pool, start: nat, order: nat, g: Geometry)
    requires Chained(p) && NodesOk(p, g) && Unused in p.lists && p.lists[Unused] != []
    ensures NodesOk(Spawn(p, start, order), g)
  {
    RemoveOnlyRelinks(p, Unused, 0);
    var q := Spawn(p, start, order);
    forall o | 0 <= o < |q.nodes|
      ensures NodeFits(g, q.owner[o], q.nodes[o])
    {
      assert SameContent(p.nodes[o], Remove(p, Unused, 0).nodes[o]);
    }
  }

  lemma SpawnedTiles(p: Pool, start: nat, order: nat)
    requires Chained(p) && Unused in p.lists && p.lists[Unused] != []
    ensures p.lists[Unused][0] < |p.nodes|
    ensures TilesOf(Spawn(p, start, order)) == TilesOf(p)[p.lists[Unused][0] := Some(Block(start, order))]
  {
    assert Chain(p.nodes, p.owner, Unused, p.lists[Unused]);
    RemoveOnlyRelinks(p, Unused, 0);
    var q := Spawn(p, start, order);
    forall o | 0 <= o < |q.nodes|
      ensures TileOf(q, o) == TilesOf(p)[p.lists[Unused][0] := Some(Block(start, order))][o]
    {
      assert SameContent(p.nodes[o], Remove(p, Unused, 0).nodes[o]);
    }
  }

  lemma RetireIsSound(p: Pool, n: nat, g: Geometry)
    requires Chained(p) && ListsOk(p, g) && NodesOk(p, g)
    requires n < |p.nodes| && p.owner[n] == Held && Unused in p.lists
    ensures Chained(Retire(p, n))
    ensures ListsOk(Retire(p, n), g) && NodesOk(Retire(p, n), g)
    ensures Retire(p, n).owner == p.owner[n := Unused]
    ensures Retire(p, n).lists == p.lists[Unused := [n] + p.lists[Unused]]
    ensures TilesOf(Retire(p, n)) == TilesOf(p)[n := None]
  {
    var r := Describe(p, n, 0, 0, 0);
    DescribeKeepsLists(p, n, 0, 0, 0, g);
    InsertKeepsLists(r, Unused, 0, n, g);
    InsertKeepsNodes(r, Unused, 0, n, g);
    RetiredTiles(p, n);
    assert With(p.lists[Unused], 0, n) == [n] + p.lists[Unused];
  }

  lemma RetiredTiles(p: Pool, n: nat)
    requires Chained(p) && n < |p.nodes| && p.owner[n] == Held && Unused in p.lists
    ensures TilesOf(Retire(p, n)) == TilesOf(p)[n := None]
  {
    DescribeKeepsChained(p, n, 0, 0, 0);
    var r := Describe(p, n, 0, 0, 0);
    InsertOnlyRelinks(r, Unused, 0, n);
    var q := Retire(p, n);
    forall o | 0 <= o < |q.nodes|
      ensures TileOf(q, o) == TilesOf(p)[n := None][o]
    {
      assert SameContent(r.nodes[o], q.nodes[o]);
    }
  }

  /** No free list holds a start that lies inside the block of another node. */
  lemma InsideIsUnlisted(p: Pool, n: nat, id: ListId, x: nat, g: Geometry)
    requires Inv(p, g) && n < |p.nodes| && id in p.lists && id != Unused
    requires p.owner[n] != Unused && p.owner[n] != id
    requires p.nodes[n].start <= x < p.nodes[n].start + Pow2(p.nodes[n].order)
    ensures x !in Starts(p, id)
  {
    var t := TilesOf(p);
    assert Chain(p.nodes, p.owner, id, p.lists[id]);
    forall i | 0 <= i < |p.lists[id]|
      ensures Starts(p, id)[i] != x
    {
      var m := p.lists[id][i];
      assert t[m].Some? && t[n].Some? && m != n;
      assert Apart(t, m, n);
      assert t[m].value.start < t[m].value.End();
    }
  }

  /** One turn of the split loop of `alloc_from_global`: the held block of node `n`, of order
      `k + 1`, is halved and its upper half goes on the free list of order `k` at position `i`. */
  lemma SplitKeepsInv(p: Pool, n: nat, k: nat, i: nat, m: nat, q: Pool, f: Pool, g: Geometry)
    requires GeometryOk(g) && |p.nodes| == |p.owner|
    requires Tiling(TilesOf(p), g.ranges, g.maxOrder) && Pages(TilesOf(p)) == TotalFrames(g.ranges)
    requires n < |p.nodes| && p.owner[n] == Held && p.nodes[n].order == k + 1
    requires Spawned(p, q, m, p.nodes[n].start + Pow2(k), k)
    requires Chained(q) && ListsOk(q, g) && NodesOk(q, g) && Global(k) in q.lists
    requires Admits(Starts(q, Global(k)), i, p.nodes[n].start + Pow2(k), k, g.maxOrder)
    requires f == Describe(Insert(q, Global(k), i, m), n, p.nodes[n].start, k, 0)
    ensures Inv(f, g)
  {
    SpawnedInsert(q, n, p.nodes[n].start, m, k, i, g);
    HalvesTile(p, q, f, n, m, g);
  }

  lemma HalvesTile(p: Pool, q: Pool, f: Pool, n: nat, m: nat, g: Geometry)
    requires |p.nodes| == |p.owner| && |q.nodes| == |q.owner| && |f.nodes| == |f.owner|
    requires n < |p.nodes| && m < |p.nodes| && p.owner[n] == Held && p.owner[m] == Unused && p.nodes[n].order > 0
    requires TilesOf(q) ==
               TilesOf(p)[m := Some(Block(p.nodes[n].start + Pow2(p.nodes[n].order - 1), p.nodes[n].order - 1))]
    requires TilesOf(f) == TilesOf(q)[n := Some(Block(p.nodes[n].start, p.nodes[n].order - 1))]
    requires Tiling(TilesOf(p), g.ranges, g.maxOrder)
    ensures Tiling(TilesOf(f), g.ranges, g.maxOrder)
    ensures Pages(TilesOf(f)) == Pages(TilesOf(p))
  {
    HalvedTiles(TilesOf(p), TilesOf(q), TilesOf(f), n, m);
    SplitKeepsTiling(TilesOf(p), n, m, g.ranges, g.maxOrder);
  }

  lemma SpawnedInsert(q: Pool, n: nat, start: nat, m: nat, k: nat, i: nat, g: Geometry)
    requires Chained(q) && ListsOk(q, g) && NodesOk(q, g) && Global(k) in q.lists
    requires n < |q.nodes| && m < |q.nodes| && n != m && q.owner[n] == q.owner[m] == Held
    requires Admits(Starts(q, Global(k)), i, q.nodes[m].start, k, g.maxOrder)
    requires q.nodes[m].order == k
    ensures Chained(Describe(Insert(q, Global(k), i, m), n, start, k, 0))
    ensures ListsOk(Describe(Insert(q, Global(k), i, m), n, start, k, 0), g)
    ensures NodesOk(Describe(Insert(q, Global(k), i, m), n, start, k, 0), g)
    ensures TilesOf(Describe(Insert(q, Global(k), i, m), n, start, k, 0))
         == TilesOf(q)[n := Some(Block(start, k))]
  {
    InsertKeepsLists(q, Global(k), i, m, g);
    InsertKeepsNodes(q, Global(k), i, m, g);
    RelinkKeepsTiles(q, Global(k), i, m);
    DescribeKeepsLists(Insert(q, Global(k), i, m), n, start, k, 0, g);
    DescribedTiles(Insert(q, Global(k), i, m), n, start, k, 0);
  }

  lemma HalvedTiles(t: Tiles, u: Tiles, v: Tiles, n: nat, m: nat)
    requires n < |t| && m < |t| && n != m && t[n].Some? && t[n].value.order > 0
    requires u == t[m := Some(Block(t[n].value.start + Pow2(t[n].value.order - 1), t[n].value.order - 1))]
    requires v == u[n := Some(Block(t[n].value.start, t[n].value.order - 1))]
    ensures v == SplitTile(t, n, m)
  {
  }

  lemma MergedTiles(t: Tiles, u: Tiles, v: Tiles, n: nat, m: nat)
    requires n < |t| && m < |t| && n != m && t[n].Some? && t[m].Some?
    requires u == t[m := None]
    requires v == u[n := Some(Block(Min(t[n].value.start, t[m].value.start), t[n].value.order + 1))]
    ensures v == JoinTile(t, n, m)
  {
  }

  /** One turn of the coalescing loop of `free_global_block`: the buddy `b`, already taken off
      the free list of order `k`, is absorbed by the held node `n`. */
  lemma JoinKeepsInv(q: Pool, n: nat, k: nat, b: nat, low: nat, r: Pool, f: Pool, g: Geometry)
    requires Inv(q, g) && Unused in q.lists
    requires n < |q.nodes| && b < |q.nodes| && n != b && q.owner[n] == q.owner[b] == Held
    requires q.nodes[n].order == q.nodes[b].order == k < g.maxOrder
    requires q.nodes[b].start == Buddy(q.nodes[n].start, k)
    requires low == Min(q.nodes[n].start, q.nodes[b].start)
    requires r == Retire(q, b) && n < |r.nodes|
    requires f == Describe(r, n, low, k + 1, 0)
    ensures Inv(f, g)
  {
    JoinLists(q, n, b, r, f, low, k + 1, g);
    JoinsTiles(q, r, f, n, b, g);
  }

  lemma JoinLists(q: Pool, n: nat, b: nat, r: Pool, f: Pool, low: nat, order: nat, g: Geometry)
    requires Chained(q) && ListsOk(q, g) && NodesOk(q, g) && Unused in q.lists
    requires n < |q.nodes| && b < |q.nodes| && n != b && q.owner[n] == q.owner[b] == Held
    requires r == Retire(q, b) && n < |r.nodes| && f == Describe(r, n, low, order, 0)
    ensures Chained(r) && TilesOf(r) == TilesOf(q)[b := None]
    ensures Chained(f) && ListsOk(f, g) && NodesOk(f, g)
    ensures TilesOf(f) == TilesOf(r)[n := Some(Block(low, order))]
  {
    RetireIsSound(q, b, g);
    DescribeKeepsLists(r, n, low, order, 0, g);
    DescribedTiles(r, n, low, order, 0);
  }

  lemma JoinsTiles(p: Pool, r: Pool, f: Pool, n: nat, b: nat, g: Geometry)
    requires |p.nodes| == |p.owner| && |r.nodes| == |r.owner| && |f.nodes| == |f.owner|
    requires n < |p.nodes| && b < |p.nodes| && n != b && p.owner[n] != Unused && p.owner[b] != Unused
    requires p.nodes[n].order == p.nodes[b].order < g.maxOrder
    requires p.nodes[b].start == Buddy(p.nodes[n].start, p.nodes[n].order)
    requires TilesOf(r) == TilesOf(p)[b := None]
    requires TilesOf(f) == TilesOf(r)[n := Some(Block(Min(p.nodes[n].start, p.nodes[b].start), p.nodes[n].order + 1))]
    requires Separated(g.ranges) && Tiling(TilesOf(p), g.ranges, g.maxOrder)
    ensures Tiling(TilesOf(f), g.ranges, g.maxOrder)
    ensures Pages(TilesOf(f)) == Pages(TilesOf(p))
  {
    MergedTiles(TilesOf(p), TilesOf(r), TilesOf(f), n, b);
    JoinKeepsTiling(TilesOf(p), n, b, g.ranges, g.maxOrder);
  }

  // ---------------------------------------------------------------- what callers hold

  predicate GrantKept(p: Pool, q: Pool, i: int) {
    && Allocated in p.lists && 0 <= i < |p.lists[Allocated]|
    && p.lists[Allocated][i] < |p.nodes| && p.lists[Allocated][i] < |q.nodes|
    && SameContent(p.nodes[p.lists[Allocated][i]], q.nodes[p.lists[Allocated][i]])
  }

  /** No block in a caller's hands is touched. */
  predicate SameGrants(p: Pool, q: Pool) {
    && Allocated in p.lists && Allocated in q.lists && p.lists[Allocated] == q.lists[Allocated]
    && forall i {:trigger GrantKept(p, q, i)} :: 0 <= i < |p.lists[Allocated]| ==> GrantKept(p, q, i)
  }

  /** The held nodes are the same, except perhaps for `n`. */
  predicate SameHeld(p: Pool, q: Pool, n: nat) {
    && |p.owner| == |q.owner|
    && forall m :: 0 <= m < |p.owner| && m != n ==> (p.owner[m] == Held <==> q.owner[m] == Held)
  }

  lemma SameGrantsTrans(p: Pool, q: Pool, r: Pool)
    requires SameGrants(p, q) && SameGrants(q, r)
    ensures SameGrants(p, r)
  {
    forall i | 0 <= i < |p.lists[Allocated]|
      ensures GrantKept(p, r, i)
    {
      assert GrantKept(p, q, i) && GrantKept(q, r, i);
    }
  }

  lemma RemoveKeepsGrants(p: Pool, id: ListId, i: nat)
    requires Chained(p) && id in p.lists && i < |p.lists[id]| && id != Allocated && Allocated in p.lists
    ensures SameGrants(p, Remove(p, id, i))
  {
    RemoveOnlyRelinks(p, id, i);
    GrantsByContent(p, Remove(p, id, i));
  }

  lemma InsertKeepsGrants(p: Pool, id: ListId, i: nat, n: nat)
    requires Chained(p) && id in p.lists && i <= |p.lists[id]| && id != Allocated && Allocated in p.lists
    requires n < |p.nodes| && p.owner[n] == Held
    ensures SameGrants(p, Insert(p, id, i, n))
  {
    InsertOnlyRelinks(p, id, i, n);
    GrantsByContent(p, Insert(p, id, i, n));
  }

  lemma DescribeKeepsGrants(p: Pool, n: nat, start: nat, order: nat, refcount: nat)
    requires Chained(p) && n < |p.nodes| && p.owner[n] != Allocated && Allocated in p.lists
    ensures SameGrants(p, Describe(p, n, start, order, refcount))
  {
    assert Chain(p.nodes, p.owner, Allocated, p.lists[Allocated]);
    var q := Describe(p, n, start, order, refcount);
    forall i | 0 <= i < |p.lists[Allocated]|
      ensures GrantKept(p, q, i)
    {
    }
  }

  lemma GrantsByContent(p: Pool, q: Pool)
    requires Chained(p) && SameContents(p.nodes, q.nodes)
    requires Allocated in p.lists && Allocated in q.lists && p.lists[Allocated] == q.lists[Allocated]
    ensures SameGrants(p, q)
  {
    assert Chain(p.nodes, p.owner, Allocated, p.lists[Allocated]);
    forall i | 0 <= i < |p.lists[Allocated]|
      ensures GrantKept(p, q, i)
    {
      assert SameContent(p.nodes[p.lists[Allocated][i]], q.nodes[p.lists[Allocated][i]]);
    }
  }

  // ---------------------------------------------------------------- rewriting a held node late

  /** Rewriting the held node `n` commutes with list work on other nodes. */
  lemma DescribeCommutesWithRemove(p: Pool, n: nat, start: nat, order: nat, id: ListId, i: nat)
    requires Chained(p) && n < |p.nodes| && p.owner[n] == Held && id in p.lists && i < |p.lists[id]|
    ensures Chained(Describe(p, n, start, order, 0))
    ensures Remove(Describe(p, n, start, order, 0), id, i) == Describe(Remove(p, id, i), n, start, order, 0)
  {
    DescribeKeepsChained(p, n, start, order, 0);
    assert Chain(p.nodes, p.owner, id, p.lists[id]);
  }

  lemma DescribeCommutesWithRetire(p: Pool, n: nat, start: nat, order: nat, b: nat)
    requires Chained(p) && Unused in p.lists && n < |p.nodes| && b < |p.nodes| && n != b
    requires p.owner[n] == p.owner[b] == Held
    ensures Chained(Describe(p, n, start, order, 0))
    ensures Retire(Describe(p, n, start, order, 0), b) == Describe(Retire(p, b), n, start, order, 0)
  {
    DescribeKeepsChained(p, n, start, order, 0);
  }

  /** Absorbing a listed buddy, with the held node still carrying its old description. */
  lemma AbsorbKeepsInv(p: Pool, n: nat, block: nat, k: nat, i: nat, b: nat, low: nat, up: nat, g: Geometry)
    requires low == Min(block, Buddy(block, k)) && up == k + 1
    requires Chained(p) && n < |p.nodes| && p.owner[n] == Held && k < g.maxOrder
    requires Inv(Describe(p, n, block, k, 0), g)
    requires Unused in p.lists && Global(k) in p.lists && i < |p.lists[Global(k)]| && b == p.lists[Global(k)][i]
    requires Starts(p, Global(k))[i] == Buddy(block, k)
    ensures Chained(Remove(p, Global(k), i)) && b < |p.nodes| && Remove(p, Global(k), i).owner[b] == Held && b != n
    ensures Inv(Describe(Retire(Remove(p, Global(k), i), b), n, low, up, 0), g)
  {
    assert Chain(p.nodes, p.owner, Global(k), p.lists[Global(k)]);
    RemoveKeepsChained(p, Global(k), i);
    RemoveOnlyRelinks(p, Global(k), i);
    assert SameContent(p.nodes[b], Remove(p, Global(k), i).nodes[b]);
    var v := Describe(p, n, block, k, 0);
    TakeKeepsInv(v, Global(k), i, g);
    DescribeCommutesWithRemove(p, n, block, k, Global(k), i);
    var q := Remove(p, Global(k), i);
    AbsorbTaken(q, n, block, k, b, low, up, g);
  }

  lemma AbsorbTaken(q: Pool, n: nat, block: nat, k: nat, b: nat, low: nat, up: nat, g: Geometry)
    requires low == Min(block, Buddy(block, k)) && up == k + 1
    requires Chained(q) && n < |q.nodes| && b < |q.nodes| && n != b && q.owner[n] == q.owner[b] == Held
    requires k < g.maxOrder && Unused in q.lists && Inv(Describe(q, n, block, k, 0), g)
    requires q.nodes[b].start == Buddy(block, k) && q.nodes[b].order == k
    ensures Inv(Describe(Retire(q, b), n, low, up, 0), g)
  {
    DescribeCommutesWithRetire(q, n, block, k, b);
    var r := Retire(Describe(q, n, block, k, 0), b);
    var f := Describe(r, n, low, up, 0);
    JoinKeepsInv(Describe(q, n, block, k, 0), n, k, b, low, r, f, g);
    assert f == Describe(Retire(q, b), n, low, up, 0);
  }
}
