/** What callers of the allocator see: which blocks are granted, with how many references. */
module BuddyGrants {
  import opened Prelude
  import opened BuddyBlocks
  import opened BuddyLists
  import opened BuddyState

  datatype Grant = Grant(order: nat, refcount: nat)

  ghost function PositionOf(p: Pool, start: nat): (i: nat)
    requires Chained(p) && Allocated in p.lists && start in Starts(p, Allocated)
    ensures i < |p.lists[Allocated]| && Starts(p, Allocated)[i] == start
  {
    var i :| 0 <= i < |Starts(p, Allocated)| && Starts(p, Allocated)[i] == start;
    i
  }

  ghost function GrantOf(p: Pool, i: nat): Grant
    requires Chained(p) && Allocated in p.lists && i < |p.lists[Allocated]|
  {
    assert Chain(p.nodes, p.owner, Allocated, p.lists[Allocated]);
    var node := p.nodes[p.lists[Allocated][i]];
    Grant(node.order, node.refcount)
  }

  /** The granted blocks by start frame. */
  ghost function Grants(p: Pool): map<nat, Grant>
    requires Chained(p) && Allocated in p.lists
  {
    map start | start in Starts(p, Allocated) :: GrantOf(p, PositionOf(p, start))
  }

  /** Granted blocks start at different frames, so each entry of `Grants` is the one block. */
  lemma GrantsAt(p: Pool, i: nat, g: Geometry)
    requires Inv(p, g) && Allocated in p.lists && i < |p.lists[Allocated]|
    ensures Starts(p, Allocated)[i] in Grants(p)
    ensures Grants(p)[Starts(p, Allocated)[i]] == GrantOf(p, i)
  {
    var start := Starts(p, Allocated)[i];
    GrantsDiffer(p, i, PositionOf(p, start), g);
  }

  lemma GrantsDiffer(p: Pool, i: nat, j: nat, g: Geometry)
    requires Inv(p, g) && Allocated in p.lists && i < |p.lists[Allocated]| && j < |p.lists[Allocated]|
    requires Starts(p, Allocated)[i] == Starts(p, Allocated)[j]
    ensures i == j
  {
    var s := p.lists[Allocated];
    assert Chain(p.nodes, p.owner, Allocated, s);
    assert i != j ==> Differ(s, i, j);
    assert Apart(TilesOf(p), s[i], s[j]);
    assert TileOf(p, s[i]).Some? && TileOf(p, s[j]).Some?;
    assert TileOf(p, s[i]).value.start < TileOf(p, s[i]).value.End();
    assert TileOf(p, s[j]).value.start < TileOf(p, s[j]).value.End();
  }

  /** What holders of blocks may rely on: each block is aligned to its size and lies inside one
      usable range, and no two of them share a frame. */
  lemma GrantsAreSound(p: Pool, g: Geometry, x: nat, y: nat)
    requires Inv(p, g) && Allocated in p.lists && x in Grants(p) && y in Grants(p)
    ensures WellPlaced(Block(x, Grants(p)[x].order), g.ranges, g.maxOrder)
    ensures x != y ==> Disjoint(Block(x, Grants(p)[x].order), Block(y, Grants(p)[y].order))
  {
    var i, j := PositionOf(p, x), PositionOf(p, y);
    var s := p.lists[Allocated];
    GrantsAt(p, i, g);
    GrantsAt(p, j, g);
    assert Chain(p.nodes, p.owner, Allocated, s);
    assert Placed(TilesOf(p), s[i], g.ranges, g.maxOrder);
    assert Apart(TilesOf(p), s[i], s[j]);
  }

  lemma GrantsAre(p: Pool, m: map<nat, Grant>, g: Geometry)
    requires Inv(p, g) && Allocated in p.lists
    requires forall x :: x in m <==> x in Starts(p, Allocated)
    requires forall i :: 0 <= i < |p.lists[Allocated]| ==> m[Starts(p, Allocated)[i]] == GrantOf(p, i)
    ensures Grants(p) == m
  {
    forall x | x in m
      ensures Grants(p)[x] == m[x]
    {
      var i := PositionOf(p, x);
      GrantsAt(p, i, g);
    }
  }

  lemma SameGrantsSameMap(p: Pool, q: Pool, g: Geometry)
    requires Inv(p, g) && Inv(q, g) && SameGrants(p, q)
    ensures Grants(p) == Grants(q)
  {
    forall i | 0 <= i < |p.lists[Allocated]|
      ensures Starts(p, Allocated)[i] == Starts(q, Allocated)[i] && GrantOf(p, i) == GrantOf(q, i)
    {
      assert GrantKept(p, q, i);
    }
    assert Starts(p, Allocated) == Starts(q, Allocated);
    forall i | 0 <= i < |q.lists[Allocated]|
      ensures Grants(p)[Starts(q, Allocated)[i]] == GrantOf(q, i)
    {
      GrantsAt(p, i, g);
    }
    GrantsAre(q, Grants(p), g);
  }

  /** Handing out a held block adds exactly that block, with one reference. */
  lemma HandOutAddsEntry(p: Pool, n: nat, g: Geometry)
    requires Inv(p, g) && n < |p.nodes| && p.owner[n] == Held
    ensures Allocated in p.lists && Inv(HandOut(p, n), g) && Chained(HandOut(p, n))
    ensures p.nodes[n].start !in Grants(p)
    ensures Grants(HandOut(p, n)) == Grants(p)[p.nodes[n].start := Grant(p.nodes[n].order, 1)]
  {
    hide Pow2, Aligned, GapBetween, Chain, ListsOk, NodesOk, Tiling, TilesOf;
    HandOutKeepsInv(p, n, g);
    InsideIsUnlisted(p, n, Allocated, p.nodes[n].start, g);
    var q, start := HandOut(p, n), p.nodes[n].start;
    HandOutEntries(p, n);
    forall i | 0 <= i < |q.lists[Allocated]|
      ensures Grants(p)[start := Grant(p.nodes[n].order, 1)][Starts(q, Allocated)[i]] == GrantOf(q, i)
    {
      if i > 0 {
        GrantsAt(p, i - 1, g);
        assert Starts(p, Allocated)[i - 1] in Grants(p);
      }
    }
    GrantsAre(q, Grants(p)[start := Grant(p.nodes[n].order, 1)], g);
  }

  lemma HandOutEntries(p: Pool, n: nat)
    requires Chained(p) && Allocated in p.lists && n < |p.nodes| && p.owner[n] == Held
    requires Chained(HandOut(p, n))
    ensures |HandOut(p, n).lists[Allocated]| == |p.lists[Allocated]| + 1
    ensures Starts(HandOut(p, n), Allocated) == [p.nodes[n].start] + Starts(p, Allocated)
    ensures GrantOf(HandOut(p, n), 0) == Grant(p.nodes[n].order, 1)
    ensures forall i :: 0 < i < |HandOut(p, n).lists[Allocated]| ==> GrantOf(HandOut(p, n), i) == GrantOf(p, i - 1)
  {
    var s := p.lists[Allocated];
    assert Chain(p.nodes, p.owner, Allocated, s);
    var d := Describe(p, n, p.nodes[n].start, p.nodes[n].order, 1);
    DescribeKeepsChained(p, n, p.nodes[n].start, p.nodes[n].order, 1);
    InsertOnlyRelinks(d, Allocated, 0, n);
    var q := HandOut(p, n);
    assert q.lists[Allocated] == [n] + s;
    forall i | 0 <= i < |q.lists[Allocated]|
      ensures Starts(q, Allocated)[i] == ([p.nodes[n].start] + Starts(p, Allocated))[i]
      ensures GrantOf(q, i) == if i == 0 then Grant(p.nodes[n].order, 1) else GrantOf(p, i - 1)
    {
      assert SameContent(d.nodes[q.lists[Allocated][i]], q.nodes[q.lists[Allocated][i]]);
    }
  }

  /** Changing a reference count changes exactly that entry. */
  lemma CountUpdatesEntry(p: Pool, i: nat, refcount: nat, g: Geometry)
    requires Inv(p, g) && Allocated in p.lists && i < |p.lists[Allocated]| && 1 <= refcount <= U32_MAX
    requires p.lists[Allocated][i] < |p.nodes|
    ensures var n := p.lists[Allocated][i]; var q := Describe(p, n, p.nodes[n].start, p.nodes[n].order, refcount);
      Inv(q, g) && Grants(q) == Grants(p)[p.nodes[n].start := Grant(p.nodes[n].order, refcount)]
  {
    var s := p.lists[Allocated];
    assert Chain(p.nodes, p.owner, Allocated, s);
    var n := s[i];
    var q := Describe(p, n, p.nodes[n].start, p.nodes[n].order, refcount);
    CountKeepsInv(p, n, refcount, g);
    assert Starts(q, Allocated) == Starts(p, Allocated);
    assert Starts(p, Allocated)[i] == p.nodes[n].start;
    forall j | 0 <= j < |s|
      ensures Grants(p)[p.nodes[n].start := Grant(p.nodes[n].order, refcount)][Starts(q, Allocated)[j]] == GrantOf(q, j)
    {
      GrantsAt(p, j, g);
      if j != i {
        assert Differ(s, i, j);
        if Starts(p, Allocated)[j] == p.nodes[n].start {
          GrantsDiffer(p, i, j, g);
        }
      }
    }
    GrantsAre(q, Grants(p)[p.nodes[n].start := Grant(p.nodes[n].order, refcount)], g);
  }

  /** Every entry but that of block `i` is found in what is left. */
  lemma OtherEntries(p: Pool, i: nat, k: nat, g: Geometry)
    requires Inv(p, g) && Allocated in p.lists && i < |p.lists[Allocated]| && k < |p.lists[Allocated]| && k != i
    ensures Starts(p, Allocated)[k] in Grants(p) && Starts(p, Allocated)[k] != Starts(p, Allocated)[i]
    ensures Grants(p)[Starts(p, Allocated)[k]] == GrantOf(p, k)
  {
    GrantsAt(p, k, g);
    hide Inv, Chain, Grants, GrantOf, PositionOf;
    if Starts(p, Allocated)[k] == Starts(p, Allocated)[i] {
      GrantsDiffer(p, k, i, g);
    }
  }

  lemma GrantedIsListed(p: Pool, x: nat)
    requires Chained(p) && Allocated in p.lists && x in Grants(p)
    ensures x in Starts(p, Allocated)
  {
  }

  /** Reclaiming a block removes exactly its entry. */
  lemma ReclaimDropsEntry(p: Pool, i: nat, g: Geometry)
    requires Inv(p, g) && Allocated in p.lists && i < |p.lists[Allocated]|
    ensures Inv(Reclaim(p, i), g)
    ensures Grants(Reclaim(p, i)) == Grants(p) - {Starts(p, Allocated)[i]}
  {
    ReclaimKeepsInv(p, i, g);
    ReclaimEntries(p, i);
    RemainingGrants(p, Reclaim(p, i), i, g);
  }

  /** `q` grants what `p` grants but for block `i`. */
  lemma RemainingGrants(p: Pool, q: Pool, i: nat, g: Geometry)
    requires Inv(p, g) && Inv(q, g) && Allocated in p.lists && Allocated in q.lists && i < |p.lists[Allocated]|
    requires |q.lists[Allocated]| == |p.lists[Allocated]| - 1
             && Starts(q, Allocated) == Without(Starts(p, Allocated), i)
    requires forall j :: 0 <= j < |q.lists[Allocated]| ==> GrantOf(q, j) == GrantOf(p, if j < i then j else j + 1)
    ensures Grants(q) == Grants(p) - {Starts(p, Allocated)[i]}
  {
    hide Grants, GrantOf, PositionOf, Chain, ListsOk, NodesOk, Tiling;
    var s := Starts(p, Allocated);
    var rest := Grants(p) - {s[i]};
    forall j | 0 <= j < |q.lists[Allocated]|
      ensures Starts(q, Allocated)[j] in rest && rest[Starts(q, Allocated)[j]] == GrantOf(q, j)
    {
      OtherEntries(p, i, if j < i then j else j + 1, g);
    }
    forall x | x in rest
      ensures x in Starts(q, Allocated)
    {
      GrantedIsListed(p, x);
      var k :| 0 <= k < |s| && s[k] == x;
      StillThere(s, i, k);
    }
    GrantsAre(q, rest, g);
  }

  lemma StillThere(s: seq<nat>, i: nat, k: nat)
    requires i < |s| && k < |s| && s[k] != s[i]
    ensures s[k] in Without(s, i)
  {
    assert s[k] == Without(s, i)[if k < i then k else k - 1];
  }

  lemma ReclaimEntries(p: Pool, i: nat)
    requires Chained(p) && Allocated in p.lists && i < |p.lists[Allocated]| && Chained(Reclaim(p, i))
    ensures |Reclaim(p, i).lists[Allocated]| == |p.lists[Allocated]| - 1
    ensures Starts(Reclaim(p, i), Allocated) == Without(Starts(p, Allocated), i)
    ensures forall j :: 0 <= j < |Reclaim(p, i).lists[Allocated]| ==>
              GrantOf(Reclaim(p, i), j) == GrantOf(p, if j < i then j else j + 1)
  {
    var s := p.lists[Allocated];
    assert Chain(p.nodes, p.owner, Allocated, s);
    var n := s[i];
    var d := Describe(p, n, p.nodes[n].start, p.nodes[n].order, 0);
    DescribeKeepsChained(p, n, p.nodes[n].start, p.nodes[n].order, 0);
    RemoveOnlyRelinks(d, Allocated, i);
    var q := Reclaim(p, i);
    var t := q.lists[Allocated];
    forall j | 0 <= j < |t|
      ensures Starts(q, Allocated)[j] == Without(Starts(p, Allocated), i)[j]
      ensures GrantOf(q, j) == GrantOf(p, if j < i then j else j + 1)
    {
      var k := if j < i then j else j + 1;
      assert t[j] == s[k] && Differ(s, k, i);
      assert SameContent(d.nodes[t[j]], q.nodes[t[j]]);
    }
  }
}
