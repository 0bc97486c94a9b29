/** The page-table tree: which tables exist, which leaves they hold, and how memory represents
    them. A virtual address is the sequence of its table indexes, one for each level. */
module PageTableTree {
  import opened Prelude
  import opened UserMemory

  type Path = seq<nat>

  datatype Leaf = Leaf(frame: nat, flags: MapFlags)
  datatype Entry = Absent | Table(table: nat) | Page(leaf: Leaf)

  /** `node` gives the frame of the table at the end of a path, `leaves` the page there. */
  datatype Tree = Tree(node: map<Path, nat>, leaves: map<Path, Leaf>)

  /** The dimensions of the architecture. */
  datatype Shape = Shape(levels: nat, entries: nat)

  function Parent(p: Path): Path
    requires p != []
  {
    p[..|p| - 1]
  }

  predicate PathOk(p: Path, shape: Shape) {
    |p| <= shape.levels && forall k :: 0 <= k < |p| ==> p[k] < shape.entries
  }

  // ---------------------------------------------------------------- trees

  predicate NodeOk(t: Tree, shape: Shape, p: Path) {
    && PathOk(p, shape) && |p| < shape.levels && p !in t.leaves
    && (p != [] ==> Parent(p) in t.node)
  }

  predicate LeafOk(t: Tree, shape: Shape, l: Path) {
    l != [] && PathOk(l, shape) && Parent(l) in t.node
  }

  predicate OwnFrame(t: Tree, p: Path, q: Path) {
    p in t.node && q in t.node && p != q ==> t.node[p] != t.node[q]
  }

  /** A tree: every table but the root hangs on one entry of one table, and no two tables share a
      frame. */
  ghost predicate TreeOk(t: Tree, shape: Shape, root: nat) {
    && [] in t.node && t.node[[]] == root
    && (forall p :: p in t.node ==> NodeOk(t, shape, p))
    && (forall l :: l in t.leaves ==> LeafOk(t, shape, l))
    && (forall p, q :: OwnFrame(t, p, q))
  }

  lemma {:induction false} NodesArePrefixClosed(t: Tree, shape: Shape, root: nat, p: Path, k: nat)
    requires TreeOk(t, shape, root) && p in t.node && k <= |p|
    ensures p[..k] in t.node
    decreases |p|
  {
    if k < |p| {
      assert NodeOk(t, shape, p);
      NodesArePrefixClosed(t, shape, root, Parent(p), k);
      assert Parent(p)[..k] == p[..k];
    } else {
      assert p[..k] == p;
    }
  }

  lemma NodePrefixIsNoLeaf(t: Tree, shape: Shape, root: nat, p: Path, k: nat)
    requires TreeOk(t, shape, root) && p in t.node && k <= |p|
    ensures p[..k] in t.node && p[..k] !in t.leaves
  {
    NodesArePrefixClosed(t, shape, root, p, k);
    assert NodeOk(t, shape, p[..k]);
  }

  /** Nothing hangs below a leaf. */
  lemma LeafEndsThePath(t: Tree, shape: Shape, root: nat, path: Path, k: nat, n: nat)
    requires TreeOk(t, shape, root) && k < n <= |path|
    requires path[..k] in t.leaves
    ensures path[..n] !in t.node && path[..n] !in t.leaves
  {
    assert path[..n - 1][..k] == path[..k] == path[..n][..k];
    assert Parent(path[..n]) == path[..n - 1];
    if path[..n] in t.leaves {
      assert LeafOk(t, shape, path[..n]);
      NodePrefixIsNoLeaf(t, shape, root, path[..n - 1], k);
    } else if path[..n] in t.node {
      NodePrefixIsNoLeaf(t, shape, root, path[..n], k);
    }
  }

  // ---------------------------------------------------------------- memory

  type Tables = map<nat, seq<Entry>>

  function EntryAt(t: Tree, p: Path, i: nat): Entry {
    if p + [i] in t.node then Table(t.node[p + [i]])
    else if p + [i] in t.leaves then Page(t.leaves[p + [i]])
    else Absent
  }

  predicate Stores(tables: Tables, t: Tree, shape: Shape, p: Path) {
    && p in t.node && t.node[p] in tables
    && |tables[t.node[p]]| == shape.entries
    && forall i :: 0 <= i < shape.entries ==> tables[t.node[p]][i] == EntryAt(t, p, i)
  }

  predicate IsTable(t: Tree, f: nat) {
    exists p :: p in t.node && t.node[p] == f
  }

  /** The tables in memory are those of the tree, and no others. */
  ghost predicate Represents(tables: Tables, t: Tree, shape: Shape) {
    && (forall p :: p in t.node ==> Stores(tables, t, shape, p))
    && (forall f :: f in tables ==> IsTable(t, f))
  }

  lemma EntryOf(tables: Tables, t: Tree, shape: Shape, p: Path, i: nat)
    requires Represents(tables, t, shape) && p in t.node && i < shape.entries
    ensures t.node[p] in tables && |tables[t.node[p]]| == shape.entries
    ensures tables[t.node[p]][i] == EntryAt(t, p, i)
  {
    assert Stores(tables, t, shape, p);
  }

  lemma EntryCases(t: Tree, p: Path, i: nat)
    ensures EntryAt(t, p, i).Absent? <==> p + [i] !in t.node && p + [i] !in t.leaves
    ensures EntryAt(t, p, i).Table? <==> p + [i] in t.node
    ensures EntryAt(t, p, i).Table? ==> EntryAt(t, p, i).table == t.node[p + [i]]
    ensures EntryAt(t, p, i).Page? ==> p + [i] in t.leaves && EntryAt(t, p, i).leaf == t.leaves[p + [i]]
  {
  }

  function EmptyTable(shape: Shape): seq<Entry> {
    seq(shape.entries, (i: nat) => Absent)
  }

  // ---------------------------------------------------------------- steps

  /** A new, empty table `f` hangs on entry `i` of the table at `p`. */
  function TableAdded(t: Tree, p: Path, i: nat, f: nat): Tree {
    t.(node := t.node[p + [i] := f])
  }

  lemma AddTable(tables: Tables, t: Tree, shape: Shape, root: nat, p: Path, i: nat, f: nat)
    requires TreeOk(t, shape, root) && Represents(tables, t, shape)
    requires p in t.node && i < shape.entries && |p| + 1 < shape.levels && f !in tables
    requires EntryAt(t, p, i) == Absent
    ensures t.node[p] in tables && i < |tables[t.node[p]]|
    ensures TreeOk(TableAdded(t, p, i, f), shape, root)
    ensures Represents(tables[t.node[p] := tables[t.node[p]][i := Table(f)]][f := EmptyTable(shape)],
                       TableAdded(t, p, i, f), shape)
  {
    hide EntryAt;
    assert Stores(tables, t, shape, p);
    NotThere(t, p, i);
    AddedTreeOk(tables, t, shape, root, p, i, f);
    OwnFrames(t, shape, root, p);
    AddedTableIsEmpty(t, shape, root, p, i, f);
    AddedStores(tables, t, shape, p, i, f);
    AddedIsTable(tables, t, shape, p, i, f);
  }

  /** What memory holds after table `f` was hung on entry `i` of the table at `p`. */
  function WithTable(tables: Tables, t: Tree, shape: Shape, p: Path, i: nat, f: nat): Tables
    requires p in t.node && t.node[p] in tables && i < |tables[t.node[p]]|
  {
    tables[t.node[p] := tables[t.node[p]][i := Table(f)]][f := EmptyTable(shape)]
  }

  lemma AddedStores(tables: Tables, t: Tree, shape: Shape, p: Path, i: nat, f: nat)
    requires Represents(tables, t, shape) && p in t.node && f !in tables && p + [i] !in t.node && i < shape.entries
    requires t.node[p] in tables && i < |tables[t.node[p]]|
    requires forall q :: OwnFrame(t, p, q)
    requires forall k: nat :: EntryAt(TableAdded(t, p, i, f), p + [i], k) == Absent
    ensures forall q :: q in TableAdded(t, p, i, f).node ==>
              Stores(WithTable(tables, t, shape, p, i, f), TableAdded(t, p, i, f), shape, q)
  {
    hide EntryAt;
    var c, t' := p + [i], TableAdded(t, p, i, f);
    forall q | q in t'.node
      ensures Stores(WithTable(tables, t, shape, p, i, f), t', shape, q)
    {
      if q != c {
        assert Stores(tables, t, shape, q) && OwnFrame(t, p, q);
        AddTableElsewhere(tables, t, shape, p, i, f, q);
      }
    }
  }

  lemma AddedIsTable(tables: Tables, t: Tree, shape: Shape, p: Path, i: nat, f: nat)
    requires Represents(tables, t, shape) && p in t.node && p + [i] !in t.node
    requires t.node[p] in tables && i < |tables[t.node[p]]|
    ensures forall g :: g in WithTable(tables, t, shape, p, i, f) ==> IsTable(TableAdded(t, p, i, f), g)
  {
    hide EntryAt, Stores;
    var c, t' := p + [i], TableAdded(t, p, i, f);
    forall g | g in WithTable(tables, t, shape, p, i, f)
      ensures IsTable(t', g)
    {
      if g == f {
        assert t'.node[c] == g;
      } else {
        assert IsTable(t, g);
        var q :| q in t.node && t.node[q] == g;
        assert t'.node[q] == g;
      }
    }
  }

  lemma NotThere(t: Tree, p: Path, i: nat)
    requires EntryAt(t, p, i) == Absent
    ensures p + [i] !in t.node && p + [i] !in t.leaves
  {
  }

  lemma AddedTreeOk(tables: Tables, t: Tree, shape: Shape, root: nat, p: Path, i: nat, f: nat)
    requires TreeOk(t, shape, root) && Represents(tables, t, shape)
    requires p in t.node && i < shape.entries && |p| + 1 < shape.levels && f !in tables
    requires p + [i] !in t.node && p + [i] !in t.leaves
    ensures TreeOk(TableAdded(t, p, i, f), shape, root)
  {
    hide EntryAt;
    var c, t' := p + [i], TableAdded(t, p, i, f);
    assert Parent(c) == p;
    assert NodeOk(t, shape, p);
    forall q | q in t'.node
      ensures NodeOk(t', shape, q)
    {
      assert q != c ==> NodeOk(t, shape, q);
    }
    forall l | l in t'.leaves
      ensures LeafOk(t', shape, l)
    {
      assert LeafOk(t, shape, l);
    }
    forall q, r
      ensures OwnFrame(t', q, r)
    {
      assert OwnFrame(t, q, r);
      assert q in t.node ==> Stores(tables, t, shape, q);
      assert r in t.node ==> Stores(tables, t, shape, r);
    }
  }

  lemma AddTableElsewhere(tables: Tables, t: Tree, shape: Shape, p: Path, i: nat, f: nat, q: Path)
    requires p in t.node && i < shape.entries && f !in tables && p + [i] !in t.node
    requires Stores(tables, t, shape, p) && Stores(tables, t, shape, q) && OwnFrame(t, p, q)
    ensures Stores(tables[t.node[p] := tables[t.node[p]][i := Table(f)]][f := EmptyTable(shape)],
                   TableAdded(t, p, i, f), shape, q)
  {
    forall k: nat | k < shape.entries
      ensures EntryAt(TableAdded(t, p, i, f), q, k) == if q == p && k == i then Table(f) else EntryAt(t, q, k)
    {
      ChildrenDiffer(p, i, q, k);
    }
  }

  lemma ChildrenDiffer(p: Path, i: nat, q: Path, k: nat)
    ensures p + [i] == q + [k] <==> p == q && i == k
  {
    if p + [i] == q + [k] {
      assert (p + [i])[..|p|] == p && (q + [k])[..|q|] == q;
    }
  }

  lemma AddedTableIsEmpty(t: Tree, shape: Shape, root: nat, p: Path, i: nat, f: nat)
    requires TreeOk(t, shape, root) && p in t.node && EntryAt(t, p, i) == Absent
    ensures forall k: nat :: EntryAt(TableAdded(t, p, i, f), p + [i], k) == Absent
  {
    var c := p + [i];
    forall k: nat
      ensures EntryAt(TableAdded(t, p, i, f), c, k) == Absent
    {
      assert Parent(c + [k]) == c;
      assert c + [k] in t.node ==> NodeOk(t, shape, c + [k]);
      assert c + [k] in t.leaves ==> LeafOk(t, shape, c + [k]);
    }
  }

  /** `t'` differs from `t` only in entry `i` of the table at `p`, which is now `e`. */
  ghost predicate EntryChanged(t: Tree, t': Tree, shape: Shape, p: Path, i: nat, e: Entry) {
    && t'.node.Keys <= t.node.Keys
    && (forall q :: q in t'.node ==> t'.node[q] == t.node[q])
    && (forall q, k: nat :: q in t'.node && k < shape.entries ==>
          EntryAt(t', q, k) == if q == p && k == i then e else EntryAt(t, q, k))
  }

  /** Writing the one entry that changed. */
  lemma WriteEntry(tables: Tables, t: Tree, t': Tree, shape: Shape, p: Path, i: nat, e: Entry)
    requires p in t'.node && i < shape.entries && Represents(tables, t, shape) && EntryChanged(t, t', shape, p, i, e)
    requires forall q :: OwnFrame(t, p, q)
    ensures t.node[p] in tables && i < |tables[t.node[p]]|
    ensures forall q :: q in t'.node ==> Stores(tables[t.node[p] := tables[t.node[p]][i := e]], t', shape, q)
  {
    assert Stores(tables, t, shape, p);
    forall q | q in t'.node
      ensures Stores(tables[t.node[p] := tables[t.node[p]][i := e]], t', shape, q)
    {
      assert Stores(tables, t, shape, q) && OwnFrame(t, p, q);
    }
  }

  /** Entry `i` of the table at `p` becomes a page, or another page. */
  function LeafSet(t: Tree, p: Path, i: nat, leaf: Leaf): Tree {
    t.(leaves := t.leaves[p + [i] := leaf])
  }

  lemma SetLeaf(tables: Tables, t: Tree, shape: Shape, root: nat, p: Path, i: nat, leaf: Leaf)
    requires TreeOk(t, shape, root) && Represents(tables, t, shape)
    requires p in t.node && i < shape.entries && p + [i] !in t.node
    ensures t.node[p] in tables && i < |tables[t.node[p]]|
    ensures TreeOk(LeafSet(t, p, i, leaf), shape, root)
    ensures Represents(tables[t.node[p] := tables[t.node[p]][i := Page(leaf)]], LeafSet(t, p, i, leaf), shape)
  {
    hide EntryAt, Stores, EntryChanged;
    var t' := LeafSet(t, p, i, leaf);
    LeavesChanged(t, t', shape, root, p, i);
    ChangedBySetting(t, shape, p, i, leaf);
    OwnFrames(t, shape, root, p);
    hide TreeOk;
    WriteEntry(tables, t, t', shape, p, i, Page(leaf));
    SameFramesSameTables(tables, t, tables[t.node[p] := tables[t.node[p]][i := Page(leaf)]], t', shape);
  }

  lemma ChangedBySetting(t: Tree, shape: Shape, p: Path, i: nat, leaf: Leaf)
    requires p + [i] !in t.node
    ensures EntryChanged(t, LeafSet(t, p, i, leaf), shape, p, i, Page(leaf))
  {
    forall q, k: nat | q in t.node && k < shape.entries
      ensures EntryAt(LeafSet(t, p, i, leaf), q, k) == if q == p && k == i then Page(leaf) else EntryAt(t, q, k)
    {
      ChildrenDiffer(p, i, q, k);
    }
  }

  lemma ChangedByClearing(t: Tree, shape: Shape, p: Path, i: nat)
    requires p + [i] !in t.node
    ensures EntryChanged(t, LeafCleared(t, p, i), shape, p, i, Absent)
  {
    forall q, k: nat | q in t.node && k < shape.entries
      ensures EntryAt(LeafCleared(t, p, i), q, k) == if q == p && k == i then Absent else EntryAt(t, q, k)
    {
      ChildrenDiffer(p, i, q, k);
    }
  }

  lemma ChangedByRemoval(t: Tree, shape: Shape, p: Path, i: nat)
    requires p + [i] !in t.leaves
    ensures EntryChanged(t, TableRemoved(t, p, i), shape, p, i, Absent)
  {
    forall q, k: nat | q in t.node && k < shape.entries
      ensures EntryAt(TableRemoved(t, p, i), q, k) == if q == p && k == i then Absent else EntryAt(t, q, k)
    {
      ChildrenDiffer(p, i, q, k);
    }
  }

  lemma OwnFrames(t: Tree, shape: Shape, root: nat, p: Path)
    requires TreeOk(t, shape, root)
    ensures forall q :: OwnFrame(t, p, q)
  {
  }

  function LeafCleared(t: Tree, p: Path, i: nat): Tree {
    t.(leaves := t.leaves - {p + [i]})
  }

  lemma ClearLeaf(tables: Tables, t: Tree, shape: Shape, root: nat, p: Path, i: nat)
    requires TreeOk(t, shape, root) && Represents(tables, t, shape)
    requires p in t.node && i < shape.entries && p + [i] in t.leaves
    ensures t.node[p] in tables && i < |tables[t.node[p]]|
    ensures TreeOk(LeafCleared(t, p, i), shape, root)
    ensures Represents(tables[t.node[p] := tables[t.node[p]][i := Absent]], LeafCleared(t, p, i), shape)
  {
    hide EntryAt, Stores, EntryChanged;
    var t' := LeafCleared(t, p, i);
    NotBoth(t, shape, root, p + [i]);
    LeavesChanged(t, t', shape, root, p, i);
    ChangedByClearing(t, shape, p, i);
    OwnFrames(t, shape, root, p);
    hide TreeOk;
    WriteEntry(tables, t, t', shape, p, i, Absent);
    SameFramesSameTables(tables, t, tables[t.node[p] := tables[t.node[p]][i := Absent]], t', shape);
  }

  lemma NotBoth(t: Tree, shape: Shape, root: nat, p: Path)
    requires TreeOk(t, shape, root)
    ensures p !in t.node || p !in t.leaves
  {
    assert p in t.node ==> NodeOk(t, shape, p);
  }

  lemma LeavesChanged(t: Tree, t': Tree, shape: Shape, root: nat, p: Path, i: nat)
    requires TreeOk(t, shape, root) && t'.node == t.node && p in t.node && i < shape.entries && p + [i] !in t.node
    requires t'.leaves - {p + [i]} == t.leaves - {p + [i]}
    ensures TreeOk(t', shape, root)
  {
    var c := p + [i];
    assert Parent(c) == p && NodeOk(t, shape, p);
    forall q | q in t'.node
      ensures NodeOk(t', shape, q)
    {
      assert NodeOk(t, shape, q);
      assert q in t'.leaves ==> q in t'.leaves - {c};
    }
    forall l | l in t'.leaves
      ensures LeafOk(t', shape, l)
    {
      if l != c {
        assert l in t'.leaves - {c};
        assert LeafOk(t, shape, l);
      }
    }
    forall q, r
      ensures OwnFrame(t', q, r)
    {
      assert OwnFrame(t, q, r);
    }
  }

  lemma SameFramesSameTables(tables: Tables, t: Tree, tables': Tables, t': Tree, shape: Shape)
    requires Represents(tables, t, shape) && t'.node == t.node && tables'.Keys == tables.Keys
    ensures forall f :: f in tables' ==> IsTable(t', f)
  {
    forall f | f in tables'
      ensures IsTable(t', f)
    {
      assert IsTable(t, f);
    }
  }

  function TableRemoved(t: Tree, p: Path, i: nat): Tree {
    t.(node := t.node - {p + [i]})
  }

  /** Nothing hangs on the table at `p`. */
  ghost predicate IsEmpty(t: Tree, p: Path) {
    forall k: nat :: EntryAt(t, p, k) == Absent
  }

  lemma RemoveTable(tables: Tables, t: Tree, shape: Shape, root: nat, p: Path, i: nat)
    requires TreeOk(t, shape, root) && Represents(tables, t, shape)
    requires p in t.node && i < shape.entries && p + [i] in t.node && IsEmpty(t, p + [i])
    ensures t.node[p] in tables && i < |tables[t.node[p]]| && t.node[p + [i]] != root
    ensures TreeOk(TableRemoved(t, p, i), shape, root)
    ensures Represents(tables[t.node[p] := tables[t.node[p]][i := Absent]] - {t.node[p + [i]]}, TableRemoved(t, p, i),
                       shape)
  {
    hide EntryAt, EntryChanged, Stores;
    var c, t' := p + [i], TableRemoved(t, p, i);
    RemovedTreeOk(t, shape, root, p, i);
    NotBoth(t, shape, root, c);
    OwnFrames(t, shape, root, c);
    OwnFrames(t, shape, root, p);
    assert OwnFrame(t, c, []);
    hide TreeOk, IsEmpty;
    ChangedByRemoval(t, shape, p, i);
    WriteEntry(tables, t, t', shape, p, i, Absent);
    FrameGone(tables, tables[t.node[p] := tables[t.node[p]][i := Absent]], t, t', shape, c);
  }

  lemma FrameGone(tables: Tables, written: Tables, t: Tree, t': Tree, shape: Shape, c: Path)
    requires Represents(tables, t, shape) && c in t.node && t' == t.(node := t.node - {c})
    requires forall q :: q in t'.node ==> Stores(written, t', shape, q)
    requires written.Keys == tables.Keys && forall q :: OwnFrame(t, c, q)
    ensures Represents(written - {t.node[c]}, t', shape)
  {
    hide EntryAt;
    var tables' := written - {t.node[c]};
    forall q | q in t'.node
      ensures Stores(tables', t', shape, q)
    {
      assert Stores(written, t', shape, q) && OwnFrame(t, c, q);
    }
    forall g | g in tables'
      ensures IsTable(t', g)
    {
      assert IsTable(t, g);
      var q :| q in t.node && t.node[q] == g;
      assert t'.node[q] == g;
    }
  }

  /** Nothing hangs on an empty table. */
  lemma NoChildren(t: Tree, c: Path, q: Path)
    requires IsEmpty(t, c) && q != [] && (q in t.node || q in t.leaves)
    ensures Parent(q) != c
  {
    assert q == Parent(q) + [q[|q| - 1]];
    assert EntryAt(t, c, q[|q| - 1]) == Absent;
  }

  lemma RemovedTreeOk(t: Tree, shape: Shape, root: nat, p: Path, i: nat)
    requires TreeOk(t, shape, root) && p in t.node && p + [i] in t.node && IsEmpty(t, p + [i])
    ensures TreeOk(TableRemoved(t, p, i), shape, root)
  {
    hide EntryAt, IsEmpty, PathOk;
    var c, t' := p + [i], TableRemoved(t, p, i);
    forall q | q in t'.node
      ensures NodeOk(t', shape, q)
    {
      assert NodeOk(t, shape, q);
      if q != [] {
        NoChildren(t, c, q);
      }
    }
    forall l | l in t'.leaves
      ensures LeafOk(t', shape, l)
    {
      assert LeafOk(t, shape, l);
      NoChildren(t, c, l);
    }
    forall q, r
      ensures OwnFrame(t', q, r)
    {
      assert OwnFrame(t, q, r);
    }
  }
}
