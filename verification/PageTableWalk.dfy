/** Translation by walking the tables, against looking the address up in a finite map. */
module PageTableWalk {
  import opened Prelude
  import opened UserMemory
  import opened PageTableTree

  /** What the hardware finds: the level and contents of the leaf. */
  function Walk(tables: Tables, table: nat, path: Path, level: nat): Option<(nat, Leaf)>
    decreases |path| - level
  {
    if level >= |path| || table !in tables || path[level] >= |tables[table]| then None
    else
      match tables[table][path[level]]
      case Absent => None
      case Page(leaf) => Some((level, leaf))
      case Table(next) => Walk(tables, next, path, level + 1)
  }

  /** The first prefix of `path`, longer than `level`, that is in the map. */
  function Lookup(leaves: map<Path, Leaf>, path: Path, level: nat): Option<(nat, Leaf)>
    decreases |path| - level
  {
    if level >= |path| then None
    else if path[..level + 1] in leaves then Some((level, leaves[path[..level + 1]]))
    else Lookup(leaves, path, level + 1)
  }

  lemma {:induction false} LookupNothing(leaves: map<Path, Leaf>, path: Path, level: nat)
    requires forall n :: level < n <= |path| ==> path[..n] !in leaves
    ensures Lookup(leaves, path, level) == None
    decreases |path| - level
  {
    if level < |path| {
      LookupNothing(leaves, path, level + 1);
    }
  }

  lemma {:induction false} LookupFinds(leaves: map<Path, Leaf>, path: Path, level: nat, n: nat)
    requires level < n <= |path| && path[..n] in leaves
    requires forall k :: level < k < n ==> path[..k] !in leaves
    ensures Lookup(leaves, path, level) == Some((n - 1, leaves[path[..n]]))
    decreases |path| - level
  {
    if level + 1 < n {
      LookupFinds(leaves, path, level + 1, n);
    }
  }

  lemma {:induction false} LookupAgrees(leaves: map<Path, Leaf>, leaves': map<Path, Leaf>, path: Path, level: nat)
    requires forall n :: level < n <= |path| ==>
               (path[..n] in leaves <==> path[..n] in leaves')
               && (path[..n] in leaves ==> leaves[path[..n]] == leaves'[path[..n]])
    ensures Lookup(leaves, path, level) == Lookup(leaves', path, level)
    decreases |path| - level
  {
    if level < |path| {
      LookupAgrees(leaves, leaves', path, level + 1);
    }
  }

  /** Where the walk finds nothing, the map has nothing further down. */
  lemma AbsentMeansNothing(t: Tree, shape: Shape, root: nat, path: Path, level: nat)
    requires TreeOk(t, shape, root) && level < |path|
    requires path[..level + 1] !in t.node && path[..level + 1] !in t.leaves
    ensures Lookup(t.leaves, path, level) == None
  {
    forall n | level < n <= |path|
      ensures path[..n] !in t.leaves
    {
      if level + 1 < n && path[..n] in t.leaves {
        assert LeafOk(t, shape, path[..n]);
        assert Parent(path[..n]) == path[..n - 1];
        assert path[..n - 1][..level + 1] == path[..level + 1];
        NodesArePrefixClosed(t, shape, root, path[..n - 1], level + 1);
      }
    }
    LookupNothing(t.leaves, path, level);
  }

  /** One step of the walk, by what the entry holds. */
  lemma WalkStep(tables: Tables, table: nat, path: Path, level: nat, e: Entry)
    requires level < |path| && table in tables && path[level] < |tables[table]| && tables[table][path[level]] == e
    ensures e.Absent? ==> Walk(tables, table, path, level) == None
    ensures e.Page? ==> Walk(tables, table, path, level) == Some((level, e.leaf))
    ensures e.Table? ==> Walk(tables, table, path, level) == Walk(tables, e.table, path, level + 1)
  {
  }

  lemma LookupStep(leaves: map<Path, Leaf>, path: Path, level: nat)
    requires level < |path|
    ensures path[..level + 1] in leaves ==> Lookup(leaves, path, level) == Some((level, leaves[path[..level + 1]]))
    ensures path[..level + 1] !in leaves ==> Lookup(leaves, path, level) == Lookup(leaves, path, level + 1)
  {
  }

  lemma Prefixed(path: Path, level: nat)
    requires level < |path|
    ensures path[..level] + [path[level]] == path[..level + 1]
  {
  }

  lemma TableIsNode(t: Tree, shape: Shape, root: nat, p: Path)
    requires TreeOk(t, shape, root) && p in t.node
    ensures |p| < shape.levels && p !in t.leaves
  {
    assert NodeOk(t, shape, p);
  }

  /** The walk through memory is the lookup in the map. */
  lemma {:induction false} WalkIsLookup(tables: Tables, t: Tree, shape: Shape, root: nat, path: Path, level: nat)
    requires TreeOk(t, shape, root) && Represents(tables, t, shape)
    requires PathOk(path, shape) && |path| == shape.levels && level < |path| && path[..level] in t.node
    ensures Walk(tables, t.node[path[..level]], path, level) == Lookup(t.leaves, path, level)
    decreases |path| - level
  {
    hide TreeOk, Represents, EntryAt, Stores, NodeOk, LeafOk, OwnFrame, IsTable, Walk, Lookup;
    var p, i, q := path[..level], path[level], path[..level + 1];
    Prefixed(path, level);
    EntryOf(tables, t, shape, p, i);
    EntryCases(t, p, i);
    WalkStep(tables, t.node[p], path, level, EntryAt(t, p, i));
    LookupStep(t.leaves, path, level);
    if q in t.node {
      TableIsNode(t, shape, root, q);
      WalkIsLookup(tables, t, shape, root, path, level + 1);
    } else if q !in t.leaves {
      AbsentMeansNothing(t, shape, root, path, level);
    }
  }

  /** Translation by the tables of the tree. */
  lemma TranslationIsLookup(tables: Tables, t: Tree, shape: Shape, root: nat, path: Path)
    requires TreeOk(t, shape, root) && Represents(tables, t, shape)
    requires PathOk(path, shape) && |path| == shape.levels
    ensures Walk(tables, root, path, 0) == Lookup(t.leaves, path, 0)
  {
    assert path[..0] == [];
    if path == [] {
    } else {
      WalkIsLookup(tables, t, shape, root, path, 0);
    }
  }

  /** Setting the leaf at `l` translates everything below `l` to it and nothing else anew. */
  lemma LookupAfterSet(t: Tree, shape: Shape, root: nat, l: Path, leaf: Leaf, path: Path)
    requires TreeOk(t, shape, root) && l != [] && Parent(l) in t.node && |l| <= |path|
    ensures Lookup(t.leaves[l := leaf], path, 0) ==
            if l <= path then Some((|l| - 1, leaf)) else Lookup(t.leaves, path, 0)
  {
    if l <= path {
      assert path[..|l|] == l;
      forall k | 0 < k < |l|
        ensures path[..k] !in t.leaves[l := leaf]
      {
        assert Parent(l)[..k] == path[..k];
        NodePrefixIsNoLeaf(t, shape, root, Parent(l), k);
      }
      LookupFinds(t.leaves[l := leaf], path, 0, |l|);
    } else {
      LookupAgrees(t.leaves, t.leaves[l := leaf], path, 0);
    }
  }

  lemma LookupAfterClear(t: Tree, shape: Shape, root: nat, l: Path, path: Path)
    requires TreeOk(t, shape, root) && l in t.leaves && |l| <= |path|
    ensures Lookup(t.leaves - {l}, path, 0) == if l <= path then None else Lookup(t.leaves, path, 0)
  {
    hide Lookup, TreeOk;
    if l <= path {
      forall k | 0 < k <= |path|
        ensures path[..k] !in t.leaves - {l}
      {
        if path[..k] in t.leaves {
          OnlyLeafOnPath(t, shape, root, l, path, k);
        }
      }
      LookupNothing(t.leaves - {l}, path, 0);
    } else {
      assert forall n :: 0 < n <= |path| ==> path[..n] != l;
      LookupAgrees(t.leaves, t.leaves - {l}, path, 0);
    }
  }

  /** A page is the only one on the path to it and beyond. */
  lemma OnlyLeafOnPath(t: Tree, shape: Shape, root: nat, l: Path, path: Path, k: nat)
    requires TreeOk(t, shape, root) && l in t.leaves && l <= path && k <= |path| && path[..k] in t.leaves
    ensures path[..k] == l
  {
    assert LeafOk(t, shape, l);
    assert path[..|l|] == l;
    if k < |l| {
      assert Parent(l)[..k] == path[..k];
      NodePrefixIsNoLeaf(t, shape, root, Parent(l), k);
    } else if |l| < k {
      LeafEndsThePath(t, shape, root, path, |l|, k);
    }
  }

  // ---------------------------------------------------------------- empty tables

  ghost predicate HoldsSomething(t: Tree, p: Path) {
    exists k: nat :: EntryAt(t, p, k) != Absent
  }

  /** Every table but the root and, possibly, the one at `except` holds something. */
  ghost predicate NoEmptyTables(t: Tree, except: Path) {
    forall p :: p in t.node && p != [] && p != except ==> HoldsSomething(t, p)
  }

  predicate LeafBelow(t: Tree, p: Path, l: Path) {
    l in t.leaves && p <= l && p != l
  }

  /** A table that is not empty leads to a page. */
  lemma {:induction false} LeadsToLeaf(t: Tree, shape: Shape, root: nat, p: Path) returns (l: Path)
    requires TreeOk(t, shape, root) && NoEmptyTables(t, []) && p in t.node && p != []
    ensures LeafBelow(t, p, l)
    decreases shape.levels - |p|
  {
    assert NodeOk(t, shape, p);
    assert HoldsSomething(t, p);
    var k: nat :| EntryAt(t, p, k) != Absent;
    var c := p + [k];
    if c in t.node {
      assert NodeOk(t, shape, c);
      l := LeadsToLeaf(t, shape, root, c);
    } else {
      l := c;
    }
  }

  /** Without empty tables, the tables are exactly those that the pages need. */
  lemma TablesAreNeeded(t: Tree, shape: Shape, root: nat, p: Path)
    requires TreeOk(t, shape, root) && NoEmptyTables(t, [])
    ensures p in t.node <==> p == [] || exists l :: LeafBelow(t, p, l)
  {
    if p in t.node && p != [] {
      var l := LeadsToLeaf(t, shape, root, p);
    }
    if l :| LeafBelow(t, p, l) {
      assert LeafOk(t, shape, l);
      assert Parent(l)[..|p|] == p;
      NodesArePrefixClosed(t, shape, root, Parent(l), |p|);
    }
  }

  /** Two trees with the same pages and no empty tables, one of which grew out of the other, are
      the same. */
  lemma SamePagesSameTree(t: Tree, u: Tree, shape: Shape, root: nat)
    requires TreeOk(t, shape, root) && NoEmptyTables(t, []) && TreeOk(u, shape, root) && NoEmptyTables(u, [])
    requires t.leaves == u.leaves
    requires forall p :: p in t.node && p in u.node ==> t.node[p] == u.node[p]
    ensures t == u
  {
    forall p
      ensures p in t.node <==> p in u.node
    {
      TablesAreNeeded(t, shape, root, p);
      TablesAreNeeded(u, shape, root, p);
      assert forall l :: LeafBelow(t, p, l) <==> LeafBelow(u, p, l);
    }
    assert t.node == u.node;
  }

  /** A tree has one representation in memory. */
  lemma SameTreeSameTables(tables: Tables, tables': Tables, t: Tree, shape: Shape)
    requires Represents(tables, t, shape) && Represents(tables', t, shape)
    ensures tables == tables'
  {
    StoredAlike(tables, tables', t, shape);
    StoredAlike(tables', tables, t, shape);
  }

  lemma StoredAlike(tables: Tables, tables': Tables, t: Tree, shape: Shape)
    requires Represents(tables, t, shape) && Represents(tables', t, shape)
    ensures forall f :: f in tables ==> f in tables' && tables[f] == tables'[f]
  {
    forall f | f in tables
      ensures f in tables' && tables[f] == tables'[f]
    {
      assert IsTable(t, f);
      var p :| p in t.node && t.node[p] == f;
      assert Stores(tables, t, shape, p) && Stores(tables', t, shape, p);
    }
  }

  lemma ClearMayEmptyOne(t: Tree, shape: Shape, root: nat, p: Path, i: nat)
    requires TreeOk(t, shape, root) && NoEmptyTables(t, []) && p in t.node && p + [i] !in t.node
    ensures NoEmptyTables(LeafCleared(t, p, i), p)
  {
    var t' := LeafCleared(t, p, i);
    forall q | q in t'.node && q != [] && q != p
      ensures HoldsSomething(t', q)
    {
      assert HoldsSomething(t, q);
      var k: nat :| EntryAt(t, q, k) != Absent;
      ChildrenDiffer(p, i, q, k);
      assert EntryAt(t', q, k) == EntryAt(t, q, k);
    }
  }

  lemma RemovalMayEmptyOne(t: Tree, p: Path, i: nat)
    requires NoEmptyTables(t, p + [i])
    ensures NoEmptyTables(TableRemoved(t, p, i), p)
  {
    var t' := TableRemoved(t, p, i);
    forall q | q in t'.node && q != [] && q != p
      ensures HoldsSomething(t', q)
    {
      assert HoldsSomething(t, q);
      var k: nat :| EntryAt(t, q, k) != Absent;
      RemovedElsewhere(t, p, i, q, k);
    }
  }

  lemma RemovedElsewhere(t: Tree, p: Path, i: nat, q: Path, k: nat)
    requires q != p
    ensures EntryAt(TableRemoved(t, p, i), q, k) == EntryAt(t, q, k)
  {
    ChildrenDiffer(p, i, q, k);
  }

  /** A new table is empty, but its parent is not any more. */
  lemma AdditionMayEmptyOne(t: Tree, shape: Shape, root: nat, p: Path, i: nat, f: nat)
    requires TreeOk(t, shape, root) && NoEmptyTables(t, p) && p in t.node && EntryAt(t, p, i) == Absent
    ensures NoEmptyTables(TableAdded(t, p, i, f), p + [i])
  {
    var t' := TableAdded(t, p, i, f);
    assert EntryAt(t', p, i) == Table(f);
    forall q | q in t'.node && q != [] && q != p + [i] && q != p
      ensures HoldsSomething(t', q)
    {
      assert HoldsSomething(t, q);
      var k: nat :| EntryAt(t, q, k) != Absent;
      ChildrenDiffer(p, i, q, k);
      assert EntryAt(t', q, k) == EntryAt(t, q, k);
    }
  }

  lemma SettingEmptiesNone(t: Tree, shape: Shape, root: nat, p: Path, i: nat, leaf: Leaf)
    requires TreeOk(t, shape, root) && NoEmptyTables(t, p) && p in t.node && p + [i] !in t.node
    ensures NoEmptyTables(LeafSet(t, p, i, leaf), [])
  {
    var t' := LeafSet(t, p, i, leaf);
    assert EntryAt(t', p, i) == Page(leaf);
    forall q | q in t'.node && q != [] && q != p
      ensures HoldsSomething(t', q)
    {
      assert HoldsSomething(t, q);
      var k: nat :| EntryAt(t, q, k) != Absent;
      ChildrenDiffer(p, i, q, k);
      assert EntryAt(t', q, k) == EntryAt(t, q, k);
    }
  }
}
