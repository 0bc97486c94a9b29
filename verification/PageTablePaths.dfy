/** The tables along one path: which a mapping has to make, which pruning takes away, and when the two
    cancel out. */
module PageTablePaths {
  import opened Prelude
  import opened PageTableTree
  import opened PageTableWalk

  /** `u` has the tables of `t`, in the same frames, and possibly more. */
  ghost predicate Extends(t: Tree, u: Tree) {
    forall p :: p in t.node ==> p in u.node && u.node[p] == t.node[p]
  }

  /** The prefixes of `path` of length at most `n`. */
  function PrefixesTo(path: Path, n: nat): set<Path>
    requires n <= |path|
  {
    set k | 0 <= k <= n :: path[..k]
  }

  lemma PrefixIn(path: Path, n: nat, k: nat)
    requires k <= |path| && n <= |path|
    ensures path[..k] in PrefixesTo(path, n) <==> k <= n
  {
    assert forall x :: x in PrefixesTo(path, n) ==> |x| <= n;
  }

  /** How many tables are missing on the way to `path[..n]`. */
  function Missing(t: Tree, path: Path, n: nat): nat
    requires n <= |path|
  {
    if n == 0 then 0 else Missing(t, path, n - 1) + if path[..n] in t.node then 0 else 1
  }

  lemma {:induction false} MissingGrows(t: Tree, path: Path, m: nat, n: nat)
    requires m <= n <= |path|
    ensures Missing(t, path, m) <= Missing(t, path, n)
    decreases n
  {
    if m < n {
      MissingGrows(t, path, m, n - 1);
    }
  }

  /** `t` without the tables on `path` below `top` and down to `bottom`. */
  function WithoutTables(t: Tree, path: Path, top: nat, bottom: nat): Tree
    requires top <= bottom <= |path|
  {
    t.(node := t.node - (PrefixesTo(path, bottom) - PrefixesTo(path, top)))
  }

  lemma WithoutNone(t: Tree, path: Path, n: nat)
    requires n <= |path|
    ensures WithoutTables(t, path, n, n) == t
  {
  }

  lemma WithoutOneMore(t: Tree, path: Path, top: nat, bottom: nat)
    requires 0 < top <= bottom <= |path|
    ensures WithoutTables(t, path, top - 1, bottom) ==
            WithoutTables(t, path, top, bottom).(node := WithoutTables(t, path, top, bottom).node - {path[..top]})
  {
    forall k | 0 <= k <= |path|
      ensures path[..k] in PrefixesTo(path, bottom) <==> k <= bottom
      ensures path[..k] in PrefixesTo(path, top) <==> k <= top
      ensures path[..k] in PrefixesTo(path, top - 1) <==> k <= top - 1
    {
      PrefixIn(path, bottom, k);
      PrefixIn(path, top, k);
      PrefixIn(path, top - 1, k);
    }
    assert PrefixesTo(path, top) == PrefixesTo(path, top - 1) + {path[..top]};
    assert path[..top] !in PrefixesTo(path, top - 1);
    assert PrefixesTo(path, bottom) - PrefixesTo(path, top - 1) ==
           PrefixesTo(path, bottom) - PrefixesTo(path, top) + {path[..top]};
  }

  /** No table on the way to `path[..n]` but the root is empty. */
  ghost predicate NoneEmptyOn(t: Tree, path: Path, n: nat)
    requires n <= |path|
  {
    forall k :: 0 < k <= n && path[..k] in t.node ==> !IsEmpty(t, path[..k])
  }

  /** What is left when tables were made down to `bottom` and those below `top` taken away again, the one at
      `top` not being empty. */
  ghost predicate MadeAndPruned(t: Tree, u: Tree, path: Path, top: nat, bottom: nat)
    requires top <= bottom <= |path|
  {
    && u.leaves == t.leaves && (top > 0 ==> !IsEmpty(u, path[..top]))
    && u.node.Keys == t.node.Keys + PrefixesTo(path, bottom) - (PrefixesTo(path, bottom) - PrefixesTo(path, top))
    && (forall p :: p in t.node && p in u.node ==> t.node[p] == u.node[p])
  }

  /** The path's tables after making and pruning: down to `top`. */
  lemma MadeAndPrunedOn(t: Tree, u: Tree, path: Path, top: nat, bottom: nat, k: nat)
    requires top <= bottom <= |path| && MadeAndPruned(t, u, path, top, bottom) && k <= bottom
    ensures path[..k] in u.node <==> k <= top
  {
    PrefixIn(path, bottom, k);
    PrefixIn(path, top, k);
  }

  lemma HasParent(t: Tree, shape: Shape, root: nat, p: Path, i: nat)
    requires TreeOk(t, shape, root) && EntryAt(t, p, i) != Absent
    ensures p in t.node
  {
    assert Parent(p + [i]) == p;
    assert p + [i] in t.node ==> NodeOk(t, shape, p + [i]);
    assert p + [i] in t.leaves ==> LeafOk(t, shape, p + [i]);
  }

  /** Pruning goes up at least to where the tables ended before. */
  lemma NothingMadeStays(t: Tree, u: Tree, shape: Shape, root: nat, path: Path, top: nat, bottom: nat)
    requires TreeOk(t, shape, root) && top <= bottom <= |path| && MadeAndPruned(t, u, path, top, bottom)
    ensures path[..top] in t.node
  {
    if top > 0 {
      var i: nat :| EntryAt(u, path[..top], i) != Absent;
      if path[..top] + [i] in u.node {
        ChildOnPath(t, u, path, top, bottom, path[..top] + [i]);
      }
      HasParent(t, shape, root, path[..top], i);
    }
  }

  lemma ChildOnPath(t: Tree, u: Tree, path: Path, top: nat, bottom: nat, child: Path)
    requires top <= bottom <= |path| && MadeAndPruned(t, u, path, top, bottom)
    requires child in u.node && |child| == top + 1
    ensures child in t.node
  {
    if child in PrefixesTo(path, bottom) {
      MadeAndPrunedOn(t, u, path, top, bottom, top + 1);
    }
  }

  /** Making and pruning cancel out exactly if no table on the way was empty before. */
  lemma RestoredExactly(t: Tree, u: Tree, shape: Shape, root: nat, path: Path, top: nat, bottom: nat)
    requires TreeOk(t, shape, root) && TreeOk(u, shape, root) && top <= bottom <= |path|
    requires MadeAndPruned(t, u, path, top, bottom)
    ensures t == u <==> NoneEmptyOn(t, path, bottom)
  {
    NothingMadeStays(t, u, shape, root, path, top, bottom);
    if t == u {
      RestoredMeansNone(t, shape, root, path, top, bottom);
    }
    if NoneEmptyOn(t, path, bottom) {
      forall k | 0 <= k <= bottom
        ensures path[..k] in t.node <==> k <= top
      {
        TablesEndAt(t, u, shape, root, path, top, bottom, k);
      }
      forall p
        ensures p in u.node <==> p in t.node
      {
        if p in PrefixesTo(path, bottom) {
          MadeAndPrunedOn(t, u, path, top, bottom, |p|);
        }
      }
      assert u.node == t.node;
    }
  }

  lemma TablesEndAt(t: Tree, u: Tree, shape: Shape, root: nat, path: Path, top: nat, bottom: nat, k: nat)
    requires TreeOk(t, shape, root) && TreeOk(u, shape, root) && top <= bottom <= |path| && k <= bottom
    requires MadeAndPruned(t, u, path, top, bottom) && path[..top] in t.node && NoneEmptyOn(t, path, bottom)
    ensures path[..k] in t.node <==> k <= top
  {
    hide MadeAndPruned, NoneEmptyOn, TreeOk;
    if k <= top {
      NodesArePrefixClosed(t, shape, root, path[..top], k);
      assert path[..top][..k] == path[..k];
    } else if path[..k] in t.node {
      StillThere(t, u, shape, root, path, top, bottom, k);
      MadeAndPrunedOn(t, u, path, top, bottom, k);
    }
  }

  /** A table that was there and was not empty is there still, for the sake of what it holds. */
  lemma {:induction false} StillThere(t: Tree, u: Tree, shape: Shape, root: nat, path: Path, top: nat, bottom: nat,
                                      k: nat)
    requires TreeOk(t, shape, root) && TreeOk(u, shape, root) && top <= bottom <= |path| && 0 < k <= bottom
    requires MadeAndPruned(t, u, path, top, bottom) && NoneEmptyOn(t, path, bottom) && path[..k] in t.node
    ensures path[..k] in u.node
    decreases bottom - k
  {
    hide TreeOk, MadeAndPruned, PrefixesTo, EntryAt;
    assert !IsEmpty(t, path[..k]);
    var i: nat :| EntryAt(t, path[..k], i) != Absent;
    EntryCases(t, path[..k], i);
    EntryCases(u, path[..k], i);
    ChildKept(t, u, path, top, bottom, k, i);
    if path[..k] + [i] !in u.node && path[..k] + [i] !in u.leaves {
      StillThere(t, u, shape, root, path, top, bottom, k + 1);
    }
    HasParent(u, shape, root, path[..k], i);
  }

  lemma ChildKept(t: Tree, u: Tree, path: Path, top: nat, bottom: nat, k: nat, i: nat)
    requires top <= bottom <= |path| && MadeAndPruned(t, u, path, top, bottom) && k <= bottom
    requires path[..k] + [i] in t.node || path[..k] + [i] in t.leaves
    ensures path[..k] + [i] in u.node || path[..k] + [i] in u.leaves
         || (k < bottom && path[..k] + [i] == path[..k + 1] && path[..k + 1] in t.node)
  {
    var child := path[..k] + [i];
    if child in PrefixesTo(path, bottom) {
      assert |child| == k + 1;
      assert child == path[..k + 1];
    }
  }

  lemma RestoredMeansNone(t: Tree, shape: Shape, root: nat, path: Path, top: nat, bottom: nat)
    requires TreeOk(t, shape, root) && top <= bottom <= |path| && MadeAndPruned(t, t, path, top, bottom)
    ensures NoneEmptyOn(t, path, bottom)
  {
    hide TreeOk, IsEmpty;
    forall k | 0 < k <= bottom && path[..k] in t.node
      ensures !IsEmpty(t, path[..k])
    {
      MadeAndPrunedOn(t, t, path, top, bottom, k);
      if k < top {
        MadeAndPrunedOn(t, t, path, top, bottom, k + 1);
        LeadsOn(t, path, k);
      }
    }
  }

  lemma LeadsOn(t: Tree, path: Path, k: nat)
    requires k < |path| && path[..k + 1] in t.node
    ensures !IsEmpty(t, path[..k])
  {
    assert path[..k] + [path[k]] == path[..k + 1];
    assert EntryAt(t, path[..k], path[k]) != Absent;
  }

  /** Memory determines the tree. */
  lemma SameTablesSameTree(tables: Tables, t: Tree, u: Tree, shape: Shape, root: nat)
    requires TreeOk(t, shape, root) && TreeOk(u, shape, root) && Represents(tables, t, shape)
             && Represents(tables, u, shape)
    ensures t == u
  {
    forall p | p in t.node
      ensures p in u.node && u.node[p] == t.node[p]
    {
      SameNode(tables, t, u, shape, root, p);
    }
    forall p | p in u.node
      ensures p in t.node
    {
      SameNode(tables, u, t, shape, root, p);
    }
    assert t.node == u.node;
    forall l | l in t.leaves
      ensures l in u.leaves && u.leaves[l] == t.leaves[l]
    {
      SameLeaf(tables, t, u, shape, root, l);
    }
    forall l | l in u.leaves
      ensures l in t.leaves
    {
      SameLeaf(tables, u, t, shape, root, l);
    }
    assert t.leaves == u.leaves;
  }

  lemma {:induction false} SameNode(tables: Tables, t: Tree, u: Tree, shape: Shape, root: nat, p: Path)
    requires TreeOk(t, shape, root) && TreeOk(u, shape, root) && Represents(tables, t, shape)
             && Represents(tables, u, shape)
    requires p in t.node
    ensures p in u.node && u.node[p] == t.node[p]
    decreases |p|
  {
    hide TreeOk, Represents, EntryAt;
    RootOf(t, shape, root);
    RootOf(u, shape, root);
    if p != [] {
      ParentOf(t, shape, root, p);
      SameNode(tables, t, u, shape, root, Parent(p));
      EntryOf(tables, t, shape, Parent(p), p[|p| - 1]);
      EntryOf(tables, u, shape, Parent(p), p[|p| - 1]);
      EntryCases(t, Parent(p), p[|p| - 1]);
      EntryCases(u, Parent(p), p[|p| - 1]);
    }
  }

  lemma RootOf(t: Tree, shape: Shape, root: nat)
    requires TreeOk(t, shape, root)
    ensures [] in t.node && t.node[[]] == root
  {
  }

  lemma ParentOf(t: Tree, shape: Shape, root: nat, p: Path)
    requires TreeOk(t, shape, root) && p != [] && (p in t.node || p in t.leaves)
    ensures Parent(p) in t.node && p[|p| - 1] < shape.entries && Parent(p) + [p[|p| - 1]] == p
    ensures p in t.leaves ==> p !in t.node
  {
    hide OwnFrame, NodeOk, LeafOk, PathOk;
    if p in t.node {
      assert NodeOk(t, shape, p);
    } else {
      assert LeafOk(t, shape, p);
    }
    EntryOfParent(t, shape, p);
  }

  lemma EntryOfParent(t: Tree, shape: Shape, p: Path)
    requires p != [] && (NodeOk(t, shape, p) || LeafOk(t, shape, p))
    ensures Parent(p) in t.node && p[|p| - 1] < shape.entries && Parent(p) + [p[|p| - 1]] == p
    ensures NodeOk(t, shape, p) ==> p !in t.leaves
  {
  }

  lemma SameLeaf(tables: Tables, t: Tree, u: Tree, shape: Shape, root: nat, l: Path)
    requires TreeOk(t, shape, root) && TreeOk(u, shape, root) && Represents(tables, t, shape)
             && Represents(tables, u, shape)
    requires t.node == u.node && l in t.leaves
    ensures l in u.leaves && u.leaves[l] == t.leaves[l]
  {
    hide TreeOk, Represents, EntryAt;
    assert l != [] by {
      LeafIsNoRoot(t, shape, root, l);
    }
    ParentOf(t, shape, root, l);
    EntryOf(tables, t, shape, Parent(l), l[|l| - 1]);
    EntryOf(tables, u, shape, Parent(l), l[|l| - 1]);
    EntryCases(t, Parent(l), l[|l| - 1]);
    EntryCases(u, Parent(l), l[|l| - 1]);
  }

  lemma LeafIsNoRoot(t: Tree, shape: Shape, root: nat, l: Path)
    requires TreeOk(t, shape, root) && l in t.leaves
    ensures l != []
  {
    assert LeafOk(t, shape, l);
  }
}
