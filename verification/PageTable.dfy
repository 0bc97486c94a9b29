/** The multi-level page table of an address space, over any architecture. */
module PageTable {
  import opened Prelude
  import U = UserMemory
  import opened PageTableTree
  import opened PageTableWalk
  import opened PageTablePaths

  datatype MapSize = Size4KiB | Size2MiB | Size1GiB

  datatype MappingError = InvalidAddress | AlreadyMapped | NotMapped | UnsupportedSize | OutOfMemory | InvalidFrame

  datatype UnmapResult = UnmapResult(frame: nat, remainingRefs: nat, size: MapSize)

  function FrameCount(size: MapSize): nat {
    match size
    case Size4KiB => 1
    case Size2MiB => 512
    case Size1GiB => 262144
  }

  class AddressSpace {
    const root: nat
    const shape: Shape
    const leafLevels: map<MapSize, nat>
    var tables: Tables
    var free: set<nat>
    var refs: map<nat, nat>
    ghost var tree: Tree

    ghost predicate LevelOk(l: Path) {
      exists size :: size in leafLevels && leafLevels[size] == |l| - 1
    }

    predicate ArchOk() {
      && 0 < shape.levels
      && (forall size :: size in leafLevels ==> leafLevels[size] < shape.levels)
      && (forall s, s' :: s in leafLevels && s' in leafLevels && leafLevels[s] == leafLevels[s'] ==> s == s')
    }

    ghost predicate Valid()
      reads this
    {
      && ArchOk() && TreeOk(tree, shape, root) && Represents(tables, tree, shape) && free !! tables.Keys
      && forall l :: l in tree.leaves ==> LevelOk(l)
    }

    predicate Address(path: Path) {
      PathOk(path, shape) && |path| == shape.levels
    }

    /** What the hardware finds at an address. */
    function Translate(path: Path): Option<(nat, Leaf)>
      reads this
    {
      Walk(tables, root, path, 0)
    }

    constructor NewRoot(shape: Shape, leafLevels: map<MapSize, nat>, free: set<nat>, root: nat, refs: map<nat, nat>)
      requires root in free && 0 < shape.levels
      requires forall size :: size in leafLevels ==> leafLevels[size] < shape.levels
      requires forall s, s' :: s in leafLevels && s' in leafLevels && leafLevels[s] == leafLevels[s'] ==> s == s'
      ensures Valid() && NoEmptyTables(tree, []) && tree == Tree(map[[] := root], map[])
      ensures this.root == root && this.shape == shape && this.leafLevels == leafLevels && this.free == free - {root}
    {
      this.root, this.shape, this.leafLevels := root, shape, leafLevels;
      this.tables, this.free, this.refs := map[root := EmptyTable(shape)], free - {root}, refs;
      this.tree := Tree(map[[] := root], map[]);
      new;
      assert Stores(tables, tree, shape, []);
      assert tree.node[[]] == root;
    }

    /** The table below `table` on the way to `path`, made if there is none. */
    method NextTable(path: Path, level: nat, table: nat) returns (r: Result<nat, MappingError>)
      requires Valid() && Address(path) && level + 1 < shape.levels
      requires path[..level] in tree.node && table == tree.node[path[..level]]
      modifies this`tables, this`free, this`tree
      ensures Valid() && tree.leaves == old(tree.leaves) && Extends(old(tree), tree)
      ensures free + tables.Keys == old(free + tables.Keys)
      ensures r.Err? ==> tree == old(tree) && tables == old(tables) && free == old(free)
      ensures r.Err? ==> r.error in {OutOfMemory, AlreadyMapped}
      ensures r == Err(AlreadyMapped) <==> path[..level + 1] in tree.leaves
      ensures r == Err(OutOfMemory) ==> free == {} && path[..level + 1] !in tree.node
      ensures r.Ok? ==> path[..level + 1] in tree.node && r.value == tree.node[path[..level + 1]]
      ensures r.Ok? ==> NextStep(old(tree), tree, old(free), free, path, level)
      ensures r.Ok? && path[..level + 1] in old(tree.node) ==> tables == old(tables)
    {
      hide TreeOk, Represents, EntryAt, NoEmptyTables, PathOk, IsEmpty;
      ghost var p := path[..level];
      var index := IndexAt(path, level);
      EntryOf(tables, tree, shape, p, index);
      EntryCases(tree, p, index);
      var entry := tables[table][index];
      if entry.Absent? {
        r := MakeTable(p, index, table);
        return;
      }
      if entry.Page? {
        return Err(AlreadyMapped);
      }
      TableIsNode(tree, shape, root, path[..level + 1]);
      if NoEmptyTables(tree, p) {
        ParentIsNotEmpty(tree, p, index);
      }
      assert tree.node.Keys + {path[..level + 1]} == tree.node.Keys;
      r := Ok(entry.table);
    }

    function IndexAt(path: Path, level: nat): (index: nat)
      requires Address(path) && level < |path|
      ensures index < shape.entries && path[..level] + [index] == path[..level + 1]
    {
      path[level]
    }

    /** An empty table from a free frame, hung on entry `index` of `table`. */
    method MakeTable(ghost p: Path, index: nat, table: nat) returns (r: Result<nat, MappingError>)
      requires Valid() && p in tree.node && table == tree.node[p] && index < shape.entries && |p| + 1 < shape.levels
      requires EntryAt(tree, p, index) == Absent
      modifies this`tables, this`free, this`tree
      ensures Valid() && tree.leaves == old(tree.leaves) && Extends(old(tree), tree)
      ensures free + tables.Keys == old(free + tables.Keys)
      ensures r.Err? ==> r.error == OutOfMemory && tree == old(tree) && tables == old(tables) && free == old(free) == {}
      ensures r.Ok? ==> |free| == |old(free)| - 1 && IsEmpty(tree, p + [index])
      ensures r.Ok? ==> p + [index] in tree.node && r.value == tree.node[p + [index]]
      ensures r.Ok? ==> tree.node.Keys == old(tree.node.Keys) + {p + [index]}
      ensures r.Ok? && NoEmptyTables(old(tree), p) ==> NoEmptyTables(tree, p + [index])
    {
      hide TreeOk, Represents, EntryAt, NoEmptyTables;
      if free == {} {
        return Err(OutOfMemory);
      }
      var next :| next in free;
      AddTable(tables, tree, shape, root, p, index, next);
      AddedTableIsEmpty(tree, shape, root, p, index, next);
      EntryCases(tree, p, index);
      if NoEmptyTables(tree, p) {
        AdditionMayEmptyOne(tree, shape, root, p, index, next);
      }
      free := free - {next};
      tables := tables[table := tables[table][index := Table(next)]][next := EmptyTable(shape)];
      tree := TableAdded(tree, p, index, next);
      r := Ok(next);
    }

    // -------------------------------------------------------------- mapping

    predicate Aligned(path: Path, offset: nat, level: nat) {
      offset == 0 && forall k :: level < k < |path| ==> path[k] == 0
    }

    /** Something is in the way of a page at `path` on `level`. */
    ghost predicate Taken(t: Tree, path: Path, level: nat)
      requires level < |path|
    {
      path[..level + 1] in t.node || LeafWithin(t, path, level + 1)
    }

    /** Supported, aligned, with nothing in the way and enough frames for the tables that are missing. */
    ghost predicate CanMap(path: Path, offset: nat, frame: nat, size: MapSize)
      requires Address(path) && ArchOk()
      reads this
    {
      && Fitting(path, offset, frame, size) && !Taken(tree, path, leafLevels[size])
      && Missing(tree, path, leafLevels[size]) <= |free|
    }

    /** A supported size, with address and frame aligned to it. */
    predicate Fitting(path: Path, offset: nat, frame: nat, size: MapSize) {
      size in leafLevels && Aligned(path, offset, leafLevels[size]) && frame % FrameCount(size) == 0
    }

    /** Maps a page. Running out of memory leaves the tables made so far behind, the last of them empty. */
    method Map(path: Path, offset: nat, frame: nat, size: MapSize, flags: U.MapFlags)
      returns (r: Result<(), MappingError>)
      requires Valid() && Address(path)
      modifies this`tables, this`free, this`tree
      ensures Valid() && Extends(old(tree), tree) && free + tables.Keys == old(free + tables.Keys)
      ensures r == Err(UnsupportedSize) <==> size !in leafLevels
      ensures r == Err(InvalidAddress) <==> size in leafLevels && !Fitting(path, offset, frame, size)
      ensures r == Err(AlreadyMapped) <==>
                Fitting(path, offset, frame, size) && Taken(old(tree), path, leafLevels[size])
      ensures r.Ok? <==> old(CanMap(path, offset, frame, size))
      ensures r.Err? ==> r.error in {UnsupportedSize, InvalidAddress, AlreadyMapped, OutOfMemory}
      ensures r.Err? && r.error != OutOfMemory ==> tree == old(tree) && tables == old(tables) && free == old(free)
      ensures r.Err? ==> tree.leaves == old(tree.leaves)
      ensures r == Err(OutOfMemory) ==>
                free == {} && tree.node.Keys <= old(tree.node.Keys) + PrefixesTo(path, leafLevels[size])
      ensures r == Err(OutOfMemory) && old(free) == {} ==> tree == old(tree) && tables == old(tables)
      ensures r == Err(OutOfMemory) && old(free) != {} ==> !NoEmptyTables(tree, [])
      ensures r.Err? ==> forall q :: Address(q) ==> Translate(q) == old(Translate(q))
      ensures r.Ok? ==> size in leafLevels && path[..leafLevels[size] + 1] !in old(tree.leaves)
      ensures r.Ok? ==> tree.leaves == old(tree.leaves)[path[..leafLevels[size] + 1] := Leaf(frame, flags)]
      ensures r.Ok? ==> tree.node.Keys == old(tree.node.Keys) + PrefixesTo(path, leafLevels[size])
      ensures r.Ok? && NoEmptyTables(old(tree), []) ==> NoEmptyTables(tree, [])
      ensures r.Ok? ==> forall q :: Address(q) ==>
                          Translate(q) ==
                          if path[..leafLevels[size] + 1] <= q then Some((leafLevels[size], Leaf(frame, flags)))
                          else old(Translate(q))
    {
      hide TreeOk, Represents, NoEmptyTables, Walk, PathOk, Missing, LeafWithin, PrefixesTo, LevelOk, Aligned, Extends;
      hide NodeOk, LeafOk, OwnFrame, Stores, IsTable, EntryAt, HoldsSomething;
      ExtendsItself(tree);
      if size !in leafLevels {
        return Err(UnsupportedSize);
      }
      var leafLevel := leafLevels[size];
      if !Fitting(path, offset, frame, size) {
        return Err(InvalidAddress);
      }
      r := MapAt(path, leafLevel, Leaf(frame, flags));
    }

    /** Maps a page at `path` on `level`. */
    method MapAt(path: Path, level: nat, leaf: Leaf) returns (r: Result<(), MappingError>)
      requires Valid() && Address(path) && level < |path|
      requires exists size :: size in leafLevels && leafLevels[size] == level
      modifies this`tables, this`free, this`tree
      ensures Valid() && Extends(old(tree), tree) && free + tables.Keys == old(free + tables.Keys)
      ensures r.Err? ==> r.error in {AlreadyMapped, OutOfMemory}
      ensures r == Err(AlreadyMapped) <==> Taken(old(tree), path, level)
      ensures r.Ok? <==> !Taken(old(tree), path, level) && Missing(old(tree), path, level) <= |old(free)|
      ensures r == Err(AlreadyMapped) ==> tree == old(tree) && tables == old(tables) && free == old(free)
      ensures r.Err? ==> tree.leaves == old(tree.leaves)
      ensures r == Err(OutOfMemory) ==> free == {} && tree.node.Keys <= old(tree.node.Keys) + PrefixesTo(path, level)
      ensures r == Err(OutOfMemory) && old(free) == {} ==> tree == old(tree) && tables == old(tables)
      ensures r == Err(OutOfMemory) && old(free) != {} ==> !NoEmptyTables(tree, [])
      ensures r.Ok? ==> path[..level + 1] !in old(tree.leaves)
      ensures r.Ok? ==> tree.leaves == old(tree.leaves)[path[..level + 1] := leaf]
      ensures r.Ok? ==> tree.node.Keys == old(tree.node.Keys) + PrefixesTo(path, level)
      ensures r.Ok? && NoEmptyTables(old(tree), []) ==> NoEmptyTables(tree, [])
      ensures Retranslated(old(tables), tables, path[..level + 1], if r.Ok? then Some(leaf) else None)
    {
      hide TreeOk, Represents, NoEmptyTables, Walk, PathOk, Missing, LeafWithin, PrefixesTo, LevelOk, Extends,
           Retranslated;
      hide NodeOk, LeafOk, OwnFrame, Stores, IsTable, EntryAt, HoldsSomething;
      var table := DescendTo(path, level);
      TakenCases(old(tree), shape, root, path, level);
      if table.Err? {
        NotRetranslated(old(tables), old(tree), tables, tree, path[..level + 1]);
        return Err(table.error);
      }
      ghost var t := tree;
      var placed := PlaceLeaf(path, level, table.value, leaf);
      if !placed {
        PresentMeansOld(old(tree), tree, path, level);
        NotRetranslated(old(tables), old(tree), tables, tree, path[..level + 1]);
        return Err(AlreadyMapped);
      }
      SetTranslation(old(tables), old(tree), tables, tree, t, path[..level + 1], leaf);
      ExtendsSame(old(tree), t, tree, path[..level + 1]);
      r := Ok(());
    }

    /** The addresses of page `l` lead to `leaf`, if there is one, and the others where they led before. */
    ghost predicate Retranslated(tables0: Tables, tables1: Tables, l: Path, leaf: Option<Leaf>) {
      forall q :: Address(q) ==>
        Walk(tables1, root, q, 0) ==
        if leaf.Some? && l <= q then Some((|l| - 1, leaf.value)) else Walk(tables0, root, q, 0)
    }

    lemma NotRetranslated(tables0: Tables, t0: Tree, tables1: Tables, t1: Tree, l: Path)
      requires TreeOk(t0, shape, root) && Represents(tables0, t0, shape)
      requires TreeOk(t1, shape, root) && Represents(tables1, t1, shape) && t0.leaves == t1.leaves
      ensures Retranslated(tables0, tables1, l, None)
    {
      hide TreeOk, Represents, Walk;
      SameLeavesSameTranslation(tables0, t0, tables1, t1);
    }

    /** Puts a page into its entry, unless there is something. */
    method PlaceLeaf(path: Path, level: nat, table: nat, leaf: Leaf) returns (placed: bool)
      requires Valid() && Address(path) && level < |path| && path[..level] in tree.node
               && table == tree.node[path[..level]]
      requires exists size :: size in leafLevels && leafLevels[size] == level
      modifies this`tables, this`tree
      ensures Valid() && tables.Keys == old(tables.Keys)
      ensures placed <==> path[..level + 1] !in old(tree.node) && path[..level + 1] !in old(tree.leaves)
      ensures !placed ==> tree == old(tree) && tables == old(tables)
      ensures placed ==> tree == old(tree).(leaves := old(tree.leaves)[path[..level + 1] := leaf])
      ensures placed ==> Parent(path[..level + 1]) in old(tree.node)
      ensures placed && NoEmptyTables(old(tree), path[..level]) ==> NoEmptyTables(tree, [])
    {
      hide TreeOk, Represents, NoEmptyTables, PathOk, EntryAt;
      hide NodeOk, LeafOk, OwnFrame, Stores, IsTable, HoldsSomething;
      ghost var p := path[..level];
      var index := IndexAt(path, level);
      EntryOf(tables, tree, shape, p, index);
      EntryCases(tree, p, index);
      if !tables[table][index].Absent? {
        return false;
      }
      SetLeaf(tables, tree, shape, root, p, index, leaf);
      if NoEmptyTables(tree, p) {
        SettingEmptiesNone(tree, shape, root, p, index, leaf);
      }
      tables := tables[table := tables[table][index := Page(leaf)]];
      tree := LeafSet(tree, p, index, leaf);
      assert Parent(path[..level + 1]) == p;
      placed := true;
    }

    /** Walks down to the table on `leafLevel`, making tables on the way. */
    method DescendTo(path: Path, leafLevel: nat) returns (r: Result<nat, MappingError>)
      requires Valid() && Address(path) && leafLevel < shape.levels
      modifies this`tables, this`free, this`tree
      ensures Valid() && tree.leaves == old(tree.leaves) && Extends(old(tree), tree)
      ensures free + tables.Keys == old(free + tables.Keys)
      ensures r.Err? ==> r.error in {OutOfMemory, AlreadyMapped}
      ensures r == Err(AlreadyMapped) <==> LeafWithin(old(tree), path, leafLevel)
      ensures r == Err(AlreadyMapped) ==> Untouched(old(tree), old(tables), old(free))
      ensures r == Err(OutOfMemory) <==>
                !LeafWithin(old(tree), path, leafLevel) && Missing(old(tree), path, leafLevel) > |old(free)|
      ensures r == Err(OutOfMemory) ==>
                free == {} && tree.node.Keys <= old(tree.node.Keys) + PrefixesTo(path, leafLevel)
      ensures r == Err(OutOfMemory) && old(free) == {} ==> Untouched(old(tree), old(tables), old(free))
      ensures r == Err(OutOfMemory) && old(free) != {} ==> !NoEmptyTables(tree, [])
      ensures r.Ok? ==> path[..leafLevel] in tree.node && r.value == tree.node[path[..leafLevel]]
      ensures r.Ok? ==> tree.node.Keys == old(tree.node.Keys) + PrefixesTo(path, leafLevel)
      ensures r.Ok? && path[..leafLevel] in old(tree.node) ==> Untouched(old(tree), old(tables), old(free))
      ensures r.Ok? && NoEmptyTables(old(tree), []) ==> NoEmptyTables(tree, path[..leafLevel])
    {
      hide TreeOk, Represents, NoEmptyTables, PathOk, PrefixesTo, Extends, LeafWithin, Missing, IsEmpty, Descending,
           NextStep;
      hide NodeOk, LeafOk, OwnFrame, Stores, IsTable, EntryAt, HoldsSomething, LevelOk;
      ghost var t0, free0 := tree, free;
      RootIsThere(tree, shape, root, path);
      DescendBegins(tree, shape, root, free, path);
      var table := root;
      var level := 0;
      while level < leafLevel
        invariant level <= leafLevel && Valid() && Descending(t0, tree, free0, free, path, level)
        invariant free + tables.Keys == old(free + tables.Keys)
        invariant path[..level] in tree.node && table == tree.node[path[..level]]
      {
        ghost var t, free1 := tree, free;
        var next := NextTable(path, level, table);
        if next.Err? {
          if next.error == AlreadyMapped {
            DescentMeetsPage(t0, t, shape, root, free0, free, path, level, leafLevel);
          } else {
            DescentRunsOut(t0, t, shape, root, free0, free, path, level, leafLevel);
          }
          if tree == t0 {
            SameTreeSameTables(old(tables), tables, tree, shape);
          }
          return Err(next.error);
        }
        DescendOne(t0, t, tree, shape, root, free0, free1, free, path, level);
        table := next.value;
        level := level + 1;
      }
      DescentEnds(t0, tree, free0, free, path, leafLevel);
      if tree == t0 {
        SameTreeSameTables(old(tables), tables, tree, shape);
      }
      r := Ok(table);
    }

    ghost predicate Untouched(t: Tree, tables0: Tables, free0: set<nat>)
      reads this
    {
      tree == t && tables == tables0 && free == free0
    }

    /** Translations depend on the pages only. */
    lemma SameLeavesSameTranslation(tables0: Tables, t0: Tree, tables1: Tables, t1: Tree)
      requires TreeOk(t0, shape, root) && Represents(tables0, t0, shape)
      requires TreeOk(t1, shape, root) && Represents(tables1, t1, shape)
      requires t0.leaves == t1.leaves
      ensures forall q :: Address(q) ==> Walk(tables1, root, q, 0) == Walk(tables0, root, q, 0)
    {
      forall q | Address(q)
        ensures Walk(tables1, root, q, 0) == Walk(tables0, root, q, 0)
      {
        TranslationIsLookup(tables0, t0, shape, root, q);
        TranslationIsLookup(tables1, t1, shape, root, q);
      }
    }

    /** `t` has the pages of `t0`, and `t1` one more. */
    lemma SetTranslation(tables0: Tables, t0: Tree, tables1: Tables, t1: Tree, t: Tree, l: Path, leaf: Leaf)
      requires TreeOk(t0, shape, root) && Represents(tables0, t0, shape)
      requires TreeOk(t1, shape, root) && Represents(tables1, t1, shape)
      requires TreeOk(t, shape, root) && t.leaves == t0.leaves && t1.leaves == t0.leaves[l := leaf]
      requires l != [] && Parent(l) in t.node && |l| <= shape.levels
      ensures Retranslated(tables0, tables1, l, Some(leaf))
    {
      forall q | Address(q)
        ensures Walk(tables1, root, q, 0) == if l <= q then Some((|l| - 1, leaf)) else Walk(tables0, root, q, 0)
      {
        TranslationIsLookup(tables0, t0, shape, root, q);
        TranslationIsLookup(tables1, t1, shape, root, q);
        LookupAfterSet(t, shape, root, l, leaf, q);
      }
    }

    /** A table or page found in the last slot was there before the walk began. */
    lemma PresentMeansOld(t0: Tree, t: Tree, path: Path, level: nat)
      requires TreeOk(t0, shape, root) && Address(path) && level < shape.levels && t.leaves == t0.leaves
      requires t.node.Keys == t0.node.Keys + PrefixesTo(path, level)
      requires path[..level + 1] in t.node || path[..level + 1] in t.leaves
      ensures path[..level] in t0.node && Taken(t0, path, level)
    {
      hide TreeOk;
      if path[..level + 1] in t0.leaves {
        LeafParent(t0, shape, root, path, level);
      } else {
        assert forall x :: x in PrefixesTo(path, level) ==> |x| <= level;
        assert path[..level + 1] in t0.node;
        OldPrefix(t0, shape, root, path, level);
      }
    }

    // -------------------------------------------------------------- finding a page

    /** The tables met on the way to the page of `path`. */
    ghost predicate OnTheWay(t: Tree, path: Path, walk: seq<nat>) {
      && |walk| <= |path|
      && forall k :: 0 <= k < |walk| ==> path[..k] in t.node && walk[k] == t.node[path[..k]]
    }

    /** The level of the page that holds `path`, and the walk to it. */
    method FindLeaf(path: Path) returns (found: Option<nat>, walk: seq<nat>)
      requires Valid() && Address(path)
      ensures found.None? ==> forall k :: 0 < k <= |path| ==> path[..k] !in tree.leaves
      ensures found.Some? ==> found.value < shape.levels && path[..found.value + 1] in tree.leaves
      ensures found.Some? ==> |walk| == found.value + 1 && OnTheWay(tree, path, walk)
    {
      hide TreeOk, Represents, PathOk;
      hide NodeOk, LeafOk, OwnFrame, Stores, IsTable, EntryAt, LevelOk;
      RootIsThere(tree, shape, root, path);
      var table, level: nat := root, 0;
      walk := [];
      while true
        invariant level < shape.levels && |walk| == level && OnTheWay(tree, path, walk)
        invariant path[..level] in tree.node && table == tree.node[path[..level]]
        invariant forall k :: 0 < k <= level ==> path[..k] !in tree.leaves
        decreases shape.levels - level
      {
        var index := IndexAt(path, level);
        EntryOf(tables, tree, shape, path[..level], index);
        EntryCases(tree, path[..level], index);
        var entry := tables[table][index];
        if entry.Absent? {
          NothingBelow(tree, shape, root, path, level);
          return None, walk;
        }
        walk := walk + [table];
        if entry.Page? {
          return Some(level), walk;
        }
        TableIsNode(tree, shape, root, path[..level + 1]);
        table := entry.table;
        level := level + 1;
      }
    }

    // -------------------------------------------------------------- unmapping

    method ReleaseLeaf(frame: nat) returns (r: Result<nat, MappingError>)
      modifies this`refs
      ensures r.Err? <==> frame !in old(refs) || old(refs)[frame] == 0
      ensures r.Err? ==> r.error == InvalidFrame && refs == old(refs)
      ensures r.Ok? ==> r.value == old(refs)[frame] - 1
      ensures r.Ok? ==> refs == if r.value == 0 then old(refs) - {frame} else old(refs)[frame := r.value]
    {
      if frame !in refs || refs[frame] == 0 {
        return Err(InvalidFrame);
      }
      var left := refs[frame] - 1;
      refs := if left == 0 then refs - {frame} else refs[frame := left];
      r := Ok(left);
    }

    method TableIsEmpty(ghost p: Path, table: nat) returns (empty: bool)
      requires Valid() && p in tree.node && table == tree.node[p]
      ensures empty <==> IsEmpty(tree, p)
    {
      hide TreeOk, Represents, PathOk, NodeOk, LeafOk, OwnFrame, Stores, IsTable, EntryAt, LevelOk;
      var index := 0;
      while index < shape.entries
        invariant index <= shape.entries
        invariant forall k :: 0 <= k < index ==> EntryAt(tree, p, k) == Absent
      {
        EntryOf(tables, tree, shape, p, index);
        if !tables[table][index].Absent? {
          assert EntryAt(tree, p, index) != Absent;
          return false;
        }
        index := index + 1;
      }
      OutOfRangeIsAbsent(tree, shape, root, p);
      empty := true;
    }

    /** Gives back the empty tables on the walk, from the bottom up to the first that holds something. */
    method PruneEmptyTables(path: Path, walk: seq<nat>, leafLevel: nat) returns (ghost top: nat)
      requires Valid() && Address(path) && |walk| == leafLevel + 1 && OnTheWay(tree, path, walk)
      modifies this`tables, this`free, this`tree
      ensures Valid() && tree.leaves == old(tree.leaves) && Extends(tree, old(tree))
      ensures free + tables.Keys == old(free + tables.Keys)
      ensures top <= leafLevel && tree == WithoutTables(old(tree), path, top, leafLevel)
      ensures top > 0 ==> !IsEmpty(tree, path[..top])
      ensures NoEmptyTables(old(tree), path[..leafLevel]) ==> NoEmptyTables(tree, [])
    {
      hide TreeOk, Represents, NoEmptyTables, PathOk, Extends, IsEmpty, WithoutTables;
      hide NodeOk, LeafOk, OwnFrame, Stores, IsTable, EntryAt, HoldsSomething, LevelOk;
      ExtendsItself(tree);
      WithoutNone(tree, path, leafLevel);
      var level: nat := leafLevel;
      while level > 0
        invariant level <= leafLevel && Valid() && tree.leaves == old(tree.leaves) && Extends(tree, old(tree))
        invariant free + tables.Keys == old(free + tables.Keys)
        invariant OnTheWay(tree, path, walk[..level + 1])
        invariant tree == WithoutTables(old(tree), path, level, leafLevel)
        invariant NoEmptyTables(old(tree), path[..leafLevel]) ==> NoEmptyTables(tree, path[..level])
      {
        assert walk[..level + 1][level] == walk[level] && walk[..level + 1][level - 1] == walk[level - 1];
        var empty := TableIsEmpty(path[..level], walk[level]);
        if !empty {
          if NoEmptyTables(tree, path[..level]) {
            NoneEmpty(tree, path[..level]);
          }
          top := level;
          return;
        }
        ghost var t := tree;
        RemoveChild(path, level - 1, walk[level - 1], walk[level]);
        ExtendsTransitively(tree, t, old(tree));
        StillOnTheWay(t, tree, path, walk, level);
        WithoutOneMore(old(tree), path, level, leafLevel);
        level := level - 1;
      }
      top := 0;
      if NoEmptyTables(tree, path[..0]) {
        assert path[..0] == [];
      }
    }

    lemma StillOnTheWay(t: Tree, t': Tree, path: Path, walk: seq<nat>, level: nat)
      requires 0 < level < |walk| <= |path| && OnTheWay(t, path, walk[..level + 1])
      requires t' == t.(node := t.node - {path[..level]})
      ensures OnTheWay(t', path, walk[..level])
    {
      forall k | 0 <= k < level
        ensures path[..k] in t'.node && walk[..level][k] == t'.node[path[..k]]
      {
        assert walk[..level + 1][k] == walk[k];
        assert |path[..k]| != |path[..level]|;
      }
    }

    /** Takes the empty table `child` off entry `path[level]` of `parent`. */
    method RemoveChild(path: Path, level: nat, parent: nat, child: nat)
      requires Valid() && Address(path) && level + 1 < |path|
      requires path[..level] in tree.node && parent == tree.node[path[..level]]
      requires path[..level + 1] in tree.node && child == tree.node[path[..level + 1]]
               && IsEmpty(tree, path[..level + 1])
      modifies this`tables, this`free, this`tree
      ensures Valid() && tree == old(tree).(node := old(tree.node) - {path[..level + 1]}) && Extends(tree, old(tree))
      ensures free + tables.Keys == old(free + tables.Keys) && child != root
      ensures NoEmptyTables(old(tree), path[..level + 1]) ==> NoEmptyTables(tree, path[..level])
    {
      hide TreeOk, Represents, NoEmptyTables, PathOk, IsEmpty;
      hide NodeOk, LeafOk, OwnFrame, Stores, IsTable, EntryAt, HoldsSomething, LevelOk;
      ghost var p := path[..level];
      var index := IndexAt(path, level);
      RemoveTable(tables, tree, shape, root, p, index);
      EntryOf(tables, tree, shape, path[..level + 1], 0);
      if NoEmptyTables(tree, path[..level + 1]) {
        RemovalMayEmptyOne(tree, p, index);
      }
      tables := tables[parent := tables[parent][index := Absent]] - {child};
      free := free + {child};
      tree := TableRemoved(tree, p, index);
    }

    /** Clears the entry of the page at `path` on `level`. */
    method ClearEntry(path: Path, level: nat, table: nat)
      requires Valid() && Address(path) && level < |path|
      requires path[..level] in tree.node && table == tree.node[path[..level]] && path[..level + 1] in tree.leaves
      modifies this`tables, this`tree
      ensures Valid() && tree == old(tree).(leaves := old(tree.leaves) - {path[..level + 1]})
      ensures tables.Keys == old(tables.Keys)
      ensures NoEmptyTables(old(tree), []) ==> NoEmptyTables(tree, path[..level])
      ensures Vacated(old(tables), tables, path[..level + 1])
    {
      hide TreeOk, Represents, NoEmptyTables, PathOk, Walk;
      hide NodeOk, LeafOk, OwnFrame, Stores, IsTable, EntryAt, HoldsSomething, LevelOk;
      ghost var p := path[..level];
      var index := IndexAt(path, level);
      ghost var t := tree;
      ClearLeaf(tables, tree, shape, root, p, index);
      NotBoth(tree, shape, root, path[..level + 1]);
      if NoEmptyTables(tree, []) {
        ClearMayEmptyOne(tree, shape, root, p, index);
      }
      tables := tables[table := tables[table][index := Absent]];
      tree := LeafCleared(tree, p, index);
      ClearTranslation(old(tables), t, tables, tree, path[..level + 1]);
    }

    /** The addresses of page `l` lead nowhere, the others where they led before. */
    ghost predicate Vacated(tables0: Tables, tables1: Tables, l: Path) {
      forall q :: Address(q) ==> Walk(tables1, root, q, 0) == if l <= q then None else Walk(tables0, root, q, 0)
    }

    lemma StillVacated(tables0: Tables, tables1: Tables, t1: Tree, tables2: Tables, t2: Tree, l: Path)
      requires TreeOk(t1, shape, root) && Represents(tables1, t1, shape)
      requires TreeOk(t2, shape, root) && Represents(tables2, t2, shape) && t1.leaves == t2.leaves
      requires Vacated(tables0, tables1, l)
      ensures Vacated(tables0, tables2, l)
    {
      hide TreeOk, Represents, Walk;
      SameLeavesSameTranslation(tables1, t1, tables2, t2);
    }

    lemma ClearTranslation(tables0: Tables, t0: Tree, tables1: Tables, t1: Tree, l: Path)
      requires TreeOk(t0, shape, root) && Represents(tables0, t0, shape)
      requires TreeOk(t1, shape, root) && Represents(tables1, t1, shape)
      requires l in t0.leaves && t1.leaves == t0.leaves - {l} && |l| <= shape.levels
      ensures Vacated(tables0, tables1, l)
    {
      forall q | Address(q)
        ensures Walk(tables1, root, q, 0) == if l <= q then None else Walk(tables0, root, q, 0)
      {
        TranslationIsLookup(tables0, t0, shape, root, q);
        TranslationIsLookup(tables1, t1, shape, root, q);
        LookupAfterClear(t0, shape, root, l, q);
      }
    }

    /** The page that holds `path`. */
    ghost predicate IsPageOf(t: Tree, path: Path, l: Path) {
      l != [] && l <= path && l in t.leaves
    }

    ghost predicate Describes(result: UnmapResult, t: Tree, l: Path) {
      && l in t.leaves && result.frame == t.leaves[l].frame
      && result.size in leafLevels && leafLevels[result.size] == |l| - 1
    }

    /** The frame has lost one reference; without any left it is gone. */
    ghost predicate Dereferenced(before: map<nat, nat>, after: map<nat, nat>, result: UnmapResult) {
      && result.frame in before && before[result.frame] == result.remainingRefs + 1
      && after == if result.remainingRefs == 0 then before - {result.frame}
                  else before[result.frame := result.remainingRefs]
    }

    /** The references hold one to the frame of page `l`. */
    ghost predicate Referenced(counts: map<nat, nat>, t: Tree, l: Path) {
      l in t.leaves && t.leaves[l].frame in counts && counts[t.leaves[l].frame] > 0
    }

    /** Unmaps the page `l` that holds `path`; with `release` its frame loses a reference. If there is none
        to lose, the page is unmapped all the same, but no table is given back. Otherwise the tables below
        level `top` go. */
    method Unmap(path: Path, release: bool)
      returns (r: Result<UnmapResult, MappingError>, ghost l: Path, ghost top: nat)
      requires Valid() && Address(path)
      modifies this
      ensures Valid() && Extends(tree, old(tree)) && free + tables.Keys == old(free + tables.Keys)
      ensures root in tables
      ensures r.Err? ==> r.error == NotMapped || (release && r.error == InvalidFrame)
      ensures r == Err(NotMapped) <==> forall m :: !IsPageOf(old(tree), path, m)
      ensures r == Err(NotMapped) ==>
                tree == old(tree) && tables == old(tables) && free == old(free) && refs == old(refs)
      ensures r != Err(NotMapped) ==> IsPageOf(old(tree), path, l) && tree.leaves == old(tree.leaves) - {l}
      ensures r != Err(NotMapped) ==> Vacated(old(tables), tables, l)
      ensures r == Err(InvalidFrame) <==>
                release && IsPageOf(old(tree), path, l) && !Referenced(old(refs), old(tree), l)
      ensures r == Err(InvalidFrame) ==> tree.node == old(tree.node) && free == old(free) && refs == old(refs)
      ensures r.Ok? ==> Describes(r.value, old(tree), l)
      ensures r.Ok? ==> top < |l| && tree.node == WithoutTables(old(tree), path, top, |l| - 1).node
      ensures r.Ok? && top > 0 ==> !IsEmpty(tree, path[..top])
      ensures r.Ok? && NoEmptyTables(old(tree), []) ==> NoEmptyTables(tree, [])
      ensures r.Ok? && !release ==> refs == old(refs)
      ensures r.Ok? && release ==> Dereferenced(old(refs), refs, r.value)
    {
      hide TreeOk, Represents, NoEmptyTables, PathOk, Walk, Extends, IsEmpty, PrefixesTo, Vacated;
      hide NodeOk, LeafOk, OwnFrame, Stores, IsTable, EntryAt, HoldsSomething;
      ExtendsItself(tree);
      RootStays(tables, tree, shape, root);
      var found, walk := FindLeaf(path);
      if found.None? {
        NoPage(tree, path);
        return Err(NotMapped), [], 0;
      }
      var level := found.value;
      l := path[..level + 1];
      assert IsPageOf(tree, path, l);
      assert path[..level] in tree.node && walk[level] == tree.node[path[..level]];
      assert LevelOk(l);
      var size :| size in leafLevels && leafLevels[size] == level;
      var table := walk[level];
      var index := IndexAt(path, level);
      EntryOf(tables, tree, shape, path[..level], index);
      NotBoth(tree, shape, root, l);
      EntryCases(tree, path[..level], index);
      var frame := tables[table][index].leaf.frame;
      ClearEntry(path, level, table);
      SameNodesExtend(tree, old(tree));
      RootStays(tables, tree, shape, root);
      var remaining: nat := 1;
      if release {
        var released := ReleaseLeaf(frame);
        if released.Err? {
          return Err(InvalidFrame), l, 0;
        }
        remaining := released.value;
      }
      ghost var tables1, tree1 := tables, tree;
      assert OnTheWay(tree, path, walk);
      top := PruneEmptyTables(path, walk, level);
      ExtendsTransitively(tree, tree1, old(tree));
      RootStays(tables, tree, shape, root);
      StillVacated(old(tables), tables1, tree1, tables, tree, l);
      r := Ok(UnmapResult(frame, remaining, size));
    }

    method Protect(path: Path, flags: U.MapFlags) returns (r: Result<(), MappingError>)
      requires Valid() && Address(path)
      modifies this`tables, this`tree
      ensures Valid() && tree.node == old(tree.node)
      ensures r.Err? ==> r.error == NotMapped && tree == old(tree) && tables == old(tables)
      ensures r.Err? <==> forall l :: !IsPageOf(old(tree), path, l)
      ensures r.Ok? ==> exists l :: IsPageOf(old(tree), path, l) && Repermitted(old(tree), tree, l, flags)
      ensures forall q :: Address(q) ==>
                Translate(q) == if r.Ok? && SamePage(old(tree), path, q)
                                then Reflagged(old(Translate(q)), flags) else old(Translate(q))
    {
      hide TreeOk, Represents, NoEmptyTables, PathOk, Walk;
      hide NodeOk, LeafOk, OwnFrame, Stores, IsTable, EntryAt, HoldsSomething;
      var found, walk := FindLeaf(path);
      if found.None? {
        NoPage(tree, path);
        return Err(NotMapped);
      }
      var level := found.value;
      ghost var l, p := path[..level + 1], path[..level];
      assert IsPageOf(tree, path, l);
      assert p in tree.node && walk[level] == tree.node[p];
      var table := walk[level];
      var index := IndexAt(path, level);
      EntryOf(tables, tree, shape, p, index);
      NotBoth(tree, shape, root, l);
      EntryCases(tree, p, index);
      var leaf := Leaf(tables[table][index].leaf.frame, flags);
      SetLeaf(tables, tree, shape, root, p, index, leaf);
      ghost var t := tree;
      tables := tables[table := tables[table][index := Page(leaf)]];
      tree := LeafSet(tree, p, index, leaf);
      assert Repermitted(t, tree, l, flags);
      ProtectTranslation(old(tables), t, tables, tree, path, l, flags);
      r := Ok(());
    }

    ghost predicate Repermitted(t: Tree, t': Tree, l: Path, flags: U.MapFlags) {
      l in t.leaves && t' == t.(leaves := t.leaves[l := t.leaves[l].(flags := flags)])
    }

    /** `q` lies in the page that holds `path`. */
    ghost predicate SamePage(t: Tree, path: Path, q: Path) {
      exists l :: IsPageOf(t, path, l) && l <= q
    }

    ghost function Reflagged(found: Option<(nat, Leaf)>, flags: U.MapFlags): Option<(nat, Leaf)> {
      match found
      case None => None
      case Some(at) => Some((at.0, at.1.(flags := flags)))
    }

    lemma ProtectTranslation(tables0: Tables, t0: Tree, tables1: Tables, t1: Tree, path: Path, l: Path,
                             flags: U.MapFlags)
      requires TreeOk(t0, shape, root) && Represents(tables0, t0, shape)
      requires TreeOk(t1, shape, root) && Represents(tables1, t1, shape)
      requires Address(path) && IsPageOf(t0, path, l) && Repermitted(t0, t1, l, flags)
      ensures forall q :: Address(q) ==>
                Walk(tables1, root, q, 0) == if SamePage(t0, path, q) then Reflagged(Walk(tables0, root, q, 0), flags)
                                             else Walk(tables0, root, q, 0)
    {
      hide Walk;
      assert LeafOk(t0, shape, l);
      OnePage(t0, path, l);
      forall q | Address(q)
        ensures Walk(tables1, root, q, 0) == if SamePage(t0, path, q) then Reflagged(Walk(tables0, root, q, 0), flags)
                                             else Walk(tables0, root, q, 0)
      {
        TranslationIsLookup(tables0, t0, shape, root, q);
        TranslationIsLookup(tables1, t1, shape, root, q);
        LookupAfterSet(t0, shape, root, l, t0.leaves[l].(flags := flags), q);
        LookupAfterSet(t0, shape, root, l, t0.leaves[l], q);
        assert t0.leaves[l := t0.leaves[l]] == t0.leaves;
        assert SamePage(t0, path, q) <==> l <= q;
      }
    }

    lemma OnePage(t: Tree, path: Path, l: Path)
      requires TreeOk(t, shape, root) && IsPageOf(t, path, l)
      ensures forall m :: IsPageOf(t, path, m) ==> m == l
    {
      forall m | IsPageOf(t, path, m)
        ensures m == l
      {
        assert path[..|m|] == m && path[..|l|] == l;
        if |m| < |l| {
          LeafEndsThePath(t, shape, root, path, |m|, |l|);
        } else if |l| < |m| {
          LeafEndsThePath(t, shape, root, path, |l|, |m|);
        }
      }
    }

    lemma NoPage(t: Tree, path: Path)
      requires forall k :: 0 < k <= |path| ==> path[..k] !in t.leaves
      ensures forall l :: !IsPageOf(t, path, l)
    {
      forall l
        ensures !IsPageOf(t, path, l)
      {
        assert l <= path ==> path[..|l|] == l;
      }
    }

    /** Mapping a page and unmapping it again restores every page, translation and reference; it restores every
        table and frame if and only if no table on the way was empty before. */
    method MapThenUnmap(path: Path, offset: nat, frame: nat, size: MapSize, flags: U.MapFlags) returns (ok: bool)
      requires Valid() && Address(path)
      modifies this
      ensures Valid() && (ok <==> old(CanMap(path, offset, frame, size)))
      ensures ok ==> refs == old(refs) && tree.leaves == old(tree.leaves)
      ensures ok ==> forall q :: Address(q) ==> Translate(q) == old(Translate(q))
      ensures ok ==> (tables == old(tables) && free == old(free) <==> NoneEmptyOn(old(tree), path, leafLevels[size]))
    {
      hide TreeOk, Represents, NoEmptyTables, PathOk, Walk, Extends, IsEmpty, PrefixesTo, NoneEmptyOn, CanMap;
      hide MadeAndPruned, Vacated, LevelOk, Missing, LeafWithin, Taken, Fitting, Referenced;
      hide NodeOk, LeafOk, OwnFrame, Stores, IsTable, EntryAt, HoldsSomething;
      ghost var t0, tables0 := tree, tables;
      var mapped := Map(path, offset, frame, size, flags);
      if mapped.Err? {
        return false;
      }
      ghost var t1, level := tree, leafLevels[size];
      ghost var l := path[..level + 1];
      assert IsPageOf(t1, path, l);
      var unmapped, m, top := Unmap(path, false);
      OnePage(t1, path, l);
      assert m == l && tree.leaves == t0.leaves;
      SameLeavesSameTranslation(tables0, t0, tables, tree);
      PrunedAgain(t0, t1, tree, path, top, level);
      RestoredExactly(t0, tree, shape, root, path, top, level);
      if tables == tables0 {
        SameTablesSameTree(tables, t0, tree, shape, root);
      }
      if tree == t0 {
        SameTreeSameTables(tables0, tables, tree, shape);
        FramesConserved(tables0.Keys, old(free), free);
      }
      ok := true;
    }
  }

  /** With one frame left, a page that needs two more tables cannot be mapped, and an empty table stays. */
  method FailedMapLeavesATable(frame: nat, flags: U.MapFlags) returns (space: AddressSpace, r: Result<(), MappingError>)
    ensures r == Err(OutOfMemory) && space.Valid() && !NoEmptyTables(space.tree, [])
  {
    hide TreeOk, Represents, NoEmptyTables, Walk, PrefixesTo, Extends, LeafWithin, Missing, AddressSpace.LevelOk;
    space := new AddressSpace.NewRoot(Shape(3, 512), map[Size4KiB := 2], {0, 1}, 0, map[]);
    TwoMissing(space.tree, 0);
    assert space.free == {1};
    r := space.Map([0, 0, 0], 0, frame, Size4KiB, flags);
  }

  lemma TwoMissing(t: Tree, root: nat)
    requires t == Tree(map[[] := root], map[])
    ensures Missing(t, [0, 0, 0], 2) == 2 && !LeafWithin(t, [0, 0, 0], 3)
  {
    assert [0, 0, 0][..1] == [0] && [0, 0, 0][..2] == [0, 0];
    assert Missing(t, [0, 0, 0], 1) == 1;
  }

  lemma FramesConserved(tables: set<nat>, free: set<nat>, free': set<nat>)
    requires free !! tables && free' !! tables && free + tables == free' + tables
    ensures free == free'
  {
    assert free == free + tables - tables && free' == free' + tables - tables;
  }

  lemma PrunedAgain(t0: Tree, t1: Tree, u: Tree, path: Path, top: nat, bottom: nat)
    requires top <= bottom <= |path| && u.leaves == t0.leaves && Extends(t0, t1) && Extends(u, t1)
    requires t1.node.Keys == t0.node.Keys + PrefixesTo(path, bottom)
    requires u.node == WithoutTables(t1, path, top, bottom).node && (top > 0 ==> !IsEmpty(u, path[..top]))
    ensures MadeAndPruned(t0, u, path, top, bottom)
  {
  }

  lemma ExtendsSame(t: Tree, u: Tree, v: Tree, p: Path)
    requires Extends(t, u) && v.node == u.node
    ensures Extends(t, v) && (p !in v.node ==> p !in t.node)
  {
  }

  lemma SameNodesExtend(t: Tree, u: Tree)
    requires t.node == u.node
    ensures Extends(t, u)
  {
  }

  lemma RootStays(tables: Tables, t: Tree, shape: Shape, root: nat)
    requires TreeOk(t, shape, root) && Represents(tables, t, shape)
    ensures root in tables
  {
    assert Stores(tables, t, shape, []);
  }

  lemma NothingBelow(t: Tree, shape: Shape, root: nat, path: Path, level: nat)
    requires TreeOk(t, shape, root) && level < |path|
    requires path[..level + 1] !in t.node && path[..level + 1] !in t.leaves
    ensures forall n :: level < n <= |path| ==> path[..n] !in t.leaves
  {
    forall n | level < n <= |path|
      ensures path[..n] !in t.leaves
    {
      if level + 1 < n && path[..n] in t.leaves {
        assert LeafOk(t, shape, path[..n]);
        assert Parent(path[..n]) == path[..n - 1];
        assert path[..n - 1][..level + 1] == path[..level + 1];
        NodesArePrefixClosed(t, shape, root, path[..n - 1], level + 1);
      }
    }
  }

  lemma OutOfRangeIsAbsent(t: Tree, shape: Shape, root: nat, p: Path)
    requires TreeOk(t, shape, root)
    ensures forall k: nat :: k >= shape.entries ==> EntryAt(t, p, k) == Absent
  {
    forall k: nat | k >= shape.entries
      ensures EntryAt(t, p, k) == Absent
    {
      assert (p + [k])[|p|] == k;
      assert p + [k] in t.node ==> NodeOk(t, shape, p + [k]);
      assert p + [k] in t.leaves ==> LeafOk(t, shape, p + [k]);
    }
  }

  lemma NoneEmpty(t: Tree, p: Path)
    requires NoEmptyTables(t, p) && !IsEmpty(t, p)
    ensures NoEmptyTables(t, [])
  {
    assert HoldsSomething(t, p);
  }

  lemma ExtendsItself(t: Tree)
    ensures Extends(t, t)
  {
  }

  lemma ExtendsTransitively(t: Tree, u: Tree, v: Tree)
    requires Extends(t, u) && Extends(u, v)
    ensures Extends(t, v)
  {
  }

  lemma RootIsThere(t: Tree, shape: Shape, root: nat, path: Path)
    requires TreeOk(t, shape, root)
    ensures path[..0] in t.node && t.node[path[..0]] == root
    ensures t.node.Keys + PrefixesTo(path, 0) == t.node.Keys
  {
    assert path[..0] == [];
    assert PrefixesTo(path, 0) == {path[..0]};
  }

  lemma LeafParent(t: Tree, shape: Shape, root: nat, path: Path, level: nat)
    requires TreeOk(t, shape, root) && level < |path| && path[..level + 1] in t.leaves
    ensures path[..level] in t.node
  {
    assert LeafOk(t, shape, path[..level + 1]);
    assert Parent(path[..level + 1]) == path[..level];
  }

  lemma OldPrefix(t: Tree, shape: Shape, root: nat, path: Path, level: nat)
    requires TreeOk(t, shape, root) && level < |path|
    ensures path[..level + 1] in t.node ==> path[..level] in t.node
  {
    if path[..level + 1] in t.node {
      NodesArePrefixClosed(t, shape, root, path[..level + 1], level);
      assert path[..level + 1][..level] == path[..level];
    }
  }

  lemma MorePrefixes(path: Path, level: nat)
    requires level < |path|
    ensures PrefixesTo(path, level + 1) == PrefixesTo(path, level) + {path[..level + 1]}
  {
  }

  lemma ParentIsNotEmpty(t: Tree, p: Path, i: nat)
    requires NoEmptyTables(t, p) && p + [i] in t.node
    ensures NoEmptyTables(t, p + [i])
  {
    assert EntryAt(t, p, i) != Absent;
    assert HoldsSomething(t, p);
  }

  /** A page begins on the way to `path[..n]`. */
  ghost predicate LeafWithin(t: Tree, path: Path, n: nat)
    requires n <= |path|
  {
    exists k :: 0 < k <= n && path[..k] in t.leaves
  }

  /** The descent to `path` has come from `t0` to `t` and `level`: it has made all tables that were missing
      or none, and the last one made is empty. */
  ghost predicate Descending(t0: Tree, t: Tree, free0: set<nat>, free: set<nat>, path: Path, level: nat) {
    && level <= |path| && t.leaves == t0.leaves && Extends(t0, t) && path[..level] in t.node
    && t.node.Keys == t0.node.Keys + PrefixesTo(path, level)
    && !LeafWithin(t0, path, level) && Missing(t0, path, level) + |free| == |free0|
    && ((t == t0 && free == free0) || MadeLast(t0, t, path, level, free0))
    && (NoEmptyTables(t0, []) ==> NoEmptyTables(t, path[..level]))
  }

  ghost predicate MadeLast(t0: Tree, t: Tree, path: Path, level: nat, free0: set<nat>) {
    0 < level <= |path| && path[..level] !in t0.node && IsEmpty(t, path[..level]) && free0 != {}
  }

  /** One step down, from `t` to `u`. */
  ghost predicate NextStep(t: Tree, u: Tree, free: set<nat>, free': set<nat>, path: Path, level: nat) {
    && level < |path| && u.leaves == t.leaves && Extends(t, u)
    && path[..level + 1] in u.node && path[..level + 1] !in u.leaves
    && u.node.Keys == t.node.Keys + {path[..level + 1]}
    && (path[..level + 1] in t.node ==> u == t && free' == free)
    && (path[..level + 1] !in t.node ==> |free'| == |free| - 1 && IsEmpty(u, path[..level + 1]))
    && (NoEmptyTables(t, path[..level]) ==> NoEmptyTables(u, path[..level + 1]))
  }

  lemma DescendBegins(t: Tree, shape: Shape, root: nat, free: set<nat>, path: Path)
    requires TreeOk(t, shape, root)
    ensures Descending(t, t, free, free, path, 0)
  {
    hide TreeOk;
    RootIsThere(t, shape, root, path);
    assert path[..0] == [];
  }

  lemma DescendOne(t0: Tree, t: Tree, u: Tree, shape: Shape, root: nat, free0: set<nat>, free: set<nat>,
                   free': set<nat>, path: Path, level: nat)
    requires TreeOk(t0, shape, root) && Descending(t0, t, free0, free, path, level)
             && NextStep(t, u, free, free', path, level)
    ensures Descending(t0, u, free0, free', path, level + 1)
  {
    hide TreeOk, NoEmptyTables, IsEmpty;
    ExtendsTransitively(t0, t, u);
    OldPrefix(t0, shape, root, path, level);
    MorePrefixes(path, level);
    PrefixIn(path, level, level + 1);
    if MadeLast(t0, t, path, level, free0) {
      EmptyLeadsNowhere(t, path, level);
    }
  }

  /** A page in the way was there before, and so were the tables that lead to it. */
  lemma DescentMeetsPage(t0: Tree, t: Tree, shape: Shape, root: nat, free0: set<nat>, free: set<nat>, path: Path,
                         level: nat, leafLevel: nat)
    requires TreeOk(t0, shape, root) && Descending(t0, t, free0, free, path, level) && level < leafLevel <= |path|
    requires path[..level + 1] in t.leaves
    ensures t == t0 && free == free0 && LeafWithin(t0, path, leafLevel)
  {
    hide TreeOk, NoEmptyTables, IsEmpty;
    LeafParent(t0, shape, root, path, level);
  }

  lemma DescentRunsOut(t0: Tree, t: Tree, shape: Shape, root: nat, free0: set<nat>, free: set<nat>, path: Path,
                       level: nat, leafLevel: nat)
    requires TreeOk(t0, shape, root) && Descending(t0, t, free0, free, path, level) && level < leafLevel <= |path|
    requires path[..level + 1] !in t.node && path[..level + 1] !in t.leaves && free == {}
    ensures !LeafWithin(t0, path, leafLevel) && Missing(t0, path, leafLevel) > |free0|
    ensures t.leaves == t0.leaves && Extends(t0, t) && t.node.Keys <= t0.node.Keys + PrefixesTo(path, leafLevel)
    ensures free0 == {} ==> t == t0
    ensures free0 != {} ==> !NoEmptyTables(t, [])
  {
    hide TreeOk, NoEmptyTables, IsEmpty;
    NoLeafFurther(t0, shape, root, path, level, leafLevel);
    MissingGrows(t0, path, level + 1, leafLevel);
    PrefixesGrow(path, level, leafLevel);
    if free0 != {} {
      EmptyTableFound(t, path[..level]);
    }
  }

  lemma DescentEnds(t0: Tree, t: Tree, free0: set<nat>, free: set<nat>, path: Path, level: nat)
    requires Descending(t0, t, free0, free, path, level)
    ensures t.leaves == t0.leaves && Extends(t0, t) && path[..level] in t.node
    ensures t.node.Keys == t0.node.Keys + PrefixesTo(path, level)
    ensures !LeafWithin(t0, path, level) && Missing(t0, path, level) <= |free0|
    ensures path[..level] in t0.node ==> t == t0 && free == free0
    ensures NoEmptyTables(t0, []) ==> NoEmptyTables(t, path[..level])
  {
  }

  lemma EmptyLeadsNowhere(t: Tree, path: Path, level: nat)
    requires level < |path| && IsEmpty(t, path[..level])
    ensures path[..level + 1] !in t.node && path[..level + 1] !in t.leaves
  {
    assert path[..level] + [path[level]] == path[..level + 1];
    assert EntryAt(t, path[..level], path[level]) == Absent;
  }

  lemma NoLeafFurther(t: Tree, shape: Shape, root: nat, path: Path, level: nat, n: nat)
    requires TreeOk(t, shape, root) && level < n <= |path| && !LeafWithin(t, path, level)
    requires path[..level + 1] !in t.node && path[..level + 1] !in t.leaves
    ensures !LeafWithin(t, path, n)
  {
    NothingBelow(t, shape, root, path, level);
  }

  lemma EmptyTableFound(t: Tree, p: Path)
    requires p in t.node && p != [] && IsEmpty(t, p)
    ensures !NoEmptyTables(t, [])
  {
    assert !HoldsSomething(t, p);
  }

  lemma PrefixesGrow(path: Path, m: nat, n: nat)
    requires m <= n <= |path|
    ensures PrefixesTo(path, m) <= PrefixesTo(path, n)
  {
  }

  lemma TakenCases(t: Tree, shape: Shape, root: nat, path: Path, level: nat)
    requires TreeOk(t, shape, root) && level < |path|
    ensures LeafWithin(t, path, level + 1) <==> LeafWithin(t, path, level) || path[..level + 1] in t.leaves
    ensures path[..level + 1] in t.node || path[..level + 1] in t.leaves ==> Missing(t, path, level) == 0
    ensures path[..level + 1] in t.node ==> !LeafWithin(t, path, level)
  {
    hide TreeOk;
    if path[..level + 1] in t.node {
      OldPrefix(t, shape, root, path, level);
      NoneMissing(t, shape, root, path, level);
      forall k | 0 < k <= level
        ensures path[..k] !in t.leaves
      {
        NodePrefixIsNoLeaf(t, shape, root, path[..level + 1], k);
        assert path[..level + 1][..k] == path[..k];
      }
    } else if path[..level + 1] in t.leaves {
      LeafParent(t, shape, root, path, level);
      NoneMissing(t, shape, root, path, level);
    }
  }

  lemma {:induction false} NoneMissing(t: Tree, shape: Shape, root: nat, path: Path, n: nat)
    requires TreeOk(t, shape, root) && n <= |path| && path[..n] in t.node
    ensures Missing(t, path, n) == 0
  {
    hide TreeOk;
    if n > 0 {
      OldPrefix(t, shape, root, path, n - 1);
      NoneMissing(t, shape, root, path, n - 1);
    }
  }
}
