/** The metadata pool of the buddy allocator as a value: an array of nodes threaded into
    index-linked lists. Every node is on exactly one list or in the hands of an operation. */
module BuddyLists {
  import opened Prelude
  import opened BuddyBlocks

  datatype BlockNode = BlockNode(start: nat, order: nat, refcount: nat, next: Option<nat>)

  const EMPTY: BlockNode := BlockNode(0, 0, 0, None)

  datatype ListId =
    | Unused
    | Allocated
    | Global(order: nat)
    | Cpu(cpu: nat, order: nat)
    | Held

  datatype Pool = Pool(nodes: seq<BlockNode>, lists: map<ListId, seq<nat>>, owner: seq<ListId>)

  function NextOf(s: seq<nat>, i: nat): Option<nat>
    requires i < |s|
  {
    if i + 1 < |s| then Some(s[i + 1]) else None
  }

  /** The `i`-th node of the list links to the next one, or to nothing at the end. */
  predicate Linked(nodes: seq<BlockNode>, s: seq<nat>, i: int) {
    0 <= i < |s| && s[i] < |nodes| && nodes[s[i]].next == NextOf(s, i)
  }

  /** `s` is the chain of links that `next` fields spell out, and its nodes belong to `id`. */
  predicate Chain(nodes: seq<BlockNode>, owner: seq<ListId>, id: ListId, s: seq<nat>)
    requires |owner| == |nodes|
  {
    && (forall i :: 0 <= i < |s| ==> s[i] < |nodes| && owner[s[i]] == id)
    && (forall i {:trigger Linked(nodes, s, i)} :: 0 <= i < |s| ==> Linked(nodes, s, i))
    && Distinct(s)
  }

  /** A node that is not held is on the list that owns it. */
  predicate OnItsList(p: Pool, n: int) {
    && 0 <= n < |p.owner|
    && (p.owner[n] != Held ==> p.owner[n] in p.lists && n in p.lists[p.owner[n]])
  }

  /** Every list is a duplicate-free acyclic chain and every node is on the list that owns it. */
  predicate Chained(p: Pool) {
    && |p.owner| == |p.nodes|
    && Held !in p.lists
    && (forall id :: id in p.lists ==> Chain(p.nodes, p.owner, id, p.lists[id]))
    && (forall n {:trigger OnItsList(p, n)} :: 0 <= n < |p.nodes| ==> OnItsList(p, n))
  }

  // ---------------------------------------------------------------- the two list operations

  function Without(s: seq<nat>, i: nat): seq<nat>
    requires i < |s|
  {
    s[..i] + s[i + 1..]
  }

  function With(s: seq<nat>, i: nat, n: nat): seq<nat>
    requires i <= |s|
  {
    s[..i] + [n] + s[i..]
  }

  /** Unlink the `i`-th node of a list: its predecessor skips it and its own link is cleared. */
  function Remove(p: Pool, id: ListId, i: nat): Pool
    requires Chained(p) && id in p.lists && i < |p.lists[id]|
  {
    var s := p.lists[id];
    var n := s[i];
    var linked := if i == 0 then p.nodes else p.nodes[s[i - 1] := p.nodes[s[i - 1]].(next := p.nodes[n].next)];
    Pool(linked[n := linked[n].(next := None)], p.lists[id := Without(s, i)], p.owner[n := Held])
  }

  /** Link the held node `n` in front of position `i` of a list. */
  function Insert(p: Pool, id: ListId, i: nat, n: nat): Pool
    requires Chained(p) && id in p.lists && i <= |p.lists[id]|
    requires n < |p.nodes| && p.owner[n] == Held
  {
    var s := p.lists[id];
    assert Chain(p.nodes, p.owner, id, s);
    var linked := if i == 0 then p.nodes else p.nodes[s[i - 1] := p.nodes[s[i - 1]].(next := Some(n))];
    Pool(linked[n := linked[n].(next := if i < |s| then Some(s[i]) else None)],
         p.lists[id := With(s, i, n)], p.owner[n := id])
  }

  /** Rewrite a node's block and reference count, leaving its link alone. */
  function Describe(p: Pool, n: nat, start: nat, order: nat, refcount: nat): Pool
    requires n < |p.nodes|
  {
    p.(nodes := p.nodes[n := BlockNode(start, order, refcount, p.nodes[n].next)])
  }

  /** The two nodes describe the same block with the same count. */
  predicate SameContent(a: BlockNode, b: BlockNode) {
    a.start == b.start && a.order == b.order && a.refcount == b.refcount
  }

  predicate SameContents(before: seq<BlockNode>, after: seq<BlockNode>) {
    && |after| == |before|
    && forall m :: 0 <= m < |before| ==> SameContent(before[m], after[m])
  }

  lemma RemoveOnlyRelinks(p: Pool, id: ListId, i: nat)
    requires Chained(p) && id in p.lists && i < |p.lists[id]|
    ensures SameContents(p.nodes, Remove(p, id, i).nodes)
  {
    assert Chain(p.nodes, p.owner, id, p.lists[id]);
  }

  lemma InsertOnlyRelinks(p: Pool, id: ListId, i: nat, n: nat)
    requires Chained(p) && id in p.lists && i <= |p.lists[id]|
    requires n < |p.nodes| && p.owner[n] == Held
    ensures SameContents(p.nodes, Insert(p, id, i, n).nodes)
  {
    assert Chain(p.nodes, p.owner, id, p.lists[id]);
  }

  lemma RemoveKeepsChained(p: Pool, id: ListId, i: nat)
    requires Chained(p) && id in p.lists && i < |p.lists[id]|
    ensures Chained(Remove(p, id, i))
  {
    var q := Remove(p, id, i);
    UnlinkedChain(p, id, i);
    forall other | other in p.lists && other != id
      ensures Chain(q.nodes, q.owner, other, q.lists[other])
    {
      UnlinkedOther(p, id, i, other);
    }
    forall m | 0 <= m < |q.nodes|
      ensures OnItsList(q, m)
    {
      UnlinkedMember(p, id, i, m);
    }
  }

  lemma UnlinkedChain(p: Pool, id: ListId, i: nat)
    requires Chained(p) && id in p.lists && i < |p.lists[id]|
    ensures var q := Remove(p, id, i); Chain(q.nodes, q.owner, id, q.lists[id])
  {
    var s, q := p.lists[id], Remove(p, id, i);
    var n, t := s[i], Without(s, i);
    assert Chain(p.nodes, p.owner, id, s);
    WithoutIsDistinct(s, i);
    forall j | 0 <= j < |t|
      ensures t[j] < |p.nodes| && t[j] != n && q.owner[t[j]] == id && Linked(q.nodes, t, j)
    {
      var k := if j < i then j else j + 1;
      assert t[j] == s[k] && Differ(s, k, i);
      assert i > 0 && k != i - 1 ==> Differ(s, k, i - 1);
      assert Linked(p.nodes, s, k) && Linked(p.nodes, s, i);
      if j == i - 1 {
        assert q.nodes[t[j]].next == p.nodes[n].next == NextOf(s, i);
      }
    }
  }

  lemma WithoutIsDistinct(s: seq<nat>, i: nat)
    requires Distinct(s) && i < |s|
    ensures Distinct(Without(s, i))
  {
    var t := Without(s, i);
    forall j, k | 0 <= j < |t| && 0 <= k < |t| && j != k
      ensures Differ(t, j, k)
    {
      assert Differ(s, if j < i then j else j + 1, if k < i then k else k + 1);
    }
  }

  lemma UnlinkedOther(p: Pool, id: ListId, i: nat, other: ListId)
    requires Chained(p) && id in p.lists && i < |p.lists[id]|
    requires other in p.lists && other != id
    ensures var q := Remove(p, id, i); Chain(q.nodes, q.owner, other, q.lists[other])
  {
    assert Chain(p.nodes, p.owner, id, p.lists[id]);
    var s, q := p.lists[other], Remove(p, id, i);
    assert Chain(p.nodes, p.owner, other, s);
    forall j | 0 <= j < |s|
      ensures Linked(q.nodes, s, j)
    {
      assert Linked(p.nodes, s, j);
    }
  }

  lemma UnlinkedMember(p: Pool, id: ListId, i: nat, m: nat)
    requires Chained(p) && id in p.lists && i < |p.lists[id]|
    requires m < |p.nodes|
    ensures OnItsList(Remove(p, id, i), m)
  {
    var s := p.lists[id];
    assert Chain(p.nodes, p.owner, id, s);
    assert OnItsList(p, m);
    if p.owner[m] == id && m != s[i] {
      var j :| 0 <= j < |s| && s[j] == m;
      assert m == Without(s, i)[if j < i then j else j - 1];
    }
  }

  lemma InsertKeepsChained(p: Pool, id: ListId, i: nat, n: nat)
    requires Chained(p) && id in p.lists && i <= |p.lists[id]|
    requires n < |p.nodes| && p.owner[n] == Held
    ensures Chained(Insert(p, id, i, n))
  {
    var q := Insert(p, id, i, n);
    LinkedChain(p, id, i, n);
    forall other | other in p.lists && other != id
      ensures Chain(q.nodes, q.owner, other, q.lists[other])
    {
      LinkedOther(p, id, i, n, other);
    }
    forall m | 0 <= m < |q.nodes|
      ensures OnItsList(q, m)
    {
      LinkedMember(p, id, i, n, m);
    }
  }

  lemma LinkedChain(p: Pool, id: ListId, i: nat, n: nat)
    requires Chained(p) && id in p.lists && i <= |p.lists[id]|
    requires n < |p.nodes| && p.owner[n] == Held
    ensures var q := Insert(p, id, i, n); Chain(q.nodes, q.owner, id, q.lists[id])
  {
    var s, q := p.lists[id], Insert(p, id, i, n);
    var t := With(s, i, n);
    assert Chain(p.nodes, p.owner, id, s);
    WithIsDistinct(s, i, n);
    forall j | 0 <= j < |t|
      ensures t[j] < |p.nodes| && q.owner[t[j]] == id && Linked(q.nodes, t, j)
    {
      LinkedNext(p, id, i, n, j);
    }
  }

  lemma WithIsDistinct(s: seq<nat>, i: nat, n: nat)
    requires Distinct(s) && n !in s && i <= |s|
    ensures Distinct(With(s, i, n))
  {
    var t := With(s, i, n);
    forall j, k | 0 <= j < |t| && 0 <= k < |t| && j != k
      ensures Differ(t, j, k)
    {
      if j != i && k != i {
        assert Differ(s, if j < i then j else j - 1, if k < i then k else k - 1);
      }
      assert t[j] == if j < i then s[j] else if j == i then n else s[j - 1];
      assert t[k] == if k < i then s[k] else if k == i then n else s[k - 1];
    }
  }

  lemma LinkedNext(p: Pool, id: ListId, i: nat, n: nat, j: nat)
    requires Chained(p) && id in p.lists && i <= |p.lists[id]|
    requires n < |p.nodes| && p.owner[n] == Held
    requires j <= |p.lists[id]|
    ensures var q := Insert(p, id, i, n); var t := q.lists[id];
      t[j] < |p.nodes| && q.owner[t[j]] == id && Linked(q.nodes, t, j)
  {
    var s := p.lists[id];
    assert Chain(p.nodes, p.owner, id, s);
    WithAt(s, i, n, j);
    if j < i - 1 {
      assert Differ(s, j, i - 1);
      assert Linked(p.nodes, s, j);
    } else if j > i {
      assert i > 0 ==> Differ(s, i - 1, j - 1);
      assert Linked(p.nodes, s, j - 1);
    }
  }

  lemma WithAt(s: seq<nat>, i: nat, n: nat, j: nat)
    requires i <= |s| && j <= |s|
    ensures With(s, i, n)[j] == if j < i then s[j] else if j == i then n else s[j - 1]
    ensures NextOf(With(s, i, n), j)
         == if j == i - 1 then Some(n)
            else if j == i then (if i < |s| then Some(s[i]) else None)
            else NextOf(s, if j < i then j else j - 1)
  {
  }

  lemma LinkedOther(p: Pool, id: ListId, i: nat, n: nat, other: ListId)
    requires Chained(p) && id in p.lists && i <= |p.lists[id]|
    requires n < |p.nodes| && p.owner[n] == Held
    requires other in p.lists && other != id
    ensures var q := Insert(p, id, i, n); Chain(q.nodes, q.owner, other, q.lists[other])
  {
    assert Chain(p.nodes, p.owner, id, p.lists[id]);
    var s, q := p.lists[other], Insert(p, id, i, n);
    assert Chain(p.nodes, p.owner, other, s);
    forall j | 0 <= j < |s|
      ensures Linked(q.nodes, s, j)
    {
      assert Linked(p.nodes, s, j);
    }
  }

  lemma LinkedMember(p: Pool, id: ListId, i: nat, n: nat, m: nat)
    requires Chained(p) && id in p.lists && i <= |p.lists[id]|
    requires n < |p.nodes| && p.owner[n] == Held
    requires m < |p.nodes|
    ensures OnItsList(Insert(p, id, i, n), m)
  {
    var s := p.lists[id];
    assert Chain(p.nodes, p.owner, id, s);
    assert OnItsList(p, m);
    var t := With(s, i, n);
    if m == n {
      assert t[i] == n;
    } else if p.owner[m] == id {
      var j :| 0 <= j < |s| && s[j] == m;
      assert m == t[if j < i then j else j + 1];
    }
  }

  lemma DescribeKeepsChained(p: Pool, n: nat, start: nat, order: nat, refcount: nat)
    requires Chained(p) && n < |p.nodes|
    ensures Chained(Describe(p, n, start, order, refcount))
  {
    var q := Describe(p, n, start, order, refcount);
    forall m | 0 <= m < |q.nodes|
      ensures OnItsList(q, m)
    {
      assert OnItsList(p, m);
    }
    forall id | id in p.lists
      ensures Chain(q.nodes, q.owner, id, q.lists[id])
    {
      var s := p.lists[id];
      assert Chain(p.nodes, p.owner, id, s);
      forall j | 0 <= j < |s|
        ensures Linked(q.nodes, s, j)
      {
        assert Linked(p.nodes, s, j);
      }
    }
  }

  // ---------------------------------------------------------------- blocks of a pool

  function TileOf(p: Pool, n: nat): Option<Block>
    requires n < |p.nodes| == |p.owner|
  {
    if p.owner[n] == Unused then None else Some(Block(p.nodes[n].start, p.nodes[n].order))
  }

  /** The block each node stands for; spare nodes stand for none. */
  function TilesOf(p: Pool): (t: Tiles)
    requires |p.nodes| == |p.owner|
    ensures |t| == |p.nodes| && forall n :: 0 <= n < |t| ==> t[n] == TileOf(p, n)
  {
    seq(|p.nodes|, n requires 0 <= n < |p.nodes| => TileOf(p, n))
  }

  /** Relinking between lists in use changes no block. */
  lemma RelinkKeepsTiles(p: Pool, id: ListId, i: nat, n: nat)
    requires Chained(p) && id in p.lists && id != Unused
    ensures i < |p.lists[id]| ==> TilesOf(Remove(p, id, i)) == TilesOf(p)
    ensures i <= |p.lists[id]| && n < |p.nodes| && p.owner[n] == Held ==>
              TilesOf(Insert(p, id, i, n)) == TilesOf(p)
  {
    assert Chain(p.nodes, p.owner, id, p.lists[id]);
  }
}
