/** The buddy allocator: fixed arrays of metadata nodes, list heads and list lengths, changed in
    place. `lists` and `owner` are the ghost view that ties them to `BuddyLists.Pool`. */
module BuddyAllocator {
  import opened Prelude
  import opened BuddyBlocks
  import opened BuddyLists
  import opened BuddyState
  import opened BuddyCounts
  import opened BuddyGrants
  import opened BuddyOrders
  import opened BuddySeed

  /** `frame << PAGE_SHIFT`. */
  function AddressOf(frame: nat): nat {
    frame * PAGE_SIZE
  }

  /** `frame_number_from_addr`: only page-aligned addresses name a frame. */
  function FrameAt(addr: nat): Option<nat> {
    if addr % PAGE_SIZE != 0 then None else Some(addr / PAGE_SIZE)
  }

  lemma AddressNamesFrame(frame: nat)
    ensures FrameAt(AddressOf(frame)) == Some(frame)
  {
  }

  datatype FrameAllocError =
    | InvalidCount | OutOfMemory | InvalidFrame | InvalidCpu
    | InvalidMemoryMap | RefCountOverflow | RefCountUnderflow | MetadataExhausted

  function RefillBatch(order: nat): nat {
    Pow2(if order <= PER_CPU_CACHE_MAX_ORDER then PER_CPU_CACHE_MAX_ORDER - order else 0)
  }

  function HighWatermark(order: nat): nat {
    2 * RefillBatch(order)
  }

  function First(s: seq<nat>): Option<nat> {
    if s == [] then None else Some(s[0])
  }

  /** A list head with the list's length beside it. */
  datatype ListHead = ListHead(head: Option<nat>, len: nat)

  function HeadOf(s: seq<nat>): ListHead {
    ListHead(First(s), |s|)
  }

  class BuddyAllocator {
    var totalFrames: nat
    var maxOrder: nat
    var cpuCount: nat
    var ranges: seq<Range>
    const globalFree: array<ListHead>
    var allocations: ListHead
    const perCpu: array2<ListHead>
    const nodes: array<BlockNode>
    var unused: ListHead

    ghost var pool: Pool

    ghost function G(): Geometry
      reads this`ranges, this`maxOrder, this`cpuCount
    {
      Geometry(ranges, maxOrder, cpuCount, perCpu.Length0)
    }

    /** The arrays have their fixed sizes and every head and length matches its list. */
    ghost predicate Coupled()
      reads this, nodes, globalFree, perCpu
    {
      && globalFree.Length == MAX_ORDER_SLOTS
      && perCpu.Length1 == PER_CPU_CACHE_MAX_ORDER + 1
      && pool.nodes == nodes[..]
      && (forall id :: id in pool.lists <==> Listed(G(), id))
      && unused == HeadOf(pool.lists[Unused]) && allocations == HeadOf(pool.lists[Allocated])
      && (forall k :: 0 <= k < MAX_ORDER_SLOTS ==> globalFree[k] == HeadOf(pool.lists[Global(k)]))
      && (forall c, k :: 0 <= c < perCpu.Length0 && 0 <= k <= PER_CPU_CACHE_MAX_ORDER ==>
            perCpu[c, k] == HeadOf(pool.lists[Cpu(c, k)]))
    }

    /** The links are sound, whatever the nodes say about blocks. */
    ghost predicate Intact()
      reads this, nodes, globalFree, perCpu
    {
      Coupled() && Chained(pool)
    }

    // -------------------------------------------------------------- NodePool

    method AllocUnused() returns (r: Result<nat, FrameAllocError>)
      requires Intact()
      modifies this`unused, this`pool, nodes
      ensures Intact()
      ensures old(pool.lists[Unused]) == [] ==> r == Err(MetadataExhausted) && pool == old(pool)
      ensures old(pool.lists[Unused]) != [] ==>
                r == Ok(old(pool.lists[Unused])[0]) && pool == Remove(old(pool), Unused, 0)
    {
      hide Chain;
      match unused.head
      case None =>
        r := Err(MetadataExhausted);
      case Some(index) =>
        HeadLinks(pool, Unused);
        unused := ListHead(nodes[index].next, unused.len - 1);
        nodes[index] := nodes[index].(next := None);
        pool := Remove(pool, Unused, 0);
        assert Chained(pool) by {
          RemoveKeepsChained(old(pool), Unused, 0);
        }
        r := Ok(index);
    }

    method ReleaseUnused(index: nat)
      requires Intact() && index < nodes.Length && pool.owner[index] == Held
      modifies this`unused, this`pool, nodes
      ensures Intact()
      ensures pool == Retire(old(pool), index)
    {
      DescribeKeepsChained(pool, index, 0, 0, 0);
      InsertKeepsChained(Describe(pool, index, 0, 0, 0), Unused, 0, index);
      nodes[index] := EMPTY.(next := unused.head);
      unused := ListHead(Some(index), unused.len + 1);
      pool := Retire(pool, index);
    }

    // -------------------------------------------------------------- per-CPU caches

    method CpuPush(cpu: nat, order: nat, index: nat)
      requires Intact() && index < nodes.Length && pool.owner[index] == Held
      requires cpu < perCpu.Length0 && order <= PER_CPU_CACHE_MAX_ORDER
      modifies this`pool, nodes, perCpu
      ensures Intact()
      ensures Chained(Describe(old(pool), index, old(nodes[index].start), order, 0))
      ensures pool == Insert(Describe(old(pool), index, old(nodes[index].start), order, 0), Cpu(cpu, order), 0, index)
    {
      ghost var id := Cpu(cpu, order);
      DescribeKeepsChained(pool, index, nodes[index].start, order, 0);
      InsertKeepsChained(Describe(pool, index, nodes[index].start, order, 0), id, 0, index);
      nodes[index] := BlockNode(nodes[index].start, order, 0, perCpu[cpu, order].head);
      perCpu[cpu, order] := ListHead(Some(index), perCpu[cpu, order].len + 1);
      pool := Insert(Describe(pool, index, old(nodes[index].start), order, 0), id, 0, index);
    }

    method CpuPop(cpu: nat, order: nat) returns (r: Option<nat>)
      requires Intact() && cpu < perCpu.Length0 && order <= PER_CPU_CACHE_MAX_ORDER
      modifies this`pool, nodes, perCpu
      ensures Intact()
      ensures old(pool.lists[Cpu(cpu, order)]) == [] ==> r == None && pool == old(pool)
      ensures old(pool.lists[Cpu(cpu, order)]) != [] ==>
                r == Some(old(pool.lists[Cpu(cpu, order)])[0]) && pool == Remove(old(pool), Cpu(cpu, order), 0)
    {
      ghost var id := Cpu(cpu, order);
      match perCpu[cpu, order].head
      case None =>
        r := None;
      case Some(index) =>
        HeadLinks(pool, id);
        perCpu[cpu, order] := ListHead(nodes[index].next, perCpu[cpu, order].len - 1);
        nodes[index] := nodes[index].(next := None);
        pool := Remove(pool, id, 0);
        assert Chained(pool) by {
          RemoveKeepsChained(old(pool), id, 0);
        }
        r := Some(index);
    }

    // -------------------------------------------------------------- global free lists

    method GlobalPopFirst(order: nat) returns (r: Option<nat>)
      requires Intact() && order < MAX_ORDER_SLOTS
      modifies this`pool, nodes, globalFree
      ensures Intact()
      ensures old(pool.lists[Global(order)]) == [] ==> r == None && pool == old(pool)
      ensures old(pool.lists[Global(order)]) != [] ==>
                r == Some(old(pool.lists[Global(order)])[0]) && pool == Remove(old(pool), Global(order), 0)
    {
      ghost var id := Global(order);
      match globalFree[order].head
      case None =>
        r := None;
      case Some(index) =>
        HeadLinks(pool, id);
        globalFree[order] := ListHead(nodes[index].next, globalFree[order].len - 1);
        nodes[index] := nodes[index].(next := None);
        pool := Remove(pool, id, 0);
        assert Chained(pool) by {
          RemoveKeepsChained(old(pool), id, 0);
        }
        r := Some(index);
    }

    /** The walk shared by sorted insertion and lookup: it stops at the first block that does
        not start below `start`. */
    method GlobalSeek(order: nat, start: nat)
      returns (previous: Option<nat>, cursor: Option<nat>, ghost i: nat)
      requires Intact() && order < MAX_ORDER_SLOTS && Ascending(Starts(pool, Global(order)))
      ensures i <= |pool.lists[Global(order)]|
      ensures cursor == if i < |pool.lists[Global(order)]| then Some(pool.lists[Global(order)][i]) else None
      ensures previous == if i > 0 then Some(pool.lists[Global(order)][i - 1]) else None
      ensures forall j :: 0 <= j < i ==> Starts(pool, Global(order))[j] < start
      ensures forall j :: i <= j < |Starts(pool, Global(order))| ==>
                start <= Starts(pool, Global(order))[j] && (i < j ==> start < Starts(pool, Global(order))[j])
    {
      ghost var s, starts := pool.lists[Global(order)], Starts(pool, Global(order));
      ghost var ns := nodes[..];
      assert Chain(ns, pool.owner, Global(order), s);
      previous, cursor, i := None, globalFree[order].head, 0;
      while cursor.Some? && nodes[cursor.value].start < start
        invariant 0 <= i <= |s|
        invariant cursor == if i < |s| then Some(s[i]) else None
        invariant previous == if i > 0 then Some(s[i - 1]) else None
        invariant forall j :: 0 <= j < i ==> starts[j] < start
        decreases |s| - i
      {
        assert Linked(ns, s, i);
        previous := cursor;
        cursor := nodes[cursor.value].next;
        i := i + 1;
      }
      forall j | i <= j < |s|
        ensures start <= starts[j] && (i < j ==> start < starts[j])
      {
        assert j > i ==> Before(starts, i, j);
      }
    }

    /** Point `previous` (when there is one) at `to` and `index` at `next`. */
    method SetLinks(previous: Option<nat>, to: Option<nat>, index: nat, next: Option<nat>)
      requires index < nodes.Length
      requires previous.Some? ==> previous.value < nodes.Length && previous.value != index
      modifies nodes
      ensures nodes[..] ==
              (if previous.Some? then old(nodes[..])[previous.value := old(nodes[previous.value]).(next := to)]
               else old(nodes[..]))[index := old(nodes[index]).(next := next)]
    {
      if previous.Some? {
        nodes[previous.value] := nodes[previous.value].(next := to);
      }
      nodes[index] := nodes[index].(next := next);
    }

    /** The relinking at the end of sorted insertion. */
    method GlobalLink(order: nat, index: nat, previous: Option<nat>, cursor: Option<nat>, ghost i: nat)
      requires Intact() && order < MAX_ORDER_SLOTS
      requires index < nodes.Length && pool.owner[index] == Held
      requires i <= |pool.lists[Global(order)]|
      requires cursor == if i < |pool.lists[Global(order)]| then Some(pool.lists[Global(order)][i]) else None
      requires previous == if i > 0 then Some(pool.lists[Global(order)][i - 1]) else None
      modifies this`pool, nodes, globalFree
      ensures Intact()
      ensures pool == Insert(old(pool), Global(order), i, index)
    {
      hide Chain, Insert;
      ghost var id, s := Global(order), pool.lists[Global(order)];
      LinkFacts(pool, id, i);
      SetLinks(previous, Some(index), index, cursor);
      globalFree[order] :=
        ListHead(if previous.None? then Some(index) else globalFree[order].head, globalFree[order].len + 1);
      LinkedPool(pool, id, i, index, previous, cursor);
      pool := Insert(pool, id, i, index);
    }

    method GlobalInsertSorted(order: nat, index: nat)
      returns (r: Result<(), FrameAllocError>, ghost i: nat)
      requires Intact() && order < MAX_ORDER_SLOTS && Ascending(Starts(pool, Global(order)))
      requires index < nodes.Length && pool.owner[index] == Held
      modifies this`pool, nodes, globalFree
      ensures Intact()
      ensures r.Err? <==> old(nodes[index].start in Starts(pool, Global(order)))
      ensures r.Err? ==> r.error == InvalidFrame && pool == old(pool)
      ensures r.Ok? ==> Sorted(old(Starts(pool, Global(order))), i, old(nodes[index].start))
      ensures r.Ok? ==> pool == Insert(old(pool), Global(order), i, index)
    {
      var start := nodes[index].start;
      var previous, cursor;
      previous, cursor, i := GlobalSeek(order, start);
      ghost var starts := Starts(pool, Global(order));
      if cursor.Some? && nodes[cursor.value].start == start {
        assert starts[i] == start;
        return Err(InvalidFrame), i;
      }
      assert i < |starts| ==> starts[i] != start;
      GlobalLink(order, index, previous, cursor, i);
      r := Ok(());
    }

    /** The relinking at the end of a removal. */
    method GlobalUnlink(order: nat, index: nat, previous: Option<nat>, ghost i: nat)
      requires Intact() && order < MAX_ORDER_SLOTS
      requires i < |pool.lists[Global(order)]| && index == pool.lists[Global(order)][i]
      requires previous == if i > 0 then Some(pool.lists[Global(order)][i - 1]) else None
      modifies this`pool, nodes, globalFree
      ensures Intact()
      ensures pool == Remove(old(pool), Global(order), i)
    {
      hide Remove, Chained, First, Without;
      ghost var id, s := Global(order), pool.lists[Global(order)];
      UnlinkFacts(pool, id, i);
      var next := nodes[index].next;
      SetLinks(previous, next, index, None);
      globalFree[order] :=
        ListHead(if previous.None? then next else globalFree[order].head, globalFree[order].len - 1);
      UnlinkedPool(pool, id, i, previous);
      pool := Remove(pool, id, i);
    }

    method GlobalRemoveByStart(order: nat, start: nat) returns (r: Option<nat>, ghost i: nat)
      requires Intact() && order < MAX_ORDER_SLOTS && Ascending(Starts(pool, Global(order)))
      modifies this`pool, nodes, globalFree
      ensures Intact()
      ensures r.None? <==> old(start !in Starts(pool, Global(order)))
      ensures r.None? ==> pool == old(pool)
      ensures r.Some? ==> i < |old(pool.lists[Global(order)])| && r.value == old(pool.lists[Global(order)])[i]
      ensures r.Some? ==> old(Starts(pool, Global(order)))[i] == start
      ensures r.Some? ==> pool == Remove(old(pool), Global(order), i)
    {
      var previous, cursor;
      previous, cursor, i := GlobalSeek(order, start);
      ghost var starts := Starts(pool, Global(order));
      if cursor.None? || nodes[cursor.value].start != start {
        assert i < |starts| ==> starts[i] != start;
        return None, i;
      }
      assert starts[i] == start;
      GlobalUnlink(order, cursor.value, previous, i);
      r := cursor;
    }

    // -------------------------------------------------------------- allocated blocks

    method FindAllocationIndex(start: nat) returns (r: Option<nat>, ghost i: nat)
      requires Intact()
      ensures r.None? <==> start !in Starts(pool, Allocated)
      ensures r.Some? ==> i < |pool.lists[Allocated]| && r.value == pool.lists[Allocated][i]
      ensures r.Some? ==> Starts(pool, Allocated)[i] == start
    {
      ghost var s, ns := pool.lists[Allocated], nodes[..];
      assert Chain(ns, pool.owner, Allocated, s);
      var cursor := allocations.head;
      i := 0;
      while cursor.Some?
        invariant 0 <= i <= |s|
        invariant cursor == if i < |s| then Some(s[i]) else None
        invariant forall j :: 0 <= j < i ==> Starts(pool, Allocated)[j] != start
        decreases |s| - i
      {
        if nodes[cursor.value].start == start {
          assert Starts(pool, Allocated)[i] == start;
          return cursor, i;
        }
        assert Linked(ns, s, i);
        cursor := nodes[cursor.value].next;
        i := i + 1;
      }
      r := None;
    }

    method AllocationSeek(target: nat, ghost i: nat) returns (previous: Option<nat>)
      requires Intact() && i < |pool.lists[Allocated]| && pool.lists[Allocated][i] == target
      ensures previous == if i > 0 then Some(pool.lists[Allocated][i - 1]) else None
    {
      ghost var s, ns := pool.lists[Allocated], nodes[..];
      assert Chain(ns, pool.owner, Allocated, s);
      previous := None;
      var cursor := allocations.head;
      ghost var k := 0;
      while cursor != Some(target)
        invariant 0 <= k <= i
        invariant cursor == Some(s[k])
        invariant previous == if k > 0 then Some(s[k - 1]) else None
        decreases i - k
      {
        assert Linked(ns, s, k);
        previous := cursor;
        cursor := nodes[cursor.value].next;
        k := k + 1;
      }
      assert k != i ==> Differ(s, k, i);
    }

    method RemoveAllocationNode(target: nat, ghost i: nat)
      requires Intact() && i < |pool.lists[Allocated]| && pool.lists[Allocated][i] == target
      modifies this`allocations, this`pool, nodes
      ensures Intact()
      ensures pool == Remove(old(pool), Allocated, i)
    {
      var previous := AllocationSeek(target, i);
      ghost var s := pool.lists[Allocated];
      UnlinkFacts(pool, Allocated, i);
      var next := nodes[target].next;
      SetLinks(previous, next, target, None);
      allocations := ListHead(if previous.None? then next else allocations.head, allocations.len - 1);
      UnlinkedPool(pool, Allocated, i, previous);
      pool := Remove(pool, Allocated, i);
    }

    // -------------------------------------------------------------- splitting

    /** `Intact` together with the allocator invariant; nodes may be held. */
    ghost predicate Sound()
      reads this, nodes, globalFree, perCpu
    {
      Intact() && Inv(pool, G()) && totalFrames == TotalFrames(ranges)
    }

    method DescribeNode(index: nat, start: nat, order: nat, refcount: nat)
      requires Intact() && index < nodes.Length
      modifies this`pool, nodes
      ensures Intact()
      ensures pool == Describe(old(pool), index, start, order, refcount)
    {
      DescribeKeepsChained(pool, index, start, order, refcount);
      nodes[index] := BlockNode(start, order, refcount, nodes[index].next);
      pool := Describe(pool, index, start, order, refcount);
    }

    /** Draw a spare node for a block: the first two statements of the split loop. */
    method SpawnNode(start: nat, order: nat) returns (m: nat)
      requires Intact() && ListsOk(pool, G()) && NodesOk(pool, G()) && pool.lists[Unused] != []
      modifies this`pool, this`unused, nodes
      ensures Intact() && ListsOk(pool, G()) && NodesOk(pool, G())
      ensures Spawned(old(pool), pool, m, start, order)
      ensures pool.lists == old(pool.lists[Unused := pool.lists[Unused][1..]])
      ensures SameGrants(old(pool), pool)
      ensures forall k :: 0 <= k < MAX_ORDER_SLOTS ==> Starts(pool, Global(k)) == old(Starts(pool, Global(k)))
    {
      SpawnIsSound(pool, start, order, G());
      var r := AllocUnused();
      assert r.Ok?;
      m := r.value;
      DescribeNode(m, start, order, 0);
      assert pool == Spawn(old(pool), start, order);
      SpawnedLists(old(pool), start, order, G());
    }

    /** Put the upper half of the held block of `n` on the free list of order `k`. */
    method FreeUpperHalf(n: nat, k: nat) returns (ghost q: Pool, ghost m: nat, ghost i: nat)
      requires Sound() && n < nodes.Length && pool.owner[n] == Held && nodes[n].order == k + 1
      requires pool.lists[Unused] != []
      modifies this`pool, this`unused, nodes, globalFree
      ensures Intact() && HalfFreed(old(pool), q, n, m, k, i, G())
      ensures pool == Insert(q, Global(k), i, m)
    {
      hide Chain, OnItsList, NodeFits, Spawned, SameGrants;
      ghost var p := pool;
      var start := nodes[n].start;
      SplitRoom(p, n, k, G());
      var index := SpawnNode(start + Pow2(k), k);
      m, q := index, pool;
      assert FreeListOk(q, k, maxOrder);
      var r;
      r, i := GlobalInsertSorted(k, index);
      assert r.Ok?;
    }

    /** One turn of the split loop: the held block of `n` is halved and its upper half freed. */
    method SplitOnce(n: nat, k: nat)
      requires Sound() && n < nodes.Length && pool.owner[n] == Held && nodes[n].order == k + 1
      requires pool.lists[Unused] != []
      modifies this`pool, this`unused, nodes, globalFree
      ensures Sound() && pool.owner[n] == Held
      ensures nodes[n].order == k && nodes[n].start == old(nodes[n].start)
      ensures Shifted(old(pool), pool, k, 1, 1) && k < maxOrder
      ensures SameGrants(old(pool), pool) && SameHeld(old(pool), pool, n)
    {
      hide Chain, OnItsList, FreeListOk, ListsOk, HalfFreed, SameHeld;
      hide Inv, SameGrants;
      var start := nodes[n].start;
      ghost var q, m, i := FreeUpperHalf(n, k);
      DescribeNode(n, start, k, 0);
      SplitOutcome(old(pool), q, pool, n, m, k, i, G());
    }

    method AllocFromGlobal(order: nat) returns (r: Result<nat, FrameAllocError>)
      requires Sound() && order <= maxOrder
      modifies this`pool, this`unused, nodes, globalFree
      ensures Sound()
      ensures r == Err(OutOfMemory) <==> NoneFrom(old(pool), order, maxOrder)
      ensures r == Err(MetadataExhausted) <==> ShortOfNodes(old(pool), order, maxOrder)
      ensures r.Err? ==> pool == old(pool) && r.error in {OutOfMemory, MetadataExhausted}
      ensures r.Ok? ==> DrewOne(old(pool), pool, order, maxOrder)
      ensures r.Ok? ==> r.value < nodes.Length && pool.owner[r.value] == Held && old(pool.owner[r.value]) != Held
      ensures r.Ok? ==> nodes[r.value].order == order
      ensures r.Ok? ==> SameGrants(old(pool), pool) && SameHeld(old(pool), pool, r.value)
    {
      hide Chain, TilesOf, ListsOk, NodesOk, Tiling, SameGrants, NoneFrom, CountsOf, Available;
      ghost var c := CountsOf(pool, maxOrder);
      var current := FindFree(order);
      if current > maxOrder {
        return Err(OutOfMemory);
      }
      if unused.len < current - order {
        return Err(MetadataExhausted);
      }
      var popped := TakeFirst(current);
      FirstTaken(old(pool), pool, current, maxOrder);
      SplitDown(popped, current, order, old(pool), c);
      r := Ok(popped);
    }

    /** The upward search for a free list that is not empty. */
    method FindFree(order: nat) returns (current: nat)
      requires Sound() && order <= maxOrder
      ensures unused.len == Spare(pool) && |CountsOf(pool, maxOrder)| == maxOrder + 1
      ensures current > maxOrder <==> NoneFrom(pool, order, maxOrder)
      ensures current > maxOrder ==> Available(CountsOf(pool, maxOrder), order) == 0
      ensures current <= maxOrder ==>
                FirstOf(CountsOf(pool, maxOrder), order, current) && pool.lists[Global(current)] != []
      ensures current <= maxOrder ==> Available(CountsOf(pool, maxOrder), order) > 0
      ensures current <= maxOrder ==> Splits(CountsOf(pool, maxOrder), order) == current - order
    {
      hide Chain, TilesOf, ListsOk, NodesOk, Tiling, Available, Splits;
      current := order;
      while current <= maxOrder && globalFree[current].head.None?
        invariant order <= current <= maxOrder + 1
        invariant forall k :: order <= k < current ==> CountAt(pool, k) == 0
      {
        assert pool.lists[Global(current)] == [];
        current := current + 1;
      }
      NoneFromCounts(pool, order, maxOrder);
      if current <= maxOrder {
        assert CountAt(pool, current) > 0;
        FirstIsSplit(CountsOf(pool, maxOrder), order, current);
      } else {
        NoneAvailable(CountsOf(pool, maxOrder), order);
      }
    }

    /** The downward loop: cut the held block to size, one order at a time. */
    method SplitDown(popped: nat, from: nat, order: nat, ghost origin: Pool, ghost c: Counts)
      requires Sound() && popped < nodes.Length && pool.owner[popped] == Held && nodes[popped].order == from
      requires order <= from <= maxOrder && Spare(pool) >= from - order
      requires SameGrants(origin, pool) && SameHeld(origin, pool, popped)
      requires |c| == maxOrder + 1 && FirstOf(c, order, from) && CountsOf(pool, maxOrder) == c[from := c[from] - 1]
      modifies this`pool, this`unused, nodes, globalFree
      ensures Sound() && pool.owner[popped] == Held && nodes[popped].order == order
      ensures SameGrants(origin, pool) && SameHeld(origin, pool, popped)
      ensures Available(c, order) > 0 && CountsOf(pool, maxOrder) == AfterDraw(c, order)
      ensures Spare(pool) == old(Spare(pool)) - (from - order)
    {
      hide Chain, TilesOf, ListsOk, NodesOk, Tiling, SameGrants, CountsOf, Available, AfterDraw, FirstOf, Shifted;
      FirstIsDrawn(c, order, from, from);
      var current := from;
      while current > order
        invariant order <= current <= from
        invariant Sound() && pool.owner[popped] == Held && nodes[popped].order == current
        invariant Spare(pool) == old(Spare(pool)) - (from - current)
        invariant SameGrants(origin, pool) && SameHeld(origin, pool, popped)
        invariant Available(c, current) > 0 && CountsOf(pool, maxOrder) == AfterDraw(c, current)
      {
        current := current - 1;
        ghost var p := pool;
        SplitOnce(popped, current);
        FirstIsDrawn(c, order, from, current);
        ShiftedCounts(p, pool, current, 1, 1, maxOrder);
        SameGrantsTrans(origin, p, pool);
      }
    }

    /** Pop a block that the search has found. */
    method TakeFirst(order: nat) returns (n: nat)
      requires Sound() && order <= maxOrder && pool.lists[Global(order)] != []
      modifies this`pool, nodes, globalFree
      ensures Sound() && n < nodes.Length && pool.owner[n] == Held && nodes[n].order == order
      ensures old(pool.owner[n]) == Global(order)
      ensures Shifted(old(pool), pool, order, -1, 0)
      ensures SameGrants(old(pool), pool) && SameHeld(old(pool), pool, n)
    {
      hide Tiling, ListsOk, SameGrants;
      TakeKeepsInv(pool, Global(order), 0, G());
      RemoveKeepsGrants(pool, Global(order), 0);
      HeadLinks(pool, Global(order));
      var r := GlobalPopFirst(order);
      assert r.Some?;
      n := r.value;
    }

    // -------------------------------------------------------------- coalescing

    /** The held node `n` is about to be described as `(block, order)`; since `origin` no block
        in a caller's hands has been touched and no other node has been taken. */
    ghost predicate Growing(n: nat, block: nat, order: nat, origin: Pool)
      reads this, nodes, globalFree, perCpu
    {
      && Intact() && n < nodes.Length && pool.owner[n] == Held
      && Inv(Describe(pool, n, block, order, 0), G())
      && SameGrants(origin, pool) && SameHeld(origin, pool, n)
    }

    /** One turn of the coalescing loop: absorb the buddy if it is free. */
    method JoinBuddy(n: nat, block: nat, order: nat, ghost origin: Pool)
      returns (joined: bool, block': nat, order': nat)
      requires Growing(n, block, order, origin) && order < maxOrder
      modifies this`pool, this`unused, nodes, globalFree
      ensures Growing(n, block', order', origin)
      ensures joined ==> block' == Min(block, Buddy(block, order)) && order' == order + 1
      ensures !joined ==> block' == block && order' == order
      ensures !joined ==> BuddyAbsent(block, order)
    {
      hide StartsOf, First, Inv, SameGrants, Chain;
      ghost var p := pool;
      DescribedListOk(p, n, block, order, G());
      var buddy := Buddy(block, order);
      var r, i := GlobalRemoveByStart(order, buddy);
      if r.None? {
        return false, block, order;
      }
      joined, block', order' := true, Min(block, buddy), order + 1;
      AbsorbRemoved(n, r.value, block, order, i, p, origin, block', order');
    }

    /** The buddy's node has left its list: it becomes spare and its frames join the block of `n`. */
    method AbsorbRemoved(n: nat, b: nat, ghost block: nat, ghost order: nat, ghost i: nat, ghost p: Pool,
                         ghost origin: Pool, ghost low: nat, ghost up: nat)
      requires Chained(p) && n < |p.nodes| && p.owner[n] == Held && order < maxOrder
      requires Inv(Describe(p, n, block, order, 0), G()) && SameGrants(origin, p) && SameHeld(origin, p, n)
      requires Unused in p.lists && Global(order) in p.lists && i < |p.lists[Global(order)]|
               && b == p.lists[Global(order)][i]
      requires Starts(p, Global(order))[i] == Buddy(block, order)
      requires low == Min(block, Buddy(block, order)) && up == order + 1
      requires Intact() && pool == Remove(p, Global(order), i)
      modifies this`pool, this`unused, nodes
      ensures Growing(n, low, up, origin)
    {
      hide StartsOf, First, Inv, SameGrants;
      AbsorbKeepsInv(p, n, block, order, i, b, low, up, G());
      AbsorbKeepsGrants(p, Global(order), i);
      ReleaseUnused(b);
      SameGrantsTrans(origin, p, pool);
    }

    /** The coalescing loop: grow the block of `n` until it is maximal or its buddy is in use. */
    method Coalesce(n: nat, start: nat, startOrder: nat, ghost origin: Pool) returns (block: nat, order: nat)
      requires Growing(n, start, startOrder, origin)
      modifies this`pool, this`unused, nodes, globalFree
      ensures Growing(n, block, order, origin)
      ensures order >= maxOrder || BuddyAbsent(block, order)
    {
      hide Growing;
      block, order := start, startOrder;
      while order < maxOrder
        invariant Growing(n, block, order, origin)
        decreases maxOrder - order
      {
        var joined;
        joined, block, order := JoinBuddy(n, block, order, origin);
        if !joined {
          break;
        }
      }
    }

    ghost predicate BuddyAbsent(block: nat, order: nat)
      reads this
    {
      Chained(pool) && Global(order) in pool.lists && Buddy(block, order) !in Starts(pool, Global(order))
    }

    method FreeGlobalBlock(n: nat)
      requires Sound() && n < nodes.Length && pool.owner[n] == Held
      modifies this`pool, this`unused, nodes, globalFree
      ensures Sound() && pool.owner[n] != Held
      ensures SameGrants(old(pool), pool) && SameHeld(old(pool), pool, n)
    {
      assert Describe(pool, n, nodes[n].start, nodes[n].order, 0) == pool;
      SameGrantsRefl(pool);
      var block, order := Coalesce(n, nodes[n].start, nodes[n].order, pool);
      Settle(n, block, order, old(pool));
    }

    /** The end of a free: the grown block is written down and put on its free list. */
    method Settle(n: nat, block: nat, order: nat, ghost origin: Pool)
      requires Growing(n, block, order, origin) && totalFrames == TotalFrames(ranges)
      requires order >= maxOrder || BuddyAbsent(block, order)
      modifies this`pool, nodes, globalFree
      ensures Sound() && pool.owner[n] != Held
      ensures SameGrants(origin, pool) && SameHeld(origin, pool, n)
    {
      ghost var p := pool;
      DescribedListOk(p, n, block, order, G());
      DescribeNode(n, block, order, 0);
      ghost var q := pool;
      PlaceFree(n, order);
      DescribeKeepsGrants(p, n, block, order, 0);
      SameGrantsTrans(origin, p, q);
      SameGrantsTrans(origin, q, pool);
    }

    /** Sorted insertion of a fully described held block. */
    method PlaceFree(n: nat, order: nat)
      requires Sound() && n < nodes.Length && pool.owner[n] == Held && nodes[n].order == order
      requires order < MAX_ORDER_SLOTS
      requires order < maxOrder ==> Buddy(nodes[n].start, order) !in Starts(pool, Global(order))
      modifies this`pool, nodes, globalFree
      ensures Sound() && pool.owner[n] == Global(order)
      ensures SameGrants(old(pool), pool) && SameHeld(old(pool), pool, n)
    {
      hide Chain, Tiling, SameGrants;
      ghost var p := pool;
      InsideIsUnlisted(p, n, Global(order), nodes[n].start, G());
      assert FreeListOk(p, order, maxOrder);
      var r, i := GlobalInsertSorted(order, n);
      assert r.Ok?;
      GiveKeepsInv(p, Global(order), i, n, G());
      InsertKeepsGrants(p, Global(order), i, n);
    }

    // -------------------------------------------------------------- per-CPU refill and drain

    /** The public invariant: the allocator is sound and nothing is held. */
    ghost predicate Valid()
      reads this, nodes, globalFree, perCpu
    {
      Sound() && NoneHeld(pool)
    }

    /** `Valid`, and since `origin` no block in a caller's hands has been touched. */
    ghost predicate Stable(origin: Pool)
      reads this, nodes, globalFree, perCpu
    {
      Valid() && SameGrants(origin, pool)
    }

    /** Put the one held block into a CPU cache. */
    method CpuGive(cpu: nat, order: nat, n: nat, ghost origin: Pool)
      requires Sound() && SameGrants(origin, pool) && OnlyHeld(pool, n)
      requires cpu < cpuCount && order <= PER_CPU_CACHE_MAX_ORDER && nodes[n].order == order
      modifies this`pool, nodes, perCpu
      ensures Stable(origin) && |pool.lists[Cpu(cpu, order)]| == |old(pool.lists[Cpu(cpu, order)])| + 1
      ensures Shifted(old(pool), pool, order, 0, 0)
    {
      ghost var p := pool;
      assert Describe(p, n, nodes[n].start, order, 0) == p;
      CpuPush(cpu, order, n);
      GiveKeepsInv(p, Cpu(cpu, order), 0, n, G());
      InsertKeepsGrants(p, Cpu(cpu, order), 0, n);
      SameGrantsTrans(origin, p, pool);
    }

    /** Take the first block of a CPU cache, if there is one. */
    method CpuTake(cpu: nat, order: nat, ghost origin: Pool) returns (r: Option<nat>)
      requires Stable(origin) && cpu < cpuCount && order <= PER_CPU_CACHE_MAX_ORDER
      modifies this`pool, nodes, perCpu
      ensures Sound() && SameGrants(origin, pool)
      ensures r.None? <==> old(pool.lists[Cpu(cpu, order)]) == []
      ensures r.None? ==> Valid() && pool == old(pool)
      ensures r.Some? ==> OnlyHeld(pool, r.value) && nodes[r.value].order == order
      ensures r.Some? ==> |pool.lists[Cpu(cpu, order)]| == |old(pool.lists[Cpu(cpu, order)])| - 1
    {
      hide Chain, Tiling, FreeListOk;
      ghost var p, id := pool, Cpu(cpu, order);
      if p.lists[id] != [] {
        HeadLinks(p, id);
        TakeKeepsInv(p, id, 0, G());
        RemoveKeepsGrants(p, id, 0);
        SameGrantsTrans(origin, p, Remove(p, id, 0));
      }
      r := CpuPop(cpu, order);
    }

    /** Move one block from the global lists to a CPU cache. */
    method RefillOne(cpu: nat, order: nat, ghost origin: Pool) returns (r: Result<(), FrameAllocError>)
      requires Stable(origin) && cpu < cpuCount && order <= PER_CPU_CACHE_MAX_ORDER && order <= maxOrder
      modifies this`pool, this`unused, nodes, globalFree, perCpu
      ensures Stable(origin)
      ensures r.Ok? ==> perCpu[cpu, order].len == old(perCpu[cpu, order].len) + 1
      ensures r.Err? ==> pool == old(pool) && r.error in {OutOfMemory, MetadataExhausted}
      ensures r.Err? ==> perCpu[cpu, order].len == old(perCpu[cpu, order].len)
      ensures r == Err(OutOfMemory) <==> NoneFrom(old(pool), order, maxOrder)
      ensures r == Err(MetadataExhausted) <==> ShortOfNodes(old(pool), order, maxOrder)
      ensures r.Ok? ==> DrewOne(old(pool), pool, order, maxOrder)
    {
      hide Chain, ListsOk, NodesOk, Tiling, SameGrants, DrewOne, ShortOfNodes, NoneFrom;
      ghost var p := pool;
      var block := AllocFromGlobal(order);
      if block.Err? {
        return Err(block.error);
      }
      SameGrantsTrans(origin, p, pool);
      ghost var q := pool;
      CpuGive(cpu, order, block.value, origin);
      DrewAndGave(p, q, pool, order, maxOrder);
      r := Ok(());
    }

    lemma RefillBegins(cpu: nat, order: nat, origin: Pool)
      requires Stable(origin) && cpu < cpuCount && order <= PER_CPU_CACHE_MAX_ORDER && order <= maxOrder
      ensures cpu < perCpu.Length0 && order < perCpu.Length1 && RefillBatch(order) > 0
      ensures DrewSome(pool, pool, order, 0, maxOrder)
    {
      DrawsBegin(CountsOf(pool, maxOrder), Spare(pool), order);
    }

    /** Moves a batch of blocks to the cache, or as many as there are. It fails for want of nodes if and only if
        the splits for them take more nodes than are spare, and then it has cached as many as the nodes allow. */
    method RefillPerCpuCache(cpu: nat, order: nat, ghost origin: Pool) returns (r: Result<(), FrameAllocError>)
      requires Stable(origin) && cpu < cpuCount && order <= PER_CPU_CACHE_MAX_ORDER && order <= maxOrder
      modifies this`pool, this`unused, nodes, globalFree, perCpu
      ensures Stable(origin)
      ensures r.Err? ==> r.error in {OutOfMemory, MetadataExhausted}
      ensures r == Err(OutOfMemory) <==> old(perCpu[cpu, order].len) == 0 && NoneFrom(old(pool), order, maxOrder)
      ensures r == Err(OutOfMemory) ==> pool == old(pool)
      ensures r == Err(MetadataExhausted) <==> Exhausted(old(pool), order, maxOrder)
      ensures r == Err(MetadataExhausted) ==> perCpu[cpu, order].len >= old(perCpu[cpu, order].len)
      ensures r == Err(MetadataExhausted) ==>
                NodesReach(old(pool), order, perCpu[cpu, order].len - old(perCpu[cpu, order].len), maxOrder)
      ensures r.Ok? ==> 0 < perCpu[cpu, order].len == old(perCpu[cpu, order].len) + Batch(old(pool), order, maxOrder)
    {
      hide Stable, DrewSome, DrewOne, ShortOfNodes, NoneFrom, RefillBatch, Exhausted, NodesReach, Batch;
      RefillBegins(cpu, order, origin);
      ghost var p, had := pool, perCpu[cpu, order].len;
      var target := RefillBatch(order);
      var count := 0;
      while count < target
        invariant Stable(origin) && count <= target
        invariant perCpu[cpu, order].len == had + count
        invariant DrewSome(p, pool, order, count, maxOrder)
      {
        ghost var q := pool;
        var one := RefillOne(cpu, order, origin);
        RefillStops(p, q, order, count, maxOrder);
        if one.Err? && one.error != OutOfMemory {
          return one;
        }
        if one.Err? {
          break;
        }
        RefillStep(p, q, pool, order, count, maxOrder);
        count := count + 1;
      }
      RefillEnds(p, pool, order, count, maxOrder);
      if perCpu[cpu, order].len == 0 {
        return Err(OutOfMemory);
      }
      r := Ok(());
    }

    /** Move one cached block back to the global lists. */
    method DrainOne(cpu: nat, order: nat, ghost origin: Pool)
      requires Stable(origin) && cpu < cpuCount && order <= PER_CPU_CACHE_MAX_ORDER && perCpu[cpu, order].len > 0
      modifies this`pool, this`unused, nodes, globalFree, perCpu
      ensures Stable(origin) && perCpu[cpu, order].len == old(perCpu[cpu, order].len) - 1
    {
      var n := CpuTake(cpu, order, origin);
      assert n.Some?;
      ghost var p := pool;
      FreeGlobalBlock(n.value);
      SameGrantsTrans(origin, p, pool);
    }

    method DrainPerCpuCache(cpu: nat, order: nat, ghost origin: Pool)
      requires Stable(origin) && cpu < cpuCount && order <= PER_CPU_CACHE_MAX_ORDER
      modifies this`pool, this`unused, nodes, globalFree, perCpu
      ensures Stable(origin)
      ensures old(perCpu[cpu, order].len) <= HighWatermark(order) ==>
                perCpu[cpu, order].len == old(perCpu[cpu, order].len)
      ensures old(perCpu[cpu, order].len) > HighWatermark(order) ==> perCpu[cpu, order].len == RefillBatch(order)
    {
      var low, high := RefillBatch(order), HighWatermark(order);
      if perCpu[cpu, order].len <= high {
        return;
      }
      while perCpu[cpu, order].len > low
        invariant Stable(origin) && perCpu[cpu, order].len >= low
        decreases perCpu[cpu, order].len
      {
        DrainOne(cpu, order, origin);
      }
    }

    // -------------------------------------------------------------- the public operations

    ghost function Granted(): map<nat, Grant>
      requires Intact()
      reads this, nodes, globalFree, perCpu
    {
      Grants(pool)
    }

    method AllocBlock(cpu: nat, order: nat) returns (r: Result<nat, FrameAllocError>)
      requires Valid() && order <= maxOrder
      modifies this`pool, this`unused, nodes, globalFree, perCpu
      ensures Sound() && SameGrants(old(pool), pool)
      ensures r == Err(InvalidCpu) <==> cpu >= cpuCount
      ensures r.Err? ==> Valid() && r.error in {InvalidCpu, OutOfMemory, MetadataExhausted}
      ensures r.Ok? ==> OnlyHeld(pool, r.value) && nodes[r.value].order == order
      ensures r == Err(OutOfMemory) <==>
                cpu < cpuCount && NoneCached(old(pool), cpu, order) && NoneFrom(old(pool), order, maxOrder)
      ensures r == Err(MetadataExhausted) <==>
                cpu < cpuCount && NoneCached(old(pool), cpu, order) && Exhausted(old(pool), order, maxOrder)
    {
      hide Chain, ListsOk, NodesOk, Tiling, Exhausted, ShortOfNodes, NoneFrom, DrewOne, SameGrants;
      SameGrantsRefl(pool);
      if cpu >= cpuCount {
        return Err(InvalidCpu);
      }
      if order <= PER_CPU_CACHE_MAX_ORDER {
        r := AllocCached(cpu, order, pool);
      } else {
        UncachedExhausted(pool, order, maxOrder);
        r := AllocFromGlobal(order);
      }
    }

    /** The cache path of `alloc_block`: pop, or refill and pop. */
    method AllocCached(cpu: nat, order: nat, ghost origin: Pool) returns (r: Result<nat, FrameAllocError>)
      requires Stable(origin) && order <= maxOrder && order <= PER_CPU_CACHE_MAX_ORDER && cpu < cpuCount
      modifies this`pool, this`unused, nodes, globalFree, perCpu
      ensures Sound() && SameGrants(origin, pool)
      ensures r.Err? ==> Valid() && r.error in {OutOfMemory, MetadataExhausted}
      ensures r.Ok? ==> OnlyHeld(pool, r.value) && nodes[r.value].order == order
      ensures r == Err(OutOfMemory) <==> NoneCached(old(pool), cpu, order) && NoneFrom(old(pool), order, maxOrder)
      ensures r == Err(MetadataExhausted) <==>
                NoneCached(old(pool), cpu, order) && Exhausted(old(pool), order, maxOrder)
    {
      hide Chain, ListsOk, NodesOk, Tiling, Exhausted, NodesReach, Batch, NoneFrom, SameGrants;
      var cached := CpuTake(cpu, order, origin);
      if cached.Some? {
        return Ok(cached.value);
      }
      var refilled := RefillPerCpuCache(cpu, order, origin);
      if refilled.Err? {
        return Err(refilled.error);
      }
      cached := CpuTake(cpu, order, origin);
      assert cached.Some?;
      r := Ok(cached.value);
    }

    method MarkAllocated(n: nat, order: nat) returns (start: nat)
      requires Sound() && OnlyHeld(pool, n) && nodes[n].order == order
      modifies this`pool, this`allocations, nodes
      ensures Valid() && start == old(nodes[n].start)
      ensures start !in old(Granted()) && Granted() == old(Granted())[start := Grant(order, 1)]
    {
      hide Inv, Grants;
      HandOutAddsEntry(pool, n, G());
      nodes[n] := BlockNode(nodes[n].start, order, 1, allocations.head);
      allocations := ListHead(Some(n), allocations.len + 1);
      pool := HandOut(pool, n);
      start := nodes[n].start;
    }

    /** The block-level half of `alloc_frame_4k_on_cpu`. */
    method AllocOrder(cpu: nat, order: nat) returns (r: Result<nat, FrameAllocError>)
      requires Valid() && order <= maxOrder
      modifies this`pool, this`unused, this`allocations
      modifies nodes, globalFree, perCpu
      ensures Valid()
      ensures r == Err(InvalidCpu) <==> cpu >= cpuCount
      ensures r.Err? ==> Granted() == old(Granted()) && r.error in {InvalidCpu, OutOfMemory, MetadataExhausted}
      ensures r.Ok? ==> r.value !in old(Granted()) && Granted() == old(Granted())[r.value := Grant(order, 1)]
      ensures r == Err(OutOfMemory) <==>
                cpu < cpuCount && NoneCached(old(pool), cpu, order) && NoneFrom(old(pool), order, maxOrder)
      ensures r == Err(MetadataExhausted) <==>
                cpu < cpuCount && NoneCached(old(pool), cpu, order) && Exhausted(old(pool), order, maxOrder)
    {
      ghost var p := pool;
      var block := AllocBlock(cpu, order);
      SameGrantsSameMap(p, pool, G());
      if block.Err? {
        return Err(block.error);
      }
      var start := MarkAllocated(block.value, order);
      r := Ok(start);
    }

    method AllocFrames(cpu: nat, count: nat) returns (r: Result<nat, FrameAllocError>)
      requires Valid() && Usize(count)
      modifies this`pool, this`unused, this`allocations
      modifies nodes, globalFree, perCpu
      ensures Valid()
      ensures r == Err(InvalidCount) <==> count == 0 || count > Pow2(maxOrder)
      ensures r == Err(InvalidCpu) <==> 0 < count <= Pow2(maxOrder) && cpu >= cpuCount
      ensures r.Err? ==> Granted() == old(Granted())
      ensures r.Err? ==> r.error in {InvalidCount, InvalidCpu, OutOfMemory, MetadataExhausted}
      ensures r.Ok? ==> FrameAt(r.value).Some? && FrameAt(r.value).value !in old(Granted())
      ensures r.Ok? ==> Granted() == old(Granted())[FrameAt(r.value).value := Grant(CeilLog2(count), 1)]
      ensures r == Err(OutOfMemory) <==>
                0 < count <= Pow2(maxOrder) && cpu < cpuCount
                && NoneCached(old(pool), cpu, CeilLog2(count)) && NoneFrom(old(pool), CeilLog2(count), maxOrder)
      ensures r == Err(MetadataExhausted) <==>
                0 < count <= Pow2(maxOrder) && cpu < cpuCount
                && NoneCached(old(pool), cpu, CeilLog2(count)) && Exhausted(old(pool), CeilLog2(count), maxOrder)
    {
      if count == 0 {
        return Err(InvalidCount);
      }
      var order := CeilLog2(count);
      CeilLog2IsLeast(count, maxOrder);
      if order > maxOrder {
        return Err(InvalidCount);
      }
      r := AllocOrder(cpu, order);
      if r.Ok? {
        AddressNamesFrame(r.value);
        r := Ok(AddressOf(r.value));
      }
    }

    /** Look an address up among the granted blocks. */
    method FindGrant(addr: nat) returns (r: Option<nat>, ghost i: nat)
      requires Valid()
      ensures r.None? <==> !IsGranted(addr)
      ensures r.Some? ==> i < |pool.lists[Allocated]| && r.value == pool.lists[Allocated][i] && r.value < nodes.Length
      ensures r.Some? ==> nodes[r.value].start == FrameAt(addr).value && 1 <= nodes[r.value].refcount <= U32_MAX
      ensures r.Some? ==> GrantAt(addr) == Grant(nodes[r.value].order, nodes[r.value].refcount)
    {
      var frame := FrameAt(addr);
      if frame.None? {
        return None, 0;
      }
      r, i := FindAllocationIndex(frame.value);
      if r.Some? {
        GrantsAt(pool, i, G());
        assert Chain(pool.nodes, pool.owner, Allocated, pool.lists[Allocated]);
      }
    }

    /** The address is that of a granted block. */
    ghost predicate IsGranted(addr: nat)
      requires Intact()
      reads this, nodes, globalFree, perCpu
    {
      FrameAt(addr).Some? && FrameAt(addr).value in Granted()
    }

    ghost function GrantAt(addr: nat): Grant
      requires Intact() && IsGranted(addr)
      reads this, nodes, globalFree, perCpu
    {
      Granted()[FrameAt(addr).value]
    }

    method RetainFrame(addr: nat) returns (r: Result<nat, FrameAllocError>)
      requires Valid()
      modifies this`pool, nodes
      ensures Valid()
      ensures r == Err(InvalidFrame) <==> !old(IsGranted(addr))
      ensures r.Err? ==> Granted() == old(Granted()) && r.error in {InvalidFrame, RefCountOverflow}
      ensures r == Err(RefCountOverflow) ==> old(GrantAt(addr)).refcount == U32_MAX
      ensures r.Ok? ==> r.value == old(GrantAt(addr)).refcount + 1 <= U32_MAX
      ensures r.Ok? ==> Granted() == old(Recounted(addr, GrantAt(addr).refcount + 1))
    {
      hide Coupled, Chained, Inv;
      var found, i := FindGrant(addr);
      if found.None? {
        return Err(InvalidFrame);
      }
      var n := found.value;
      if nodes[n].refcount == U32_MAX {
        return Err(RefCountOverflow);
      }
      var count := nodes[n].refcount + 1;
      SetCount(n, i, count);
      r := Ok(count);
    }

    /** The granted blocks with one reference count changed. */
    ghost function Recounted(addr: nat, refcount: nat): map<nat, Grant>
      requires Intact() && IsGranted(addr)
      reads this, nodes, globalFree, perCpu
    {
      Granted()[FrameAt(addr).value := Grant(GrantAt(addr).order, refcount)]
    }

    method SetCount(n: nat, ghost i: nat, refcount: nat)
      requires Valid() && i < |pool.lists[Allocated]| && n == pool.lists[Allocated][i]
      requires n < nodes.Length && 1 <= refcount <= U32_MAX
      modifies this`pool, nodes
      ensures Valid() && nodes[n].refcount == refcount
      ensures Granted() == old(Granted()[nodes[n].start := Grant(nodes[n].order, refcount)])
    {
      CountUpdatesEntry(pool, i, refcount, G());
      DescribeNode(n, nodes[n].start, nodes[n].order, refcount);
    }

    /** Take a block back from its last holder and hold it. */
    method ReclaimNode(n: nat, ghost i: nat)
      requires Valid() && i < |pool.lists[Allocated]| && n == pool.lists[Allocated][i] && n < nodes.Length
      modifies this`pool, this`allocations, nodes
      ensures Sound() && OnlyHeld(pool, n) && nodes[n].order == old(nodes[n].order)
      ensures Granted() == old(Granted()) - {old(nodes[n].start)}
    {
      hide Inv, Grants, Remove, Reclaim, Chain, Chained, NoneHeld, OnlyHeld, Starts, StartsOf;
      ReclaimFacts(pool, n, i, G());
      ReclaimDropsEntry(pool, i, G());
      DescribeNode(n, nodes[n].start, nodes[n].order, 0);
      RemoveAllocationNode(n, i);
    }

    method FreeFrames(cpu: nat, addr: nat) returns (r: Result<(), FrameAllocError>)
      requires Valid()
      modifies this`pool, this`unused, this`allocations
      modifies nodes, globalFree, perCpu
      ensures Valid()
      ensures r == if cpu >= cpuCount then Err(InvalidCpu)
                   else if !old(IsGranted(addr)) then Err(InvalidFrame) else Ok(())
      ensures r.Err? ==> Granted() == old(Granted())
      ensures r.Ok? && old(GrantAt(addr)).refcount > 1 ==>
                Granted() == old(Recounted(addr, GrantAt(addr).refcount - 1))
      ensures r.Ok? && old(GrantAt(addr)).refcount == 1 ==> Granted() == old(Granted()) - {FrameAt(addr).value}
    {
      hide Coupled, Chained, Inv;
      if cpu >= cpuCount {
        return Err(InvalidCpu);
      }
      var found, i := FindGrant(addr);
      if found.None? {
        return Err(InvalidFrame);
      }
      DropReference(cpu, found.value, i);
      r := Ok(());
    }

    /** Give up one reference, and the block with the last one. */
    method DropReference(cpu: nat, n: nat, ghost i: nat)
      requires Valid() && cpu < cpuCount && i < |pool.lists[Allocated]| && n == pool.lists[Allocated][i]
      requires n < nodes.Length && 1 <= nodes[n].refcount <= U32_MAX
      modifies this`pool, this`unused, this`allocations
      modifies nodes, globalFree, perCpu
      ensures Valid()
      ensures old(nodes[n].refcount) > 1 ==>
                Granted() == old(Granted()[nodes[n].start := Grant(nodes[n].order, nodes[n].refcount - 1)])
      ensures old(nodes[n].refcount) == 1 ==> Granted() == old(Granted()) - {old(nodes[n].start)}
    {
      hide Coupled, Chained, Inv;
      if nodes[n].refcount > 1 {
        SetCount(n, i, nodes[n].refcount - 1);
      } else {
        ReclaimNode(n, i);
        ReturnBlock(cpu, n);
      }
    }

    /** Give a held block back to the CPU cache or, when it is too large, to the global lists. */
    method ReturnBlock(cpu: nat, n: nat)
      requires Sound() && OnlyHeld(pool, n) && cpu < cpuCount
      modifies this`pool, this`unused, nodes, globalFree, perCpu
      ensures Valid() && Granted() == old(Granted())
    {
      ghost var p := pool;
      SameGrantsRefl(p);
      var order := nodes[n].order;
      if order <= PER_CPU_CACHE_MAX_ORDER {
        CpuGive(cpu, order, n, p);
        DrainPerCpuCache(cpu, order, p);
      } else {
        FreeGlobalBlock(n);
      }
      SameGrantsSameMap(p, pool, G());
    }

    method RefCountFor(addr: nat) returns (r: Option<nat>)
      requires Valid()
      ensures r == if IsGranted(addr) then Some(GrantAt(addr).refcount) else None
    {
      var found, i := FindGrant(addr);
      if found.None? {
        return None;
      }
      r := Some(nodes[found.value].refcount);
    }

    // -------------------------------------------------------------- boot

    constructor (nodeCap: nat, cpuSlots: nat)
      ensures nodes.Length == nodeCap && perCpu.Length0 == cpuSlots
      ensures fresh(nodes) && fresh(globalFree) && fresh(perCpu)
      ensures Shaped()
    {
      nodes := new BlockNode[nodeCap](i => EMPTY);
      globalFree := new ListHead[MAX_ORDER_SLOTS](i => ListHead(None, 0));
      perCpu := new ListHead[cpuSlots, PER_CPU_CACHE_MAX_ORDER + 1]((c, k) => ListHead(None, 0));
      totalFrames, maxOrder, cpuCount, ranges := 0, 0, 0, [];
      allocations, unused := ListHead(None, 0), ListHead(None, 0);
      pool := Pool([], map[], []);
    }

    ghost predicate Shaped() {
      && globalFree.Length == MAX_ORDER_SLOTS
      && perCpu.Length1 == PER_CPU_CACHE_MAX_ORDER + 1
    }

    /** `NodePool::init_in_place`: every node is spare, linked to its neighbour. */
    method InitNodes()
      modifies nodes, this`unused
      ensures forall i :: 0 <= i < nodes.Length ==>
                nodes[i] == EMPTY.(next := if i + 1 < nodes.Length then Some(i + 1) else None)
      ensures unused == ListHead(if nodes.Length == 0 then None else Some(0), nodes.Length)
    {
      for index := 0 to nodes.Length
        invariant forall i :: 0 <= i < index ==>
                    nodes[i] == EMPTY.(next := if i + 1 < nodes.Length then Some(i + 1) else None)
      {
        nodes[index] := EMPTY.(next := if index + 1 < nodes.Length then Some(index + 1) else None);
      }
      unused := ListHead(if nodes.Length == 0 then None else Some(0), nodes.Length);
    }

    /** Empty every list head and length. */
    method ClearLists()
      requires Shaped()
      modifies globalFree, perCpu, this`allocations
      ensures allocations == ListHead(None, 0)
      ensures forall k :: 0 <= k < MAX_ORDER_SLOTS ==> globalFree[k] == ListHead(None, 0)
      ensures forall c, k :: 0 <= c < perCpu.Length0 && 0 <= k <= PER_CPU_CACHE_MAX_ORDER ==>
                perCpu[c, k] == ListHead(None, 0)
    {
      forall k | 0 <= k < MAX_ORDER_SLOTS {
        globalFree[k] := ListHead(None, 0);
      }
      allocations := ListHead(None, 0);
      forall c, k | 0 <= c < perCpu.Length0 && 0 <= k <= PER_CPU_CACHE_MAX_ORDER {
        perCpu[c, k] := ListHead(None, 0);
      }
    }

    /** Everything but the free blocks. */
    method InitEmpty(usable: seq<Range>, order: nat, cpus: nat)
      requires Shaped() && Separated(usable) && order < MAX_ORDER_SLOTS && 0 < cpus <= perCpu.Length0
      modifies this, nodes, globalFree, perCpu
      ensures Seeded(0, 0) && Spare(pool) == nodes.Length
      ensures ranges == usable && maxOrder == order && cpuCount == cpus && totalFrames == TotalFrames(usable)
    {
      hide Chained, ListsOk, NodesOk, Tiling, TilesOf, SeedsBelow, FreshPool, NoneHeld;
      totalFrames, maxOrder, cpuCount, ranges := TotalFrames(usable), order, cpus, usable;
      ClearLists();
      InitNodes();
      pool := FreshPool(nodes.Length, perCpu.Length0);
      FreshLists(nodes.Length, G());
      FreshPoolIsSeeding(nodes.Length, G());
    }

    /** Between two cuts: `frames` frames are free, all below `pos`, and nothing is granted. */
    ghost predicate Seeded(pos: nat, frames: nat)
      reads this, nodes, globalFree, perCpu
    {
      Intact() && NoneHeld(pool) && Seeding(pool, G(), pos, frames) && pool.lists[Allocated] == []
    }

    /** One cut of the seeding loop. */
    method SeedBlock(start: nat, order: nat, ghost frames: nat, ghost end: nat, ghost frames': nat)
      requires Seeded(start, frames) && unused.head.Some?
      requires end == start + Pow2(order) && frames' == frames + Pow2(order)
      requires WellPlaced(Block(start, order), ranges, maxOrder) && CutLarge(Block(start, order), ranges, maxOrder)
      modifies this`pool, this`unused, nodes, globalFree
      ensures Seeded(end, frames') && Spare(pool) == old(Spare(pool)) - 1
    {
      hide FramesUpTo, Chain, Chained;
      ghost var p, b := pool, Block(start, order);
      SeedRoom(p, G(), start, frames, b);
      var m := SpawnNode(start, order);
      ghost var q := pool;
      assert FreeListOk(q, order, maxOrder);
      var placed, i := GlobalInsertSorted(order, m);
      assert placed.Ok?;
      SeedKeeps(p, q, pool, m, b, i, G(), start, frames, end, frames');
    }

    lemma SeededFacts(pos: nat, frames: nat)
      requires Seeded(pos, frames)
      ensures Separated(ranges) && (unused.head.None? <==> Spare(pool) == 0)
    {
      hide Chained, ListsOk, NodesOk, Tiling;
    }

    lemma SeedFurther(pos: nat, pos': nat, frames: nat)
      requires Seeded(pos, frames) && pos <= pos'
      ensures Seeded(pos', frames)
    {
      hide Coupled, Chained, ListsOk, NodesOk, Tiling, SeedsBelow;
      WeakenSeeding(pool, G(), pos, pos', frames);
    }

    method SeedRegion(ghost region: nat, start: nat, len: nat, ghost pos: nat, ghost frames: nat,
                      ghost end: nat, ghost frames': nat)
      returns (r: Result<(), FrameAllocError>)
      requires end == start + len && frames' == frames + len
      requires region < |ranges| && ranges[region] == Range(start, len) && Usize(len)
      requires Seeded(pos, frames) && pos <= start
      modifies this`pool, this`unused, nodes, globalFree
      ensures r.Err? ==> r.error == MetadataExhausted
      ensures r.Err? <==> old(Spare(pool)) < Cuts(start, len, maxOrder)
      ensures r.Ok? ==> Seeded(end, frames') && Spare(pool) == old(Spare(pool)) - Cuts(start, len, maxOrder)
    {
      hide Seeded, Spare, Separated, Aligned, LargestFit, WellPlaced, CutLarge;
      SeedFurther(pos, start, frames);
      var at: nat, remaining: nat := start, len;
      ghost var seeded := frames;
      while remaining > 0
        invariant at + remaining == start + len && start <= at && seeded == frames + (at - start)
        invariant Seeded(at, seeded)
        invariant Spare(pool) + Cuts(start, len, maxOrder) == old(Spare(pool)) + Cuts(at, remaining, maxOrder)
        decreases remaining
      {
        var order := MaxFitOrder(at, remaining, maxOrder);
        LargestFitIs(at, remaining, maxOrder, order);
        SeededFacts(at, seeded);
        if unused.head.None? {
          return Err(MetadataExhausted);
        }
        GreedyIsLarge(G(), region, at, remaining, order);
        var next: nat := at + Pow2(order);
        ghost var sum := seeded + Pow2(order);
        SeedBlock(at, order, seeded, next, sum);
        at, remaining, seeded := next, remaining - Pow2(order), sum;
      }
      assert at == end && seeded == frames';
      r := Ok(());
    }

    method InitFromUsableRanges(usable: seq<Range>, cpus: nat) returns (r: Result<(), FrameAllocError>)
      requires Shaped() && Separated(usable)
      modifies this, nodes, globalFree, perCpu
      ensures r == Err(InvalidCount) <==> cpus == 0 || cpus > perCpu.Length0
      ensures r == Err(InvalidMemoryMap) <==>
                0 < cpus <= perCpu.Length0 && (TotalFrames(usable) == 0 || !Usize(TotalFrames(usable)))
      ensures r.Err? ==> r.error in {InvalidCount, InvalidMemoryMap, MetadataExhausted}
      ensures r == Err(MetadataExhausted) <==>
                0 < cpus <= perCpu.Length0 && 0 < TotalFrames(usable) && Usize(TotalFrames(usable))
                && nodes.Length < CutsUpTo(usable, |usable|, FloorLog2(TotalFrames(usable)))
      ensures r.Ok? ==> Valid() && Granted() == map[]
      ensures r.Ok? ==> ranges == usable && cpuCount == cpus && totalFrames == TotalFrames(usable)
    {
      hide Seeded, Valid, Coupled, Chained, FloorLog2, CutsUpTo, Spare, Grants;
      if cpus == 0 || cpus > perCpu.Length0 {
        return Err(InvalidCount);
      }
      var total := TotalFrames(usable);
      if !Usize(total) || total == 0 {
        return Err(InvalidMemoryMap);
      }
      FloorLog2IsGreatest(total, 0);
      InitEmpty(usable, FloorLog2(total), cpus);
      ghost var pos, seeded;
      r, pos, seeded := SeedRegions();
      if r.Ok? {
        AllSeeded(pos, seeded);
      }
    }

    lemma AllSeeded(pos: nat, seeded: nat)
      requires Seeded(pos, seeded) && seeded == totalFrames == TotalFrames(ranges)
      ensures Valid() && Granted() == map[]
    {
      hide ListsOk, NodesOk, Tiling, Chain;
    }

    /** The loop over the usable ranges. */
    method SeedRegions() returns (r: Result<(), FrameAllocError>, ghost pos: nat, ghost seeded: nat)
      requires Seeded(0, 0) && Separated(ranges) && Usize(TotalFrames(ranges))
      modifies this`pool, this`unused, nodes, globalFree
      ensures r.Err? ==> r.error == MetadataExhausted
      ensures r.Err? <==> old(Spare(pool)) < CutsUpTo(ranges, |ranges|, maxOrder)
      ensures r.Ok? ==> Seeded(pos, seeded) && seeded == TotalFrames(ranges)
    {
      hide Seeded, Cuts, Spare;
      var index: nat := 0;
      pos, seeded := 0, 0;
      while index < |ranges|
        invariant index <= |ranges| && seeded == FramesUpTo(ranges, index)
        invariant Seeded(pos, seeded)
        invariant Spare(pool) + CutsUpTo(ranges, index, maxOrder) == old(Spare(pool))
        invariant index < |ranges| ==> pos <= ranges[index].start
      {
        var start, len := ranges[index].start, ranges[index].len;
        FramesBounded(ranges, index + 1);
        CutsGrow(ranges, index + 1, |ranges|, maxOrder);
        assert index + 1 < |ranges| ==> GapBetween(ranges, index, index + 1);
        ghost var end, sum := start + len, seeded + len;
        r := SeedRegion(index, start, len, pos, seeded, end, sum);
        if r.Err? {
          return;
        }
        pos, seeded, index := end, sum, index + 1;
      }
      r := Ok(());
    }
  }

  lemma FirstAfter(s: seq<nat>, i: nat, n: nat)
    requires i <= |s|
    ensures First(With(s, i, n)) == (if i == 0 then Some(n) else First(s)) && |With(s, i, n)| == |s| + 1
    ensures i < |s| ==> First(Without(s, i)) == (if i == 0 then NextOf(s, 0) else First(s))
    ensures i < |s| ==> |Without(s, i)| == |s| - 1
  {
  }

  /** What the writes of `SetLinks` make of the pool when they link a node in. */
  lemma LinkedPool(p: Pool, id: ListId, i: nat, n: nat, previous: Option<nat>, cursor: Option<nat>)
    requires Chained(p) && id in p.lists && i <= |p.lists[id]|
    requires n < |p.nodes| && p.owner[n] == Held
    requires cursor == if i < |p.lists[id]| then Some(p.lists[id][i]) else None
    requires previous == if i > 0 then Some(p.lists[id][i - 1]) else None
    ensures previous.Some? ==> previous.value < |p.nodes| && previous.value != n
    ensures Insert(p, id, i, n).nodes
         == (if previous.Some? then p.nodes[previous.value := p.nodes[previous.value].(next := Some(n))]
             else p.nodes)[n := p.nodes[n].(next := cursor)]
    ensures Chained(Insert(p, id, i, n))
    ensures Insert(p, id, i, n).lists == p.lists[id := With(p.lists[id], i, n)]
    ensures First(With(p.lists[id], i, n)) == if previous.None? then Some(n) else First(p.lists[id])
    ensures |With(p.lists[id], i, n)| == |p.lists[id]| + 1
  {
    LinkFacts(p, id, i);
    FirstAfter(p.lists[id], i, n);
    InsertKeepsChained(p, id, i, n);
  }

  /** What the writes of `SetLinks` make of the pool when they take a node out. */
  lemma UnlinkedPool(p: Pool, id: ListId, i: nat, previous: Option<nat>)
    requires Chained(p) && id in p.lists && i < |p.lists[id]|
    requires previous == if i > 0 then Some(p.lists[id][i - 1]) else None
    ensures p.lists[id][i] < |p.nodes|
    ensures previous.Some? ==> previous.value < |p.nodes| && previous.value != p.lists[id][i]
    ensures Remove(p, id, i).nodes
         == (if previous.Some? then
               p.nodes[previous.value := p.nodes[previous.value].(next := p.nodes[p.lists[id][i]].next)]
             else p.nodes)[p.lists[id][i] := p.nodes[p.lists[id][i]].(next := None)]
    ensures Chained(Remove(p, id, i))
    ensures Remove(p, id, i).lists == p.lists[id := Without(p.lists[id], i)]
    ensures First(Without(p.lists[id], i))
         == if previous.None? then p.nodes[p.lists[id][i]].next else First(p.lists[id])
    ensures |Without(p.lists[id], i)| == |p.lists[id]| - 1
  {
    UnlinkFacts(p, id, i);
    FirstAfter(p.lists[id], i, 0);
    RemoveKeepsChained(p, id, i);
  }

  lemma LinkFacts(p: Pool, id: ListId, i: nat)
    requires Chained(p) && id in p.lists && i <= |p.lists[id]|
    ensures i > 0 ==> p.lists[id][i - 1] < |p.nodes| && p.owner[p.lists[id][i - 1]] == id
  {
    assert Chain(p.nodes, p.owner, id, p.lists[id]);
  }

  lemma UnlinkFacts(p: Pool, id: ListId, i: nat)
    requires Chained(p) && id in p.lists && i < |p.lists[id]|
    ensures p.lists[id][i] < |p.nodes|
    ensures p.nodes[p.lists[id][i]].next == if i + 1 < |p.lists[id]| then Some(p.lists[id][i + 1]) else None
    ensures i > 0 ==> p.lists[id][i - 1] < |p.nodes| && p.lists[id][i - 1] != p.lists[id][i]
  {
    assert Chain(p.nodes, p.owner, id, p.lists[id]);
    assert Linked(p.nodes, p.lists[id], i);
    assert i > 0 ==> Differ(p.lists[id], i - 1, i);
  }

  /** Position `i` is where `start` belongs in the ascending sequence `s`. */
  predicate Sorted(s: seq<nat>, i: nat, start: nat) {
    && i <= |s|
    && (forall j :: 0 <= j < i ==> s[j] < start)
    && (forall j :: i <= j < |s| ==> start < s[j])
  }

  lemma HeadLinks(p: Pool, id: ListId)
    requires Chained(p) && id in p.lists && p.lists[id] != []
    ensures p.lists[id][0] < |p.nodes| && p.owner[p.lists[id][0]] == id
    ensures p.nodes[p.lists[id][0]].next == First(Without(p.lists[id], 0))
  {
    assert Chain(p.nodes, p.owner, id, p.lists[id]);
    assert Linked(p.nodes, p.lists[id], 0);
  }

  lemma SpawnedLists(p: Pool, start: nat, order: nat, g: Geometry)
    requires Chained(p) && ListsOk(p, g) && Unused in p.lists && p.lists[Unused] != []
    ensures Chained(Spawn(p, start, order))
    ensures SameGrants(p, Spawn(p, start, order))
    ensures forall k :: 0 <= k < MAX_ORDER_SLOTS ==>
              Global(k) in p.lists && Starts(Spawn(p, start, order), Global(k)) == Starts(p, Global(k))
  {
    assert Chain(p.nodes, p.owner, Unused, p.lists[Unused]);
    assert Listed(g, Allocated);
    RemoveKeepsChained(p, Unused, 0);
    RemoveKeepsGrants(p, Unused, 0);
    DescribeKeepsChained(Remove(p, Unused, 0), p.lists[Unused][0], start, order, 0);
    DescribeKeepsGrants(Remove(p, Unused, 0), p.lists[Unused][0], start, order, 0);
    SameGrantsTrans(p, Remove(p, Unused, 0), Spawn(p, start, order));
    forall k | 0 <= k < MAX_ORDER_SLOTS
      ensures Global(k) in p.lists && Starts(Spawn(p, start, order), Global(k)) == Starts(p, Global(k))
    {
      assert Listed(g, Global(k));
      SpawnedStarts(p, start, order, Global(k));
    }
  }

  /** Neither the upper half of a held block nor its lower half starts a listed block. */
  lemma SplitRoom(p: Pool, n: nat, k: nat, g: Geometry)
    requires Inv(p, g) && n < |p.nodes| && p.owner[n] == Held && p.nodes[n].order == k + 1
    ensures k + 1 < MAX_ORDER_SLOTS && Global(k) in p.lists
    ensures p.nodes[n].start + Pow2(k) !in Starts(p, Global(k))
    ensures Buddy(p.nodes[n].start + Pow2(k), k) !in Starts(p, Global(k))
  {
    assert Placed(TilesOf(p), n, g.ranges, g.maxOrder);
    assert Listed(g, Global(k));
    HalvesAreBuddies(p.nodes[n].start, k);
    InsideIsUnlisted(p, n, Global(k), p.nodes[n].start, g);
    InsideIsUnlisted(p, n, Global(k), p.nodes[n].start + Pow2(k), g);
  }

  lemma SpawnKeeps(p: Pool, q: Pool, m: nat, n: nat, start: nat, order: nat)
    requires Spawned(p, q, m, start, order) && n < |p.nodes| && p.owner[n] == Held
    ensures n != m && q.owner[n] == Held && q.nodes[n].start == p.nodes[n].start
  {
    assert TilesOf(q)[n] == TilesOf(p)[n];
    assert TileOf(q, n) == TileOf(p, n);
  }

  /** Node `m` of `q` stands for the upper half of the held block of `n` in `p`, and `i` is where
      that half belongs in the free list of order `k`. */
  ghost predicate HalfFreed(p: Pool, q: Pool, n: nat, m: nat, k: nat, i: nat, g: Geometry) {
    && n < |p.nodes| && |p.nodes| == |p.owner|
    && Chained(p) && Chained(q) && ListsOk(q, g) && NodesOk(q, g)
    && Spawned(p, q, m, p.nodes[n].start + Pow2(k), k) && SameGrants(p, q)
    && Unused in p.lists && p.lists[Unused] != [] && q.lists == p.lists[Unused := p.lists[Unused][1..]]
    && Global(k) in p.lists && Global(k) in q.lists
    && Starts(q, Global(k)) == Starts(p, Global(k))
    && Sorted(Starts(q, Global(k)), i, p.nodes[n].start + Pow2(k))
  }

  lemma SplitOutcome(p: Pool, q: Pool, f: Pool, n: nat, m: nat, k: nat, i: nat, g: Geometry)
    requires Inv(p, g) && n < |p.nodes| && p.owner[n] == Held && p.nodes[n].order == k + 1
    requires HalfFreed(p, q, n, m, k, i, g)
    requires f == Describe(Insert(q, Global(k), i, m), n, p.nodes[n].start, k, 0)
    ensures Inv(f, g) && f.owner[n] == Held
    ensures f.nodes[n].order == k && f.nodes[n].start == p.nodes[n].start
    ensures Shifted(p, f, k, 1, 1) && k < g.maxOrder
    ensures SameGrants(p, f) && SameHeld(p, f, n)
  {
    hide ListsOk, NodesOk, Tiling, SameGrants;
    SplitRoom(p, n, k, g);
    SpawnKeeps(p, q, m, n, p.nodes[n].start + Pow2(k), k);
    SplitKeepsInv(p, n, k, i, m, q, f, g);
    HeldOrder(p, n, g);
    SplitShifts(p, q, k, i, m);
    SplitKeepsGrants(p, q, n, m, k, i);
  }

  lemma HeldOrder(p: Pool, n: nat, g: Geometry)
    requires Inv(p, g) && n < |p.nodes| && p.owner[n] == Held
    ensures p.nodes[n].order <= g.maxOrder
  {
    assert TileOf(p, n).Some?;
    assert Placed(TilesOf(p), n, g.ranges, g.maxOrder);
  }

  lemma SplitShifts(p: Pool, q: Pool, k: nat, i: nat, m: nat)
    requires Unused in p.lists && p.lists[Unused] != [] && q.lists == p.lists[Unused := p.lists[Unused][1..]]
    requires Chained(q) && Global(k) in q.lists && i <= |q.lists[Global(k)]| && m < |q.nodes| && q.owner[m] == Held
    ensures Shifted(p, Insert(q, Global(k), i, m), k, 1, 1)
  {
  }

  lemma ReclaimFacts(p: Pool, n: nat, i: nat, g: Geometry)
    requires Inv(p, g) && NoneHeld(p) && Allocated in p.lists && i < |p.lists[Allocated]| && n == p.lists[Allocated][i]
    requires n < |p.nodes|
    ensures Chained(Describe(p, n, p.nodes[n].start, p.nodes[n].order, 0))
    ensures Reclaim(p, i) == Remove(Describe(p, n, p.nodes[n].start, p.nodes[n].order, 0), Allocated, i)
    ensures OnlyHeld(Reclaim(p, i), n) && Reclaim(p, i).nodes[n].order == p.nodes[n].order
    ensures Starts(p, Allocated)[i] == p.nodes[n].start
  {
    hide ListsOk, NodesOk, Tiling, TilesOf;
    assert Chain(p.nodes, p.owner, Allocated, p.lists[Allocated]);
    DescribeKeepsChained(p, n, p.nodes[n].start, p.nodes[n].order, 0);
  }

  lemma SplitKeepsGrants(p: Pool, q: Pool, n: nat, m: nat, k: nat, i: nat)
    requires SameGrants(p, q) && Chained(q) && Global(k) in q.lists && i <= |q.lists[Global(k)]|
    requires n < |q.nodes| && m < |q.nodes| && n != m && q.owner[n] == q.owner[m] == Held
    ensures SameGrants(p, Describe(Insert(q, Global(k), i, m), n, q.nodes[n].start, k, 0))
  {
    InsertKeepsChained(q, Global(k), i, m);
    InsertKeepsGrants(q, Global(k), i, m);
    var r := Insert(q, Global(k), i, m);
    DescribeKeepsGrants(r, n, q.nodes[n].start, k, 0);
    SameGrantsTrans(p, q, r);
    SameGrantsTrans(p, r, Describe(r, n, q.nodes[n].start, k, 0));
  }

  lemma SameGrantsRefl(p: Pool)
    requires Chained(p) && Allocated in p.lists
    ensures SameGrants(p, p)
  {
    assert Chain(p.nodes, p.owner, Allocated, p.lists[Allocated]);
  }

  lemma DescribedListOk(p: Pool, n: nat, block: nat, order: nat, g: Geometry)
    requires Chained(p) && n < |p.nodes| && p.owner[n] == Held && Inv(Describe(p, n, block, order, 0), g)
    ensures order < MAX_ORDER_SLOTS && Global(order) in p.lists
    ensures Ascending(Starts(p, Global(order)))
    ensures Starts(Describe(p, n, block, order, 0), Global(order)) == Starts(p, Global(order))
  {
    var v := Describe(p, n, block, order, 0);
    assert Placed(TilesOf(v), n, g.ranges, g.maxOrder);
    assert Listed(g, Global(order));
    assert FreeListOk(v, order, g.maxOrder);
    StartsAfterDescribe(p, n, block, order, 0, Global(order));
  }

  lemma AbsorbKeepsGrants(p: Pool, id: ListId, i: nat)
    requires Chained(p) && id in p.lists && i < |p.lists[id]| && id.Global?
    requires Allocated in p.lists && Unused in p.lists
    ensures p.lists[id][i] < |p.nodes| && Chained(Remove(p, id, i))
    ensures SameGrants(p, Retire(Remove(p, id, i), p.lists[id][i]))
  {
    assert Chain(p.nodes, p.owner, id, p.lists[id]);
    var b := p.lists[id][i];
    RemoveKeepsChained(p, id, i);
    RemoveKeepsGrants(p, id, i);
    var q := Remove(p, id, i);
    DescribeKeepsChained(q, b, 0, 0, 0);
    DescribeKeepsGrants(q, b, 0, 0, 0);
    InsertKeepsGrants(Describe(q, b, 0, 0, 0), Unused, 0, b);
    SameGrantsTrans(p, q, Describe(q, b, 0, 0, 0));
    SameGrantsTrans(p, Describe(q, b, 0, 0, 0), Retire(q, b));
  }

  predicate NoneHeld(p: Pool) {
    forall m :: 0 <= m < |p.owner| ==> p.owner[m] != Held
  }

  predicate OnlyHeld(p: Pool, n: nat) {
    && n < |p.owner| && n < |p.nodes| && p.owner[n] == Held
    && forall m :: 0 <= m < |p.owner| && m != n ==> p.owner[m] != Held
  }

  ghost predicate NoneCached(p: Pool, cpu: nat, order: nat) {
    order <= PER_CPU_CACHE_MAX_ORDER ==> Cpu(cpu, order) in p.lists && p.lists[Cpu(cpu, order)] == []
  }

  /** How many blocks of `order` a refill draws: a batch, or all that can be had. */
  function Batch(p: Pool, order: nat, maxOrder: nat): nat {
    if order > maxOrder then 0 else Min(RefillBatch(order), Available(CountsOf(p, maxOrder), order))
  }

  /** The splits for such a batch take more nodes than are spare. */
  predicate Exhausted(p: Pool, order: nat, maxOrder: nat) {
    order <= maxOrder && Needed(CountsOf(p, maxOrder), order, Batch(p, order, maxOrder)) > Spare(p)
  }

  /** The spare nodes reach for `n` blocks of `order` and no more. */
  predicate NodesReach(p: Pool, order: nat, n: nat, maxOrder: nat) {
    && order <= maxOrder && n < Batch(p, order, maxOrder)
    && Needed(CountsOf(p, maxOrder), order, n) <= Spare(p) < Needed(CountsOf(p, maxOrder), order, n + 1)
  }

  /** Orders that are not cached are drawn one at a time. */
  lemma UncachedExhausted(p: Pool, order: nat, maxOrder: nat)
    requires PER_CPU_CACHE_MAX_ORDER < order <= maxOrder
    ensures Exhausted(p, order, maxOrder) <==> ShortOfNodes(p, order, maxOrder)
  {
    var c := CountsOf(p, maxOrder);
    NothingNeeded(c, order);
    if Available(c, order) > 0 {
      DrawOne(c, order, 1);
      NothingNeeded(AfterDraw(c, order), order);
    }
  }

  lemma RefillStep(p: Pool, q: Pool, r: Pool, order: nat, count: nat, maxOrder: nat)
    requires DrewSome(p, q, order, count, maxOrder) && DrewOne(q, r, order, maxOrder)
    ensures DrewSome(p, r, order, count + 1, maxOrder)
  {
    DrawsGoOn(CountsOf(p, maxOrder), CountsOf(q, maxOrder), Spare(p), Spare(q), order, count);
  }

  /** Where a refill stops for want of nodes. */
  lemma RefillStops(p: Pool, q: Pool, order: nat, count: nat, maxOrder: nat)
    requires DrewSome(p, q, order, count, maxOrder) && count < RefillBatch(order)
    ensures ShortOfNodes(q, order, maxOrder) ==> Exhausted(p, order, maxOrder) && NodesReach(p, order, count, maxOrder)
    ensures ShortOfNodes(q, order, maxOrder) ==> !NoneFrom(p, order, maxOrder)
  {
    NoneFromCounts(p, order, maxOrder);
    NoneAvailable(CountsOf(p, maxOrder), order);
    if ShortOfNodes(q, order, maxOrder) {
      var c := CountsOf(p, maxOrder);
      DrawsRunDry(c, CountsOf(q, maxOrder), Spare(p), Spare(q), order, count);
      NeededGrows(c, order, count + 1, Batch(p, order, maxOrder));
    }
  }

  /** Where it ends with as many blocks as it wants or as there are. */
  lemma RefillEnds(p: Pool, q: Pool, order: nat, count: nat, maxOrder: nat)
    requires DrewSome(p, q, order, count, maxOrder) && count <= RefillBatch(order)
    requires count == RefillBatch(order) || NoneFrom(q, order, maxOrder)
    ensures !Exhausted(p, order, maxOrder) && count == Batch(p, order, maxOrder)
    ensures count == 0 <==> NoneFrom(p, order, maxOrder)
    ensures count == 0 ==> q == p
  {
    var c := CountsOf(p, maxOrder);
    NoneFromCounts(p, order, maxOrder);
    NoneAvailable(c, order);
    NoneFromCounts(q, order, maxOrder);
    NoneAvailable(CountsOf(q, maxOrder), order);
    DrawsEnd(c, CountsOf(q, maxOrder), Spare(p), Spare(q), order, count);
  }

  /** The pool at boot: all nodes spare, in index order. */
  ghost function FreshPool(cap: nat, cpuSlots: nat): Pool {
    Pool(seq(cap, (i: nat) => EMPTY.(next := if i + 1 < cap then Some(i + 1) else None)),
         map id | id in Ids(cpuSlots) :: if id == Unused then seq(cap, (i: nat) => i) else [],
         seq(cap, i => Unused))
  }

  ghost function Ids(cpuSlots: nat): set<ListId> {
    {Unused, Allocated} + (set k | 0 <= k < MAX_ORDER_SLOTS :: Global(k))
    + (set c, k | 0 <= c < cpuSlots && 0 <= k <= PER_CPU_CACHE_MAX_ORDER :: Cpu(c, k))
  }

  lemma FreshPoolIsSeeding(cap: nat, g: Geometry)
    requires GeometryOk(g)
    ensures Seeding(FreshPool(cap, g.cpuSlots), g, 0, 0)
  {
    hide Pow2, Aligned;
    var p := FreshPool(cap, g.cpuSlots);
    assert forall id :: id in p.lists <==> Listed(g, id);
    var s := p.lists[Unused];
    forall i, j | 0 <= i < |s| && 0 <= j < |s| && i != j
      ensures Differ(s, i, j)
    {
    }
    forall i | 0 <= i < |s|
      ensures Linked(p.nodes, s, i)
    {
    }
    forall n | 0 <= n < |p.nodes|
      ensures OnItsList(p, n)
    {
      assert s[n] == n;
    }
    assert Chained(p);
    NoPages(TilesOf(p), |p.nodes|);
  }

  lemma NoPages(t: Tiles, n: nat)
    requires n <= |t| && forall i :: 0 <= i < |t| ==> t[i].None?
    ensures PagesUpTo(t, n) == 0
  {
  }

  lemma WeakenSeeding(p: Pool, g: Geometry, pos: nat, pos': nat, frames: nat)
    requires Seeding(p, g, pos, frames) && pos <= pos'
    ensures Seeding(p, g, pos', frames)
  {
    forall n | 0 <= n < |p.nodes|
      ensures SeededTile(TilesOf(p), n, pos', g)
    {
      assert SeededTile(TilesOf(p), n, pos, g);
    }
  }

  lemma {:induction false} FramesBounded(ranges: seq<Range>, n: nat)
    requires n <= |ranges|
    ensures FramesUpTo(ranges, n) <= TotalFrames(ranges)
    decreases |ranges| - n
  {
    if n < |ranges| {
      FramesBounded(ranges, n + 1);
    }
  }

  /** Seeding a block on a free list that is still empty. */
  lemma SeedFirst(p: Pool, g: Geometry, pos: nat, frames: nat, b: Block) returns (f: Pool)
    requires Seeding(p, g, pos, frames) && pos <= b.start && NoneHeld(p)
    requires WellPlaced(b, g.ranges, g.maxOrder) && CutLarge(b, g.ranges, g.maxOrder)
    requires Unused in p.lists && p.lists[Unused] != []
    requires Global(b.order) in p.lists && p.lists[Global(b.order)] == []
    ensures Seeding(f, g, b.End(), frames + Pow2(b.order)) && NoneHeld(f)
    ensures f.lists == p.lists[Unused := p.lists[Unused][1..]][Global(b.order) := [p.lists[Unused][0]]]
  {
    hide Chain, Aligned, WellPlaced, CutLarge, Tiling, SeedsBelow, ListsOk, NodesOk, TilesOf;
    var m := p.lists[Unused][0];
    SpawnIsSound(p, b.start, b.order, g);
    SpawnedStarts(p, b.start, b.order, Global(b.order));
    var q := Spawn(p, b.start, b.order);
    f := Insert(q, Global(b.order), 0, m);
    assert With(q.lists[Global(b.order)], 0, m) == [m];
    SeedKeeps(p, q, f, m, b, 0, g, pos, frames, b.End(), frames + Pow2(b.order));
  }

  /** With two nodes, usable frames [0, 1) and [2, 4) leave a free block of order 0 that the first
      refill caches, a block of order 1, and no node to cut it with. */
  lemma RefillCanRunDry() returns (p: Pool, g: Geometry)
    ensures Inv(p, g) && NoneHeld(p) && CountAt(p, 0) > 0 && NoneCached(p, 0, 0) && Exhausted(p, 0, g.maxOrder)
  {
    hide Chained, ListsOk, NodesOk, Tiling, TilesOf, SeedsBelow, WellPlaced, CutLarge, FreshPool, GeometryOk,
         TotalFrames;
    g := Geometry([Range(0, 1), Range(2, 2)], 1, 1, 1);
    SmallGeometry(g);
    p := FreshPool(2, 1);
    FreshPoolIsSeeding(2, g);
    FreshLists(2, g);
    p := SeedFirst(p, g, 0, 0, Block(0, 0));
    WeakenSeeding(p, g, 1, 2, 1);
    p := SeedFirst(p, g, 2, 1, Block(2, 1));
    OneOfEach(p);
  }

  lemma OneOfEach(p: Pool)
    requires CountAt(p, 0) == 1 && CountAt(p, 1) == 1 && Spare(p) == 0
    ensures Exhausted(p, 0, 1)
  {
    var c := CountsOf(p, 1);
    assert Available(c, 2) == 0 && Available(c, 1) == 1 && Available(c, 0) == 3;
    assert RefillBatch(0) >= 3;
    assert Needed(c, 0, 3) == 1;
  }

  lemma FreshLists(cap: nat, g: Geometry)
    ensures var p := FreshPool(cap, g.cpuSlots);
            && NoneHeld(p) && |p.nodes| == cap
            && (forall id :: id in p.lists <==> Listed(g, id))
            && (forall id :: id in p.lists ==> HeadOf(p.lists[id]) == FreshHead(id, cap))
    ensures forall i :: 0 <= i < cap ==>
              FreshPool(cap, g.cpuSlots).nodes[i] == EMPTY.(next := if i + 1 < cap then Some(i + 1) else None)
  {
  }

  ghost function FreshHead(id: ListId, cap: nat): ListHead {
    if id == Unused then ListHead(if cap == 0 then None else Some(0), cap) else ListHead(None, 0)
  }

  lemma SmallGeometry(g: Geometry)
    requires g == Geometry([Range(0, 1), Range(2, 2)], 1, 1, 1)
    ensures GeometryOk(g)
    ensures WellPlaced(Block(0, 0), g.ranges, 1) && CutLarge(Block(0, 0), g.ranges, 1)
    ensures WellPlaced(Block(2, 1), g.ranges, 1) && CutLarge(Block(2, 1), g.ranges, 1)
    ensures TotalFrames(g.ranges) == 3
  {
    assert g.ranges[0].End() == 1 && g.ranges[1].End() == 4;
    assert Fits(g.ranges, 0, 1) && Fits(g.ranges, 2, 4);
    assert FramesUpTo(g.ranges, 1) == 1;
  }
}
