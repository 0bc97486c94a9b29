/** How far the free blocks and spare nodes go: drawing blocks of one order from the numbers of free blocks
    of all orders. */
module BuddyCounts {
  import opened Prelude
  import opened BuddyBlocks
  import opened BuddyLists
  import opened BuddyState

  /** How many free blocks there are of each order. */
  type Counts = seq<nat>

  function CountAt(p: Pool, k: nat): nat {
    if Global(k) in p.lists then |p.lists[Global(k)]| else 0
  }

  function CountsOf(p: Pool, maxOrder: nat): (c: Counts)
    ensures |c| == maxOrder + 1 && forall k :: 0 <= k <= maxOrder ==> c[k] == CountAt(p, k)
  {
    seq(maxOrder + 1, (k: nat) => CountAt(p, k))
  }

  /** How many nodes are spare. */
  function Spare(p: Pool): nat {
    if Unused in p.lists then |p.lists[Unused]| else 0
  }

  /** How many blocks of order `o` the blocks of `o` and above make up. */
  function Available(c: Counts, o: nat): nat
    requires o <= |c|
    decreases |c| - o
  {
    if o == |c| then 0 else c[o] + 2 * Available(c, o + 1)
  }

  /** Half of `n`, rounded up. */
  function HalfUp(n: nat): nat {
    (n + 1) / 2
  }

  /** How many splits it takes to draw `n` blocks of order `o`: for those that are lacking, half as many
      blocks of the next order are split, and have to be drawn themselves. */
  function Needed(c: Counts, o: nat, n: nat): nat
    requires o <= |c|
    decreases |c| - o
  {
    if o == |c| || n <= c[o] then 0 else HalfUp(n - c[o]) + Needed(c, o + 1, HalfUp(n - c[o]))
  }

  /** The counts after one block of order `o` has been drawn, splitting the first larger one if need be. */
  function AfterDraw(c: Counts, o: nat): (r: Counts)
    requires o <= |c| && Available(c, o) > 0
    ensures |r| == |c| && forall k :: 0 <= k < o ==> r[k] == c[k]
    decreases |c| - o
  {
    if c[o] > 0 then c[o := c[o] - 1] else AfterDraw(c, o + 1)[o := 1]
  }

  /** How many splits that takes. */
  function Splits(c: Counts, o: nat): nat
    requires o <= |c| && Available(c, o) > 0
    decreases |c| - o
  {
    if c[o] > 0 then 0 else 1 + Splits(c, o + 1)
  }

  lemma {:induction false} SameAbove(c: Counts, d: Counts, o: nat, n: nat)
    requires |c| == |d| && o <= |c| && forall k :: o <= k < |c| ==> c[k] == d[k]
    ensures Available(c, o) == Available(d, o) && Needed(c, o, n) == Needed(d, o, n)
    decreases |c| - o
  {
    if o < |c| {
      SameAbove(c, d, o + 1, if n <= c[o] then 0 else HalfUp(n - c[o]));
    }
  }

  lemma NothingNeeded(c: Counts, o: nat)
    requires o <= |c|
    ensures Needed(c, o, 0) == 0
  {
  }

  /** Drawing one block uses up one of the blocks available and, of the splits needed for a number of blocks,
      those of the first. */
  lemma {:induction false} DrawOne(c: Counts, o: nat, n: nat)
    requires o <= |c| && 0 < n <= Available(c, o)
    ensures Available(AfterDraw(c, o), o) == Available(c, o) - 1
    ensures Needed(c, o, n) == Splits(c, o) + Needed(AfterDraw(c, o), o, n - 1)
    decreases |c| - o
  {
    var d := AfterDraw(c, o);
    if c[o] > 0 {
      SameAbove(c, d, o + 1, if n <= c[o] then 0 else HalfUp(n - c[o]));
    } else {
      var x := HalfUp(n);
      DrawOne(c, o + 1, x);
      SameAbove(AfterDraw(c, o + 1), d, o + 1, x - 1);
      NothingNeeded(d, o + 1);
      assert n > 2 ==> HalfUp(n - 2) == x - 1;
    }
  }

  /** More blocks need no fewer splits. */
  lemma {:induction false} NeededGrows(c: Counts, o: nat, m: nat, n: nat)
    requires o <= |c| && m <= n
    ensures Needed(c, o, m) <= Needed(c, o, n)
    decreases |c| - o
  {
    if o < |c| && m > c[o] {
      NeededGrows(c, o + 1, HalfUp(m - c[o]), HalfUp(n - c[o]));
    }
  }

  /** The blocks available make up a number of frames. */
  lemma {:induction false} NoneAvailable(c: Counts, o: nat)
    requires o <= |c|
    ensures Available(c, o) == 0 <==> forall k :: o <= k < |c| ==> c[k] == 0
    decreases |c| - o
  {
    if o < |c| {
      NoneAvailable(c, o + 1);
    }
  }

  /** Where the first block that can be drawn is. */
  lemma {:induction false} FirstIsSplit(c: Counts, o: nat, k: nat)
    requires o <= k < |c| && c[k] > 0 && forall j :: o <= j < k ==> c[j] == 0
    ensures Available(c, o) > 0 && Splits(c, o) == k - o
    decreases k - o
  {
    if o < k {
      FirstIsSplit(c, o + 1, k);
    }
  }

  // ---------------------------------------------------------------- a refill

  /** Drawing `drawn` blocks of order `o` has turned the counts `c` into `d` and the spare nodes `u` into `v`. */
  ghost predicate DrawnSo(c: Counts, d: Counts, u: nat, v: nat, o: nat, drawn: nat) {
    && |c| == |d| && o <= |c| && v <= u && Available(d, o) + drawn == Available(c, o)
    && (forall n :: 0 <= n <= Available(d, o) ==> NeedsSo(c, d, u, v, o, drawn, n))
  }

  /** Of the splits needed for `drawn + n` blocks, those for the last `n` are still to come. */
  predicate NeedsSo(c: Counts, d: Counts, u: nat, v: nat, o: nat, drawn: nat, n: int)
    requires o <= |c| && o <= |d|
  {
    n >= 0 ==> Needed(c, o, drawn + n) + v == Needed(d, o, n) + u
  }

  lemma DrawsBegin(c: Counts, u: nat, o: nat)
    requires o <= |c|
    ensures DrawnSo(c, c, u, u, o, 0)
  {
  }

  lemma DrawsGoOn(c: Counts, d: Counts, u: nat, v: nat, o: nat, drawn: nat)
    requires DrawnSo(c, d, u, v, o, drawn) && Available(d, o) > 0 && Splits(d, o) <= v
    ensures DrawnSo(c, AfterDraw(d, o), u, v - Splits(d, o), o, drawn + 1)
  {
    var e: Counts, w: nat, next: nat := AfterDraw(d, o), v - Splits(d, o), drawn + 1;
    DrawOne(d, o, 1);
    forall n | 0 <= n <= Available(e, o)
      ensures NeedsSo(c, e, u, w, o, next, n)
    {
      assert NeedsSo(c, d, u, v, o, drawn, n + 1);
      DrawOne(d, o, n + 1);
    }
  }

  /** The draws are over, as many as asked for or as there are blocks: the nodes went as far as needed. */
  lemma DrawsEnd(c: Counts, d: Counts, u: nat, v: nat, o: nat, drawn: nat)
    requires DrawnSo(c, d, u, v, o, drawn)
    ensures Needed(c, o, drawn) <= u
  {
    assert NeedsSo(c, d, u, v, o, drawn, 0);
    NothingNeeded(d, o);
  }

  /** The draws cannot go on: one more block needs more nodes than there were. */
  lemma DrawsRunDry(c: Counts, d: Counts, u: nat, v: nat, o: nat, drawn: nat)
    requires DrawnSo(c, d, u, v, o, drawn) && Available(d, o) > 0 && Splits(d, o) > v
    ensures Needed(c, o, drawn) <= u < Needed(c, o, drawn + 1)
  {
    DrawsEnd(c, d, u, v, o, drawn);
    assert NeedsSo(c, d, u, v, o, drawn, 1);
    DrawOne(d, o, 1);
  }

  // ---------------------------------------------------------------- pools

  /** No global list of the given orders holds a block. */
  predicate NoneFrom(p: Pool, order: nat, maxOrder: nat) {
    forall k :: order <= k <= maxOrder ==> CountAt(p, k) == 0
  }

  lemma NoneFromCounts(p: Pool, order: nat, maxOrder: nat)
    ensures NoneFrom(p, order, maxOrder) <==> forall k :: order <= k < maxOrder + 1 ==> CountsOf(p, maxOrder)[k] == 0
  {
    var c := CountsOf(p, maxOrder);
    forall k | order <= k <= maxOrder
      ensures c[k] == CountAt(p, k)
    {
    }
  }

  /** `q` has `more` free blocks of order `k` than `p`, as many of every other order, and `spent` spare nodes less. */
  ghost predicate Shifted(p: Pool, q: Pool, k: nat, more: int, spent: nat) {
    && (forall j: nat :: CountAt(q, j) == CountAt(p, j) + if j == k then more else 0)
    && Spare(q) + spent == Spare(p)
  }

  lemma ShiftedCounts(p: Pool, q: Pool, k: nat, more: int, spent: nat, maxOrder: nat)
    requires Shifted(p, q, k, more, spent) && k <= maxOrder
    ensures CountAt(p, k) + more >= 0 && CountsOf(q, maxOrder) == CountsOf(p, maxOrder)[k := CountAt(p, k) + more]
    ensures Spare(q) + spent == Spare(p)
  {
    assert CountAt(q, k) == CountAt(p, k) + more;
  }

  /** The first block of order `o` or more is one of order `k`. */
  predicate FirstOf(c: Counts, o: nat, k: nat) {
    o <= k < |c| && c[k] > 0 && forall j :: o <= j < k ==> c[j] == 0
  }

  /** Drawing a block of order `j` takes the first one above it and leaves one of every order between. */
  lemma FirstIsDrawn(c: Counts, o: nat, k: nat, j: nat)
    requires FirstOf(c, o, k) && o <= j <= k
    ensures Available(c, j) > 0
    ensures j == k ==> AfterDraw(c, j) == c[k := c[k] - 1]
    ensures j < k ==> Available(c, j + 1) > 0 && AfterDraw(c, j + 1)[j] == 0
    ensures j < k ==> AfterDraw(c, j) == AfterDraw(c, j + 1)[j := 1]
  {
    FirstIsSplit(c, j, k);
    if j < k {
      FirstIsSplit(c, j + 1, k);
    }
  }

  /** Drawing one block takes more nodes than are spare. */
  predicate ShortOfNodes(p: Pool, order: nat, maxOrder: nat) {
    && order <= maxOrder && Available(CountsOf(p, maxOrder), order) > 0
    && Splits(CountsOf(p, maxOrder), order) > Spare(p)
  }

  /** One block of `order` has been drawn from `p`. */
  predicate DrewOne(p: Pool, q: Pool, order: nat, maxOrder: nat) {
    && order <= maxOrder && Available(CountsOf(p, maxOrder), order) > 0
    && CountsOf(q, maxOrder) == AfterDraw(CountsOf(p, maxOrder), order)
    && Spare(q) + Splits(CountsOf(p, maxOrder), order) == Spare(p)
  }

  /** `n` blocks of `order` have been drawn from `p`. */
  ghost predicate DrewSome(p: Pool, q: Pool, order: nat, n: nat, maxOrder: nat) {
    && order <= maxOrder && (n == 0 ==> q == p)
    && DrawnSo(CountsOf(p, maxOrder), CountsOf(q, maxOrder), Spare(p), Spare(q), order, n)
  }

  lemma FirstTaken(p: Pool, q: Pool, k: nat, maxOrder: nat)
    requires Shifted(p, q, k, -1, 0) && k <= maxOrder
    ensures CountAt(p, k) > 0 && CountsOf(q, maxOrder) == CountsOf(p, maxOrder)[k := CountAt(p, k) - 1]
            && Spare(q) == Spare(p)
  {
    ShiftedCounts(p, q, k, -1, 0, maxOrder);
  }

  lemma DrewAndGave(p: Pool, q: Pool, r: Pool, order: nat, maxOrder: nat)
    requires DrewOne(p, q, order, maxOrder) && Shifted(q, r, order, 0, 0)
    ensures DrewOne(p, r, order, maxOrder)
  {
    ShiftedCounts(q, r, order, 0, 0, maxOrder);
    assert CountsOf(r, maxOrder) == CountsOf(q, maxOrder);
  }
}
