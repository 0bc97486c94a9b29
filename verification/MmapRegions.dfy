/** The list of memory-mapped regions of a process, with file offsets, kept maximally merged. */
module MmapRegions {
  import opened Prelude
  import opened UserMemory

  datatype Backing =
    | Anonymously
    | BufferedFile(file: nat, offset: nat)
    | SharedFile(file: nat, offset: nat)
    | DirectFile(file: nat, offset: nat)
  {
    /** The backing `delta` bytes further on. */
    function Shifted(delta: nat): Backing {
      if Anonymously? then this else this.(offset := offset + delta)
    }
  }

  datatype Region = Region(start: nat, end: nat, pageFlags: MapFlags, mmapFlags: nat, backing: Backing) {
    predicate Contains(a: nat) {
      start <= a < end
    }

    /** No file offset in the region is beyond what 64 bits can hold. */
    predicate Ok() {
      start < end <= U64_MAX && (!backing.Anonymously? ==> backing.offset + (end - start) <= U64_MAX)
    }
  }

  /** What the list says about one address: permissions, mapping flags, file and offset in the file. */
  datatype Point = Point(pageFlags: MapFlags, mmapFlags: nat, backing: Backing)

  function PointAt(r: Region, a: nat): Point
    requires r.start <= a
  {
    Point(r.pageFlags, r.mmapFlags, r.backing.Shifted(a - r.start))
  }

  function Meaning(s: seq<Region>, a: nat): Option<Point> {
    if s == [] then None
    else if s[|s| - 1].Contains(a) then Some(PointAt(s[|s| - 1], a))
    else Meaning(s[..|s| - 1], a)
  }

  /** What one region says about an address. */
  function Says(r: Region, a: nat): multiset<Point> {
    if r.Contains(a) then multiset{PointAt(r, a)} else multiset{}
  }

  /** Everything that the regions of a list say about an address, in whatever order they are listed. */
  function Points(s: seq<Region>, a: nat): multiset<Point> {
    if s == [] then multiset{} else Points(s[..|s| - 1], a) + Says(s[|s| - 1], a)
  }

  predicate AllOk(s: seq<Region>) {
    forall i :: 0 <= i < |s| ==> s[i].Ok()
  }

  predicate Before(s: seq<Region>, i: int, j: int) {
    0 <= i < |s| && 0 <= j < |s| && s[i].end <= s[j].start
  }

  /** Sorted and disjoint. */
  predicate Ordered(s: seq<Region>) {
    && AllOk(s)
    && (forall i, j {:trigger Before(s, i, j)} :: 0 <= i < j < |s| ==> Before(s, i, j))
  }

  predicate Below(s: seq<Region>, limit: nat) {
    s == [] || s[|s| - 1].end <= limit
  }

  // ---------------------------------------------------------------- merging

  predicate SameFile(a: Backing, b: Backing) {
    match (a, b)
    case (BufferedFile(f, i), BufferedFile(g, j)) => f == g
    case (SharedFile(f, i), SharedFile(g, j)) => f == g
    case (DirectFile(f, i), DirectFile(g, j)) => f == g
    case _ => false
  }

  predicate Mergeable(a: Region, b: Region) {
    && a.end == b.start && a.pageFlags == b.pageFlags && a.mmapFlags == b.mmapFlags
    && ((a.backing.Anonymously? && b.backing.Anonymously?)
        || (SameFile(a.backing, b.backing) && Max(b.backing.offset - a.backing.offset, 0) == Max(a.end - a.start, 0)))
  }

  /** Two neighbours are merged exactly if the second means what the first would, had it gone on. */
  lemma MergeableIsContinuous(a: Region, b: Region)
    requires a.Ok() && b.Ok() && a.end == b.start
    ensures Mergeable(a, b) <==> PointAt(a, a.end) == PointAt(b, b.start)
  {
  }

  predicate Merged(s: seq<Region>) {
    forall i :: 0 < i < |s| ==> !Mergeable(s[i - 1], s[i])
  }

  // ---------------------------------------------------------------- what lists say

  lemma {:induction false} PointsConcat(s: seq<Region>, t: seq<Region>, a: nat)
    ensures Points(s + t, a) == Points(s, a) + Points(t, a)
    decreases |t|
  {
    hide Says;
    if t == [] {
      assert s + t == s;
    } else {
      var front, last := t[..|t| - 1], t[|t| - 1];
      assert t == front + [last] && s + t == (s + front) + [last];
      PointsPush(s + front, last, a);
      PointsPush(front, last, a);
      PointsConcat(s, front, a);
    }
  }

  lemma PointsOfOne(r: Region, a: nat)
    ensures Points([r], a) == Says(r, a)
  {
    assert [r][..0] == [];
  }

  lemma PointsPush(s: seq<Region>, r: Region, a: nat)
    ensures Points(s + [r], a) == Points(s, a) + Says(r, a)
  {
    assert (s + [r])[..|s|] == s;
  }

  /** In an ordered list, at most one region says anything about an address. */
  lemma {:induction false} OrderedPoints(s: seq<Region>, a: nat)
    requires Ordered(s)
    ensures Points(s, a) == if Meaning(s, a).Some? then multiset{Meaning(s, a).value} else multiset{}
  {
    if s != [] {
      var n := |s| - 1;
      PrefixIsOrdered(s, n);
      OrderedPoints(s[..n], a);
      if s[n].Contains(a) {
        MeaningAbove(s[..n], a, s[n].start);
      }
    }
  }

  lemma PrefixIsOrdered(s: seq<Region>, n: nat)
    requires Ordered(s) && n <= |s|
    ensures Ordered(s[..n]) && (n < |s| ==> Below(s[..n], s[n].start))
  {
    forall i, j | 0 <= i < j < n
      ensures Before(s[..n], i, j)
    {
      assert Before(s, i, j);
    }
    assert 0 < n < |s| ==> Before(s, n - 1, n);
  }

  lemma {:induction false} MeaningAbove(s: seq<Region>, a: nat, limit: nat)
    requires Ordered(s) && Below(s, limit) && limit <= a
    ensures Meaning(s, a) == None
  {
    if s != [] {
      PrefixIsOrdered(s, |s| - 1);
      MeaningAbove(s[..|s| - 1], a, limit);
    }
  }

  lemma {:induction false} MeaningIs(s: seq<Region>, i: nat, a: nat)
    requires Ordered(s) && i < |s| && s[i].Contains(a)
    ensures Meaning(s, a) == Some(PointAt(s[i], a))
  {
    if i < |s| - 1 {
      assert Before(s, i, |s| - 1);
      PrefixIsOrdered(s, |s| - 1);
      MeaningIs(s[..|s| - 1], i, a);
    }
  }

  lemma OrderedPush(s: seq<Region>, r: Region)
    requires Ordered(s) && r.Ok() && Below(s, r.start)
    ensures Ordered(s + [r]) && Below(s + [r], r.end)
  {
    var t := s + [r];
    forall i, j | 0 <= i < j < |t|
      ensures Before(t, i, j)
    {
      if j < |s| {
        assert Before(s, i, j);
      } else {
        assert i < |s| - 1 ==> Before(s, i, |s| - 1);
      }
    }
  }

  // ---------------------------------------------------------------- joining neighbours

  /** `s[i]` and its successor, joined. */
  function JoinAt(s: seq<Region>, i: nat): seq<Region>
    requires i + 1 < |s|
  {
    s[..i] + [s[i].(end := s[i + 1].end)] + s[i + 2..]
  }

  /** Joining two mergeable neighbours changes nothing about any address, and neither makes nor mends an
      overlap. */
  lemma JoinKeeps(s: seq<Region>, i: nat)
    requires AllOk(s) && i + 1 < |s| && Mergeable(s[i], s[i + 1])
    ensures AllOk(JoinAt(s, i)) && (Ordered(JoinAt(s, i)) <==> Ordered(s))
    ensures forall a: nat :: Points(JoinAt(s, i), a) == Points(s, a)
  {
    JoinKeepsOk(s, i);
    JoinKeepsOrdered(s, i);
    forall a: nat
      ensures Points(JoinAt(s, i), a) == Points(s, a)
    {
      JoinKeepsPoints(s, i, a);
    }
  }

  lemma JoinKeepsPoints(s: seq<Region>, i: nat, a: nat)
    requires AllOk(s) && i + 1 < |s| && Mergeable(s[i], s[i + 1])
    ensures Points(JoinAt(s, i), a) == Points(s, a)
  {
    var x, y, joined := s[i], s[i + 1], s[i].(end := s[i + 1].end);
    assert s == s[..i] + [x] + [y] + s[i + 2..];
    PointsConcat(s[..i] + [x] + [y], s[i + 2..], a);
    PointsPush(s[..i] + [x], y, a);
    PointsPush(s[..i], x, a);
    PointsConcat(s[..i] + [joined], s[i + 2..], a);
    PointsPush(s[..i], joined, a);
    JoinedSays(x, y, a);
  }

  lemma JoinedSays(x: Region, y: Region, a: nat)
    requires x.Ok() && y.Ok() && Mergeable(x, y)
    ensures Says(x.(end := y.end), a) == Says(x, a) + Says(y, a)
  {
    MergeableIsContinuous(x, y);
  }

  lemma JoinKeepsOk(s: seq<Region>, i: nat)
    requires AllOk(s) && i + 1 < |s| && Mergeable(s[i], s[i + 1])
    ensures AllOk(JoinAt(s, i))
  {
    var t := JoinAt(s, i);
    assert forall k :: 0 <= k < |t| ==>
      t[k] == if k < i then s[k] else if k == i then s[i].(end := s[i + 1].end) else s[k + 1];
    assert s[i].Ok() && s[i + 1].Ok();
  }

  lemma JoinKeepsOrdered(s: seq<Region>, i: nat)
    requires AllOk(s) && i + 1 < |s| && Mergeable(s[i], s[i + 1]) && AllOk(JoinAt(s, i))
    ensures Ordered(JoinAt(s, i)) <==> Ordered(s)
  {
    var t := JoinAt(s, i);
    assert forall k :: 0 <= k < |t| ==>
      t[k] == if k < i then s[k] else if k == i then s[i].(end := s[i + 1].end) else s[k + 1];
    assert s[i].Ok() && s[i + 1].Ok();
    if Ordered(s) {
      forall j, k | 0 <= j < k < |t|
        ensures Before(t, j, k)
      {
        assert Before(s, if j < i then j else j + 1, if k <= i then k else k + 1);
      }
    }
    if Ordered(t) {
      forall j, k | 0 <= j < k < |s|
        ensures Before(s, j, k)
      {
        if j != i || k != i + 1 {
          assert Before(t, if j <= i then j else j - 1, if k <= i then k else k - 1);
        }
      }
    }
  }

  // ---------------------------------------------------------------- inserting

  function InsertAt(s: seq<Region>, i: nat, r: Region): seq<Region>
    requires i <= |s|
  {
    s[..i] + [r] + s[i..]
  }

  lemma InsertPoints(s: seq<Region>, i: nat, r: Region, a: nat)
    requires i <= |s|
    ensures Points(InsertAt(s, i, r), a) == Points(s, a) + Says(r, a)
  {
    PointsConcat(s[..i] + [r], s[i..], a);
    PointsPush(s[..i], r, a);
    PointsConcat(s[..i], s[i..], a);
    assert s == s[..i] + s[i..];
  }

  predicate RangeFree(s: seq<Region>, start: nat, end: nat) {
    forall i :: 0 <= i < |s| ==> !(s[i].start < end && start < s[i].end)
  }

  /** `i` is where a binary search for `start` may end up: a region that starts there or, without one, the
      place for it. In a list that is not sorted it may end up anywhere. */
  predicate Slot(s: seq<Region>, start: nat, i: nat) {
    && i <= |s|
    && (Ordered(s) ==> (forall j :: 0 <= j < i ==> s[j].start < start) && (i < |s| ==> start <= s[i].start))
  }

  /** A list with one more region is sorted and disjoint exactly if it was and the region overlaps none. */
  lemma InsertOrdered(s: seq<Region>, i: nat, r: Region)
    requires AllOk(s) && r.Ok() && Slot(s, r.start, i)
    ensures AllOk(InsertAt(s, i, r))
    ensures Ordered(InsertAt(s, i, r)) <==> Ordered(s) && RangeFree(s, r.start, r.end)
  {
    var t := InsertAt(s, i, r);
    assert forall k :: 0 <= k < |t| ==> t[k] == if k < i then s[k] else if k == i then r else s[k - 1];
    if Ordered(t) {
      InsertedOrdered(s, i, r);
    }
    if Ordered(s) && RangeFree(s, r.start, r.end) {
      InsertKeepsOrdered(s, i, r);
    }
  }

  lemma InsertedOrdered(s: seq<Region>, i: nat, r: Region)
    requires i <= |s| && AllOk(s) && Ordered(InsertAt(s, i, r))
    ensures Ordered(s) && RangeFree(s, r.start, r.end)
  {
    var t := InsertAt(s, i, r);
    assert forall k :: 0 <= k < |t| ==> t[k] == if k < i then s[k] else if k == i then r else s[k - 1];
    forall j, k | 0 <= j < k < |s|
      ensures Before(s, j, k)
    {
      assert Before(t, if j < i then j else j + 1, if k < i then k else k + 1);
    }
    forall j | 0 <= j < |s|
      ensures !(s[j].start < r.end && r.start < s[j].end)
    {
      assert if j < i then Before(t, j, i) else Before(t, i, j + 1);
    }
  }

  lemma InsertKeepsOrdered(s: seq<Region>, i: nat, r: Region)
    requires Ordered(s) && r.Ok() && Slot(s, r.start, i) && RangeFree(s, r.start, r.end)
    ensures Ordered(InsertAt(s, i, r))
  {
    var t := InsertAt(s, i, r);
    assert forall k :: 0 <= k < |t| ==> t[k] == if k < i then s[k] else if k == i then r else s[k - 1];
    assert i > 0 ==> s[i - 1].end <= r.start;
    assert i < |s| ==> r.end <= s[i].start by {
      assert i < |s| ==> s[i].Ok();
    }
    forall j, k | 0 <= j < k < |t|
      ensures Before(t, j, k)
    {
      if j != i && k != i {
        assert Before(s, if j < i then j else j - 1, if k < i then k else k - 1);
      } else if k == i {
        assert j < i - 1 ==> Before(s, j, i - 1);
      } else {
        assert k - 1 > i ==> Before(s, i, k - 1);
      }
    }
  }

  // ---------------------------------------------------------------- slices

  function AdjustedBacking(b: Backing, delta: nat): Backing {
    if b.Anonymously? then b else b.(offset := Min(b.offset + delta, U64_MAX))
  }

  function Slice(r: Region, start: nat, end: nat): Region
    requires r.start <= start
  {
    Region(start, end, r.pageFlags, r.mmapFlags, AdjustedBacking(r.backing, start - r.start))
  }

  lemma SliceKeepsMeaning(r: Region, start: nat, end: nat, a: nat)
    requires r.Ok() && r.start <= start < end <= r.end && start <= a
    ensures PointAt(Slice(r, start, end), a) == PointAt(r, a) && Slice(r, start, end).Ok()
  {
  }

  /** The part of `r` in `[start, end)`, if there is one. */
  function Part(r: Region, start: nat, end: nat): seq<Region>
    requires r.start <= start
  {
    if start < end then [Slice(r, start, end)] else []
  }

  lemma PartPoints(r: Region, start: nat, end: nat, a: nat)
    requires r.Ok() && r.start <= start && end <= r.end
    ensures Points(Part(r, start, end), a) == if start <= a < end then multiset{PointAt(r, a)} else multiset{}
    ensures AllOk(Part(r, start, end))
  {
    if start < end {
      SliceKeepsMeaning(r, start, end, Max(start, a));
      PointsOfOne(Slice(r, start, end), a);
    }
  }

  predicate Missed(r: Region, start: nat, end: nat) {
    end <= r.start || start >= r.end
  }

  /** What is left of a region when `[start, end)` is removed. */
  function Remains(r: Region, start: nat, end: nat): seq<Region> {
    if Missed(r, start, end) then [r] else Part(r, r.start, start) + Part(r, Max(r.start, end), r.end)
  }

  lemma RemainsSay(r: Region, start: nat, end: nat, a: nat)
    requires r.Ok() && start <= end
    ensures AllOk(Remains(r, start, end))
    ensures Points(Remains(r, start, end), a) == if start <= a < end then multiset{} else Says(r, a)
  {
    if Missed(r, start, end) {
      PointsOfOne(r, a);
    } else {
      PartPoints(r, r.start, start, a);
      PartPoints(r, Max(r.start, end), r.end, a);
      PointsConcat(Part(r, r.start, start), Part(r, Max(r.start, end), r.end), a);
    }
  }

  /** A region whose part in `[start, end)` has got the given permissions. */
  function Reflag(r: Region, start: nat, end: nat, flags: MapFlags): seq<Region> {
    if Missed(r, start, end) then [r]
    else
      Part(r, r.start, start) + [Middle(r, start, end, flags)] + Part(r, Max(r.start, end), r.end)
  }

  function Middle(r: Region, start: nat, end: nat, flags: MapFlags): Region {
    Slice(r, Max(r.start, start), Min(r.end, end)).(pageFlags := flags)
  }

  lemma ReflagSays(r: Region, start: nat, end: nat, flags: MapFlags, a: nat)
    requires r.Ok() && start < end
    ensures Points(Reflag(r, start, end, flags), a) == if start <= a < end then Repainted(r, a, flags) else Says(r, a)
  {
    hide Points, Slice, PointAt;
    if Missed(r, start, end) {
      PointsOfOne(r, a);
    } else {
      var left, right := Part(r, r.start, start), Part(r, Max(r.start, end), r.end);
      var middle := Middle(r, start, end, flags);
      PartPoints(r, r.start, start, a);
      PartPoints(r, Max(r.start, end), r.end, a);
      MiddleSays(r, start, end, flags, a);
      PointsPush(left, middle, a);
      PointsConcat(left + [middle], right, a);
    }
  }

  lemma MiddleSays(r: Region, start: nat, end: nat, flags: MapFlags, a: nat)
    requires r.Ok() && start < end && !Missed(r, start, end)
    ensures Says(Middle(r, start, end, flags), a) ==
            if start <= a < end then Repainted(r, a, flags) else multiset{}
  {
    var lo: nat, hi: nat := Max(r.start, start), Min(r.end, end);
    SliceKeepsMeaning(r, lo, hi, Max(lo, a));
  }

  function Repainted(r: Region, a: nat, flags: MapFlags): multiset<Point> {
    if r.Contains(a) then multiset{PointAt(r, a).(pageFlags := flags)} else multiset{}
  }

  /** What the regions of a list say about an address, with other permissions. */
  function AllRepainted(s: seq<Region>, a: nat, flags: MapFlags): multiset<Point> {
    if s == [] then multiset{} else AllRepainted(s[..|s| - 1], a, flags) + Repainted(s[|s| - 1], a, flags)
  }

  // ---------------------------------------------------------------- a range of a whole list

  function RemoveAll(s: seq<Region>, start: nat, end: nat): seq<Region> {
    if s == [] then [] else RemoveAll(s[..|s| - 1], start, end) + Remains(s[|s| - 1], start, end)
  }

  function ReflagAll(s: seq<Region>, start: nat, end: nat, flags: MapFlags): seq<Region> {
    if s == [] then [] else ReflagAll(s[..|s| - 1], start, end, flags) + Reflag(s[|s| - 1], start, end, flags)
  }

  lemma {:induction false} RemoveAllSays(s: seq<Region>, start: nat, end: nat, a: nat)
    requires AllOk(s) && start <= end
    ensures AllOk(RemoveAll(s, start, end))
    ensures Points(RemoveAll(s, start, end), a) == if start <= a < end then multiset{} else Points(s, a)
  {
    if s != [] {
      var front, last := s[..|s| - 1], s[|s| - 1];
      RemoveAllSays(front, start, end, a);
      RemainsSay(last, start, end, a);
      PointsConcat(RemoveAll(front, start, end), Remains(last, start, end), a);
    }
  }

  lemma {:induction false} ReflagAllSays(s: seq<Region>, start: nat, end: nat, flags: MapFlags, a: nat)
    requires AllOk(s) && start < end
    ensures AllOk(ReflagAll(s, start, end, flags))
    ensures Points(ReflagAll(s, start, end, flags), a) ==
            if start <= a < end then AllRepainted(s, a, flags) else Points(s, a)
  {
    if s != [] {
      var front, last := s[..|s| - 1], s[|s| - 1];
      ReflagAllSays(front, start, end, flags, a);
      ReflagSays(last, start, end, flags, a);
      ReflagWithin(last, start, end, flags);
      PointsConcat(ReflagAll(front, start, end, flags), Reflag(last, start, end, flags), a);
    }
  }

  /** A sequence of regions that lies within `[lo, hi)`, in order. */
  predicate Within(s: seq<Region>, lo: nat, hi: nat) {
    Ordered(s) && lo <= hi && Below(s, hi) && (s != [] ==> lo <= s[0].start)
  }

  lemma AppendOrdered(s: seq<Region>, t: seq<Region>, lo: nat, hi: nat)
    requires Ordered(s) && Below(s, lo) && Within(t, lo, hi)
    ensures Ordered(s + t) && Below(s + t, hi)
  {
    var u := s + t;
    forall i, j | 0 <= i < j < |u|
      ensures Before(u, i, j)
    {
      if j < |s| {
        assert Before(s, i, j);
      } else if i >= |s| {
        assert Before(t, i - |s|, j - |s|);
      } else {
        assert i < |s| - 1 ==> Before(s, i, |s| - 1);
        assert j > |s| ==> Before(t, 0, j - |s|) && t[0].Ok();
      }
    }
  }

  lemma PartWithin(r: Region, start: nat, end: nat)
    requires r.Ok() && r.start <= start && end <= r.end
    ensures Within(Part(r, start, end), start, Max(start, end))
  {
    if start < end {
      SliceKeepsMeaning(r, start, end, start);
    }
  }

  lemma RemainsWithin(r: Region, start: nat, end: nat)
    requires r.Ok() && start <= end
    ensures Within(Remains(r, start, end), r.start, r.end)
  {
    if !Missed(r, start, end) {
      PartWithin(r, r.start, start);
      PartWithin(r, Max(r.start, end), r.end);
      AppendOrdered(Part(r, r.start, start), Part(r, Max(r.start, end), r.end), Max(r.start, end),
                    Max(Max(r.start, end), r.end));
    }
  }

  lemma ReflagWithin(r: Region, start: nat, end: nat, flags: MapFlags)
    requires r.Ok() && start < end
    ensures Within(Reflag(r, start, end, flags), r.start, r.end)
  {
    if !Missed(r, start, end) {
      var lo: nat, hi: nat := Max(r.start, start), Min(r.end, end);
      PartWithin(r, r.start, start);
      SliceKeepsMeaning(r, lo, hi, lo);
      OrderedPush(Part(r, r.start, start), Middle(r, start, end, flags));
      PartWithin(r, Max(r.start, end), r.end);
      AppendOrdered(Part(r, r.start, start) + [Middle(r, start, end, flags)], Part(r, Max(r.start, end), r.end),
                    Max(r.start, end), Max(Max(r.start, end), r.end));
    }
  }

  lemma {:induction false} RemoveAllOrdered(s: seq<Region>, start: nat, end: nat)
    requires Ordered(s) && start <= end
    ensures Ordered(RemoveAll(s, start, end)) && (s != [] ==> Below(RemoveAll(s, start, end), s[|s| - 1].end))
    ensures s == [] ==> RemoveAll(s, start, end) == []
  {
    if s != [] {
      var n := |s| - 1;
      PrefixIsOrdered(s, n);
      RemoveAllOrdered(s[..n], start, end);
      RemainsWithin(s[n], start, end);
      AppendOrdered(RemoveAll(s[..n], start, end), Remains(s[n], start, end), s[n].start, s[n].end);
    }
  }

  lemma {:induction false} ReflagAllOrdered(s: seq<Region>, start: nat, end: nat, flags: MapFlags)
    requires Ordered(s) && start < end
    ensures Ordered(ReflagAll(s, start, end, flags))
    ensures s != [] ==> Below(ReflagAll(s, start, end, flags), s[|s| - 1].end)
    ensures s == [] ==> ReflagAll(s, start, end, flags) == []
  {
    if s != [] {
      var n := |s| - 1;
      PrefixIsOrdered(s, n);
      ReflagAllOrdered(s[..n], start, end, flags);
      ReflagWithin(s[n], start, end, flags);
      AppendOrdered(ReflagAll(s[..n], start, end, flags), Reflag(s[n], start, end, flags), s[n].start, s[n].end);
    }
  }

  function Removed(p: Option<Point>, a: nat, start: nat, end: nat): Option<Point> {
    if start <= a < end then None else p
  }

  function Reflagged(p: Option<Point>, a: nat, start: nat, end: nat, flags: MapFlags): Option<Point> {
    if start <= a < end && p.Some? then Some(p.value.(pageFlags := flags)) else p
  }

  lemma {:induction false} OrderedRepainted(s: seq<Region>, a: nat, flags: MapFlags)
    requires Ordered(s)
    ensures AllRepainted(s, a, flags) ==
            if Meaning(s, a).Some? then multiset{Meaning(s, a).value.(pageFlags := flags)} else multiset{}
  {
    if s != [] {
      var n := |s| - 1;
      PrefixIsOrdered(s, n);
      OrderedRepainted(s[..n], a, flags);
      if s[n].Contains(a) {
        MeaningAbove(s[..n], a, s[n].start);
      }
    }
  }

  /** In an ordered list the meaning of an address is the one thing said about it. */
  lemma MeaningFromPoints(s: seq<Region>, a: nat, p: Option<Point>)
    requires Ordered(s) && Points(s, a) == if p.Some? then multiset{p.value} else multiset{}
    ensures Meaning(s, a) == p
  {
    OrderedPoints(s, a);
    if Meaning(s, a).Some? {
      assert Points(s, a)[Meaning(s, a).value] == 1;
    }
    if p.Some? {
      assert Points(s, a)[p.value] == 1;
    }
  }

  // ---------------------------------------------------------------- the list

  lemma LastRegionGrows(s: seq<Region>, end: nat)
    requires Merged(s) && s != []
    ensures Merged(s[..|s| - 1] + [s[|s| - 1].(end := end)])
  {
    var t := s[..|s| - 1] + [s[|s| - 1].(end := end)];
    forall i | 0 < i < |t|
      ensures !Mergeable(t[i - 1], t[i])
    {
      assert !Mergeable(s[i - 1], s[i]);
    }
  }

  predicate MergedExcept(s: seq<Region>, index: nat) {
    forall i :: 0 < i < |s| && i != index && i != index + 1 ==> !Mergeable(s[i - 1], s[i])
  }

  /** `t` says what `s` says, and is sorted and disjoint exactly if `s` is. */
  ghost predicate Alike(s: seq<Region>, t: seq<Region>) {
    AllOk(t) && (Ordered(t) <==> Ordered(s)) && forall a: nat :: Points(t, a) == Points(s, a)
  }

  lemma AlikeMeaning(s: seq<Region>, t: seq<Region>)
    requires Alike(s, t) && Ordered(s)
    ensures forall a: nat :: Meaning(t, a) == Meaning(s, a)
  {
    forall a: nat
      ensures Meaning(t, a) == Meaning(s, a)
    {
      OrderedPoints(s, a);
      MeaningFromPoints(t, a, Meaning(s, a));
    }
  }

  /** How many leading regions start below `start`. */
  function Position(s: seq<Region>, start: nat, from: nat): (i: nat)
    requires from <= |s|
    ensures from <= i <= |s|
    ensures forall j :: from <= j < i ==> s[j].start < start
    ensures i < |s| ==> s[i].start >= start
    decreases |s| - from
  {
    if from < |s| && s[from].start < start then Position(s, start, from + 1) else from
  }

  class RegionList {
    var regions: seq<Region>

    /** Sorted, disjoint and maximally merged. */
    predicate Valid()
      reads this
    {
      Ordered(regions) && Merged(regions)
    }

    constructor ()
      ensures Valid() && regions == []
    {
      regions := [];
    }

    method Coalesce()
      requires AllOk(regions)
      modifies this
      ensures Merged(regions) && Alike(old(regions), regions)
      ensures old(Ordered(regions)) ==> forall a: nat :: Meaning(regions, a) == old(Meaning(regions, a))
    {
      hide Points, Meaning, Mergeable, Ordered;
      ghost var s := regions;
      if |regions| < 2 {
        return;
      }
      var merged: seq<Region> := [];
      var i := 0;
      assert [] + regions[0..] == regions;
      while i < |regions|
        invariant i <= |regions| && regions == s
        invariant Merged(merged) && Alike(s, merged + regions[i..])
      {
        var region := regions[i];
        ghost var t := merged + regions[i..];
        if merged != [] && Mergeable(merged[|merged| - 1], region) {
          JoinKeeps(t, |merged| - 1);
          LastRegionGrows(merged, region.end);
          merged := merged[..|merged| - 1] + [merged[|merged| - 1].(end := region.end)];
          assert merged + regions[i + 1..] == JoinAt(t, |merged| - 1);
        } else {
          merged := merged + [region];
          assert merged + regions[i + 1..] == t;
        }
        i := i + 1;
      }
      assert merged + regions[i..] == merged;
      regions := merged;
      if Ordered(s) {
        AlikeMeaning(s, regions);
      }
    }

    method JoinNext(i: nat)
      requires AllOk(regions) && i + 1 < |regions| && Mergeable(regions[i], regions[i + 1])
      modifies this
      ensures regions == JoinAt(old(regions), i) && Alike(old(regions), regions)
    {
      hide Points, Mergeable, Ordered;
      JoinKeeps(regions, i);
      regions := regions[i := regions[i].(end := regions[i + 1].end)];
      regions := regions[..i + 1] + regions[i + 2..];
      assert regions == JoinAt(old(regions), i);
    }

    method MergeNeighborsAround(start: nat)
      requires AllOk(regions) && start < |regions|
      modifies this
      ensures Alike(old(regions), regions) && (old(MergedExcept(regions, start)) ==> Merged(regions))
      ensures old(Ordered(regions)) ==> forall a: nat :: Meaning(regions, a) == old(Meaning(regions, a))
    {
      hide Ordered, Meaning, Points;
      var index: nat := start;
      while index > 0 && Mergeable(regions[index - 1], regions[index])
        invariant index < |regions| && Alike(old(regions), regions)
        invariant old(MergedExcept(regions, start)) ==> MergedExcept(regions, index)
      {
        JoinNext(index - 1);
        index := index - 1;
      }
      while index + 1 < |regions| && Mergeable(regions[index], regions[index + 1])
        invariant index < |regions| && Alike(old(regions), regions)
        invariant old(MergedExcept(regions, start)) ==> MergedExcept(regions, index)
        invariant index > 0 ==> !Mergeable(regions[index - 1], regions[index])
        decreases |regions|
      {
        JoinNext(index);
      }
      if old(Ordered(regions)) {
        AlikeMeaning(old(regions), regions);
      }
    }

    /** Lists one more region. The list stays sorted and disjoint exactly if it was and the region overlaps
        none of those listed. */
    method Insert(region: Region)
      requires AllOk(regions) && region.Ok()
      modifies this
      ensures AllOk(regions) && (old(Merged(regions)) ==> Merged(regions))
      ensures Ordered(regions) <==> old(Ordered(regions)) && old(RangeFree(regions, region.start, region.end))
      ensures old(Valid()) ==> (Valid() <==> old(RangeFree(regions, region.start, region.end)))
      ensures forall a: nat :: Points(regions, a) == old(Points(regions, a)) + Says(region, a)
      ensures Ordered(regions) ==> forall a: nat ::
                Meaning(regions, a) == if region.Contains(a) then Some(PointAt(region, a)) else old(Meaning(regions, a))
    {
      hide Ordered, Meaning, Points, RangeFree, Mergeable, Says, Slot;
      ghost var s := regions;
      var index := FindSlot(region.start);
      InsertOrdered(regions, index, region);
      InsertSays(regions, index, region);
      InsertMerged(regions, index, region);
      regions := regions[..index] + [region] + regions[index..];
      MergeNeighborsAround(index);
    }

    /** The binary search for a region that starts at `start`. */
    method FindSlot(start: nat) returns (index: nat)
      ensures Slot(regions, start, index)
    {
      if Ordered(regions) {
        index := Position(regions, start, 0);
      } else {
        index :| index <= |regions|;
      }
    }

    method UpdateFlags(start: nat, end: nat, flags: MapFlags)
      requires AllOk(regions) && start < end
      modifies this
      ensures AllOk(regions) && Merged(regions) && (old(Ordered(regions)) ==> Valid())
      ensures forall a: nat ::
                Points(regions, a) ==
                if start <= a < end then AllRepainted(old(regions), a, flags) else old(Points(regions, a))
      ensures old(Ordered(regions)) ==> forall a: nat ::
                Meaning(regions, a) == Reflagged(old(Meaning(regions, a)), a, start, end, flags)
    {
      hide Ordered, Meaning, Points, AllRepainted, Reflag;
      ghost var s := regions;
      var updated: seq<Region> := [];
      var i := 0;
      while i < |regions|
        invariant i <= |regions| && regions == s
        invariant updated == ReflagAll(s[..i], start, end, flags)
      {
        assert s[..i + 1][..i] == s[..i];
        updated := updated + Reflag(regions[i], start, end, flags);
        i := i + 1;
      }
      assert s[..i] == s;
      ReflaggedList(s, start, end, flags);
      regions := updated;
      Coalesce();
    }

    method RemoveRange(start: nat, end: nat)
      requires AllOk(regions) && start <= end
      modifies this
      ensures AllOk(regions) && Merged(regions) && (old(Ordered(regions)) ==> Valid())
      ensures forall a: nat :: Points(regions, a) == if start <= a < end then multiset{} else old(Points(regions, a))
      ensures old(Ordered(regions)) ==> forall a: nat ::
                Meaning(regions, a) == Removed(old(Meaning(regions, a)), a, start, end)
    {
      hide Ordered, Meaning, Points, Remains;
      ghost var s := regions;
      var updated: seq<Region> := [];
      var i := 0;
      while i < |regions|
        invariant i <= |regions| && regions == s
        invariant updated == RemoveAll(s[..i], start, end)
      {
        assert s[..i + 1][..i] == s[..i];
        updated := updated + Remains(regions[i], start, end);
        i := i + 1;
      }
      assert s[..i] == s;
      RemovedList(s, start, end);
      regions := updated;
      Coalesce();
    }

    /** Some region starts at or below `start`. The lookup takes the last such region before it knows
        that there is one, so without one it would reach below the list. */
    predicate CanLookUp(start: nat)
      reads this
    {
      regions != [] && regions[0].start <= start
    }

    /** The region that holds all of `[start, end)`. */
    function Covering(start: nat, end: nat): (r: Option<Region>)
      requires Ordered(regions) && CanLookUp(start)
      reads this
      ensures r.Some? ==> r.value in regions && r.value.start <= start && end <= r.value.end
      ensures r.None? && start < end ==>
                forall i :: 0 <= i < |regions| ==> !(regions[i].start <= start && end <= regions[i].end)
    {
      var index := Position(regions, start + 1, 0);
      LookupIndex(regions, start);
      OnlyCandidate(regions, index, start, end);
      if end <= regions[index - 1].end then Some(regions[index - 1]) else None
    }

    /** The part of the covering region in `[start, end)`, which means what the list means there. */
    function SliceOf(start: nat, end: nat): (r: Option<Region>)
      requires Ordered(regions) && CanLookUp(start) && start < end
      reads this
      ensures r.Some? ==> r.value.start == start && r.value.end == end && r.value.Ok()
      ensures r.Some? ==> forall a :: start <= a < end ==> Meaning(regions, a) == Some(PointAt(r.value, a))
    {
      var region := Covering(start, end);
      if region.None? then None
      else
        SliceMeaning(regions, region.value, start, end);
        Some(Slice(region.value, start, end))
    }
  }

  lemma InsertMerged(s: seq<Region>, i: nat, r: Region)
    requires i <= |s|
    ensures Merged(s) ==> MergedExcept(InsertAt(s, i, r), i)
  {
    var t := InsertAt(s, i, r);
    assert forall k :: 0 <= k < |t| ==> t[k] == if k < i then s[k] else if k == i then r else s[k - 1];
    if Merged(s) {
      forall k | 0 < k < |t| && k != i && k != i + 1
        ensures !Mergeable(t[k - 1], t[k])
      {
        assert !Mergeable(s[if k < i then k - 1 else k - 2], s[if k < i then k else k - 1]);
      }
    }
  }

  lemma InsertSays(s: seq<Region>, i: nat, r: Region)
    requires i <= |s|
    ensures forall a: nat :: Points(InsertAt(s, i, r), a) == Points(s, a) + Says(r, a)
    ensures Ordered(InsertAt(s, i, r)) && Ordered(s) ==> forall a: nat ::
              Meaning(InsertAt(s, i, r), a) == if r.Contains(a) then Some(PointAt(r, a)) else Meaning(s, a)
  {
    var t := InsertAt(s, i, r);
    forall a: nat
      ensures Points(t, a) == Points(s, a) + Says(r, a)
    {
      InsertPoints(s, i, r, a);
    }
    if Ordered(t) && Ordered(s) {
      forall a: nat
        ensures Meaning(t, a) == if r.Contains(a) then Some(PointAt(r, a)) else Meaning(s, a)
      {
        InsertMeaning(s, i, r, a);
      }
    }
  }

  lemma InsertMeaning(s: seq<Region>, i: nat, r: Region, a: nat)
    requires i <= |s| && Ordered(s) && Ordered(InsertAt(s, i, r))
    ensures Meaning(InsertAt(s, i, r), a) == if r.Contains(a) then Some(PointAt(r, a)) else Meaning(s, a)
  {
    var t := InsertAt(s, i, r);
    if r.Contains(a) {
      assert t[i] == r;
      MeaningIs(t, i, a);
    } else {
      InsertPoints(s, i, r, a);
      OrderedPoints(s, a);
      MeaningFromPoints(t, a, Meaning(s, a));
    }
  }

  lemma RemovedList(s: seq<Region>, start: nat, end: nat)
    requires AllOk(s) && start <= end
    ensures AllOk(RemoveAll(s, start, end)) && (Ordered(s) ==> Ordered(RemoveAll(s, start, end)))
    ensures forall a: nat ::
              Points(RemoveAll(s, start, end), a) == if start <= a < end then multiset{} else Points(s, a)
    ensures Ordered(s) ==> forall a: nat ::
              Meaning(RemoveAll(s, start, end), a) == Removed(Meaning(s, a), a, start, end)
  {
    var t := RemoveAll(s, start, end);
    if Ordered(s) {
      RemoveAllOrdered(s, start, end);
    }
    RemoveAllSays(s, start, end, 0);
    forall a: nat
      ensures Points(t, a) == if start <= a < end then multiset{} else Points(s, a)
      ensures Ordered(s) ==> Meaning(t, a) == Removed(Meaning(s, a), a, start, end)
    {
      RemoveAllSays(s, start, end, a);
      if Ordered(s) {
        OrderedPoints(s, a);
        MeaningFromPoints(t, a, Removed(Meaning(s, a), a, start, end));
      }
    }
  }

  lemma ReflaggedList(s: seq<Region>, start: nat, end: nat, flags: MapFlags)
    requires AllOk(s) && start < end
    ensures AllOk(ReflagAll(s, start, end, flags)) && (Ordered(s) ==> Ordered(ReflagAll(s, start, end, flags)))
    ensures forall a: nat :: Points(ReflagAll(s, start, end, flags), a) ==
                             if start <= a < end then AllRepainted(s, a, flags) else Points(s, a)
    ensures Ordered(s) ==> forall a: nat ::
              Meaning(ReflagAll(s, start, end, flags), a) == Reflagged(Meaning(s, a), a, start, end, flags)
  {
    var t := ReflagAll(s, start, end, flags);
    if Ordered(s) {
      ReflagAllOrdered(s, start, end, flags);
    }
    ReflagAllSays(s, start, end, flags, 0);
    forall a: nat
      ensures Points(t, a) == if start <= a < end then AllRepainted(s, a, flags) else Points(s, a)
      ensures Ordered(s) ==> Meaning(t, a) == Reflagged(Meaning(s, a), a, start, end, flags)
    {
      ReflagAllSays(s, start, end, flags, a);
      if Ordered(s) {
        OrderedPoints(s, a);
        OrderedRepainted(s, a, flags);
        MeaningFromPoints(t, a, Reflagged(Meaning(s, a), a, start, end, flags));
      }
    }
  }

  /** Mapping the same fixed range twice lists it twice. */
  method MappedTwice(region: Region) returns (list: RegionList)
    requires region.Ok()
    ensures fresh(list) && AllOk(list.regions) && !list.Valid()
    ensures forall a: nat :: region.Contains(a) ==> |Points(list.regions, a)| == 2
  {
    list := new RegionList();
    list.Insert(region);
    assert list.Valid();
    assert !RangeFree(list.regions, region.start, region.end) by {
      if RangeFree(list.regions, region.start, region.end) {
        MeaningMeansTaken(list.regions, region.start, region.end);
      }
    }
    list.Insert(region);
  }

  lemma MeaningMeansTaken(s: seq<Region>, start: nat, end: nat)
    requires start < end && Meaning(s, start).Some?
    ensures !RangeFree(s, start, end)
  {
    var i := HolderOf(s, start);
    assert s[i].start < end && start < s[i].end;
  }

  lemma {:induction false} HolderOf(s: seq<Region>, a: nat) returns (i: nat)
    requires Meaning(s, a).Some?
    ensures i < |s| && s[i].Contains(a)
  {
    if s[|s| - 1].Contains(a) {
      i := |s| - 1;
    } else {
      i := HolderOf(s[..|s| - 1], a);
    }
  }

  /** After a mapping over the middle of another, the lookup stops at the inner region and misses what the
      outer one holds above it. */
  lemma InnerHidesOuter(outer: Region, inner: Region, start: nat, end: nat)
    requires outer.Ok() && inner.Ok() && outer.start < inner.start && inner.end <= start < end <= outer.end
    ensures Position([outer, inner], start + 1, 0) == 2 && inner.end < end && !Ordered([outer, inner])
  {
    assert !Before([outer, inner], 0, 1);
  }

  /** The index that the lookup computes is positive, so that it can take the region before it, exactly
      if some region starts at or below `start`. */
  lemma LookupIndex(s: seq<Region>, start: nat)
    requires Ordered(s)
    ensures Position(s, start + 1, 0) > 0 <==> s != [] && s[0].start <= start
    ensures (s != [] && s[0].start <= start) <==> exists i :: 0 <= i < |s| && s[i].start <= start
  {
    if i :| 0 <= i < |s| && s[i].start <= start {
      assert s[0].Ok() && (i > 0 ==> Before(s, 0, i));
    }
  }

  /** With a single region, the position found for an address below it is 0, and there is none before. */
  lemma NoRegionBelow(region: Region, start: nat)
    requires region.Ok() && start < region.start
    ensures Ordered([region]) && Position([region], start + 1, 0) == 0
  {
    assert Ordered([region]);
    LookupIndex([region], start);
  }

  /** No region but the last one that starts at or below `start` can hold `[start, end)`. */
  lemma OnlyCandidate(s: seq<Region>, index: nat, start: nat, end: nat)
    requires Ordered(s) && 0 < index <= |s| && s[index - 1].start <= start
    requires index < |s| ==> start < s[index].start
    ensures start < end ==> forall i :: 0 <= i < |s| && i != index - 1 ==> !(s[i].start <= start && end <= s[i].end)
  {
    forall i | 0 <= i < |s| && i != index - 1 && start < end
      ensures !(s[i].start <= start && end <= s[i].end)
    {
      assert i < index - 1 ==> Before(s, i, index - 1);
      assert i > index ==> Before(s, index, i) && s[index].Ok();
    }
  }

  lemma SliceMeaning(s: seq<Region>, r: Region, start: nat, end: nat)
    requires Ordered(s) && r in s && r.start <= start < end <= r.end
    ensures Slice(r, start, end).Ok()
    ensures forall a :: start <= a < end ==> Meaning(s, a) == Some(PointAt(Slice(r, start, end), a))
  {
    var i :| 0 <= i < |s| && s[i] == r;
    SliceKeepsMeaning(r, start, end, start);
    forall a | start <= a < end
      ensures Meaning(s, a) == Some(PointAt(Slice(r, start, end), a))
    {
      MeaningIs(s, i, a);
      SliceKeepsMeaning(r, start, end, a);
    }
  }
}
