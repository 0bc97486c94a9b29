/** Lists of virtual memory areas: inserting, splitting and merging areas, and what a list says about each
    address. */
module UserVmas {
  import opened Prelude
  import opened UserMemory
  import opened LazyPages

  // ---------------------------------------------------------------- meaning

  datatype Tag = IsProgram | IsHeap | IsStack | IsAnonymous | IsShared | IsDevice | IsPaged | IsElf

  function TagOf(kind: VmaKind): Tag {
    match kind
    case Program => IsProgram
    case Heap => IsHeap
    case Stack => IsStack
    case Anonymous => IsAnonymous
    case Shared => IsShared
    case Device => IsDevice
    case PagedImage(source, imageOffset, imageLen) => IsPaged
    case ElfSegmentImage(source, segmentStart, imageOffset, imageLen, order) => IsElf
  }

  /** Everything the list says about one address. */
  datatype Point = Point(flags: MapFlags, tag: Tag, order: nat, lazy: bool, content: Content)

  function PointAt(vma: Vma, a: nat): Point
    requires vma.start <= a
  {
    Point(vma.flags, TagOf(vma.kind), vma.LazyOrder(), vma.lazy, ContentAt(vma, a))
  }

  function Meaning(s: seq<Vma>, a: nat): Option<Point> {
    if s == [] then None
    else if s[|s| - 1].Contains(a) then Some(PointAt(s[|s| - 1], a))
    else Meaning(s[..|s| - 1], a)
  }

  /** What one area says about an address. */
  function Says(v: Vma, a: nat): multiset<Point> {
    if v.Contains(a) then multiset{PointAt(v, a)} else multiset{}
  }

  /** Everything that the areas of a list say about an address, in whatever order they are listed. */
  function Points(s: seq<Vma>, a: nat): multiset<Point> {
    if s == [] then multiset{} else Points(s[..|s| - 1], a) + Says(s[|s| - 1], a)
  }

  lemma {:induction false} PointsConcat(s: seq<Vma>, t: seq<Vma>, a: nat)
    ensures Points(s + t, a) == Points(s, a) + Points(t, a)
    decreases |t|
  {
    hide Says;
    if t == [] {
      assert s + t == s;
    } else {
      var front, last := t[..|t| - 1], t[|t| - 1];
      assert t == front + [last] && s + t == (s + front) + [last];
      PointsPush(s + front, last, a);
      PointsPush(front, last, a);
      PointsConcat(s, front, a);
    }
  }

  lemma PointsOfOne(v: Vma, a: nat)
    ensures Points([v], a) == Says(v, a)
  {
    assert [v][..0] == [];
  }

  lemma PointsPush(s: seq<Vma>, v: Vma, a: nat)
    ensures Points(s + [v], a) == Points(s, a) + Says(v, a)
  {
    assert (s + [v])[..|s|] == s;
  }

  // ---------------------------------------------------------------- shape

  /** An area may be empty, as the heap is at first, and may end inside a page, as the heap does later. */
  predicate AreaOk(v: Vma) {
    v.start <= v.end && AlignUp(v.end) <= U64_MAX && KindOk(v.kind)
  }

  predicate AllOk(s: seq<Vma>) {
    forall i :: 0 <= i < |s| ==> AreaOk(s[i])
  }

  predicate Before(s: seq<Vma>, i: int, j: int) {
    0 <= i < |s| && 0 <= j < |s| && s[i].end <= s[j].start
  }

  /** Sorted and disjoint. */
  predicate Ordered(s: seq<Vma>) {
    && AllOk(s)
    && (forall i, j {:trigger Before(s, i, j)} :: 0 <= i < j < |s| ==> Before(s, i, j))
  }

  /** All of `s` lies below `limit`. */
  predicate Below(s: seq<Vma>, limit: nat) {
    s == [] || s[|s| - 1].end <= limit
  }

  lemma PrefixIsOrdered(s: seq<Vma>, n: nat)
    requires Ordered(s) && n <= |s|
    ensures Ordered(s[..n]) && (n < |s| ==> Below(s[..n], s[n].start))
  {
    forall i, j | 0 <= i < j < n
      ensures Before(s[..n], i, j)
    {
      assert Before(s, i, j);
    }
    assert 0 < n < |s| ==> Before(s, n - 1, n);
  }

  lemma {:induction false} MeaningAbove(s: seq<Vma>, a: nat, limit: nat)
    requires Ordered(s) && Below(s, limit) && limit <= a
    ensures Meaning(s, a) == None
  {
    if s != [] {
      PrefixIsOrdered(s, |s| - 1);
      MeaningAbove(s[..|s| - 1], a, limit);
    }
  }

  /** In an ordered list the one area that contains an address gives its meaning. */
  lemma {:induction false} MeaningIs(s: seq<Vma>, i: nat, a: nat)
    requires Ordered(s) && i < |s| && s[i].Contains(a)
    ensures Meaning(s, a) == Some(PointAt(s[i], a))
  {
    if i < |s| - 1 {
      assert Before(s, i, |s| - 1);
      PrefixIsOrdered(s, |s| - 1);
      MeaningIs(s[..|s| - 1], i, a);
    }
  }

  lemma OrderedPush(s: seq<Vma>, v: Vma)
    requires Ordered(s) && AreaOk(v) && Below(s, v.start)
    ensures Ordered(s + [v]) && Below(s + [v], v.end)
  {
    var t := s + [v];
    forall i, j | 0 <= i < j < |t|
      ensures Before(t, i, j)
    {
      if j < |s| {
        assert Before(s, i, j);
      } else {
        assert i < |s| - 1 ==> Before(s, i, |s| - 1);
      }
    }
  }

  lemma {:induction false} MeaningNone(s: seq<Vma>, a: nat)
    ensures Meaning(s, a).None? <==> forall i :: 0 <= i < |s| ==> !s[i].Contains(a)
  {
    if s != [] {
      var front := s[..|s| - 1];
      MeaningNone(front, a);
      assert forall i :: 0 <= i < |s| - 1 ==> front[i] == s[i];
      assert (forall i :: 0 <= i < |front| ==> !front[i].Contains(a)) && !s[|s| - 1].Contains(a) ==>
        forall i :: 0 <= i < |s| ==> !s[i].Contains(a);
    }
  }

  /** In an ordered list, at most one area says anything about an address. */
  lemma {:induction false} OrderedPoints(s: seq<Vma>, a: nat)
    requires Ordered(s)
    ensures Points(s, a) == if Meaning(s, a).Some? then multiset{Meaning(s, a).value} else multiset{}
  {
    if s != [] {
      var n := |s| - 1;
      PrefixIsOrdered(s, n);
      OrderedPoints(s[..n], a);
      if s[n].Contains(a) {
        MeaningAbove(s[..n], a, s[n].start);
      }
    }
  }

  /** In an ordered list the meaning of an address is the one thing said about it. */
  lemma MeaningFromPoints(s: seq<Vma>, a: nat, p: Option<Point>)
    requires Ordered(s) && Points(s, a) == if p.Some? then multiset{p.value} else multiset{}
    ensures Meaning(s, a) == p
  {
    OrderedPoints(s, a);
    if Meaning(s, a).Some? {
      assert Points(s, a)[Meaning(s, a).value] == 1;
    }
    if p.Some? {
      assert Points(s, a)[p.value] == 1;
    }
  }

  // ---------------------------------------------------------------- merging

  predicate CanMerge(a: VmaKind, b: VmaKind) {
    a == b && !a.PagedImage? && !a.ElfSegmentImage?
  }

  predicate Mergeable(a: Vma, b: Vma) {
    a.end == b.start && a.flags == b.flags && a.lazy == b.lazy && CanMerge(a.kind, b.kind)
  }

  /** No two neighbours could still be merged. */
  predicate Merged(s: seq<Vma>) {
    forall i :: 0 < i < |s| ==> !Mergeable(s[i - 1], s[i])
  }

  /** Only the pairs that area `index` is part of may still be mergeable. */
  predicate MergedExcept(s: seq<Vma>, index: nat) {
    forall i :: 0 < i < |s| && i != index && i != index + 1 ==> !Mergeable(s[i - 1], s[i])
  }

  /** `s[i]` and its successor, joined. */
  function JoinAt(s: seq<Vma>, i: nat): seq<Vma>
    requires i + 1 < |s|
  {
    s[..i] + [s[i].(end := s[i + 1].end)] + s[i + 2..]
  }

  /** No area touches `[start, end)`. */
  predicate RangeFree(s: seq<Vma>, start: nat, end: nat) {
    forall i :: 0 <= i < |s| ==> !(s[i].start < end && start < s[i].end)
  }

  /** Every empty area lies at or below `limit`. */
  predicate EmptyBelow(s: seq<Vma>, limit: nat) {
    forall i :: 0 <= i < |s| ==> s[i].start < s[i].end || s[i].end <= limit
  }

  /** `t` says what `s` says, is sorted and disjoint exactly if `s` is, takes up no range that is free in
      `s`, and has no empty area above those of `s`. */
  ghost predicate Alike(s: seq<Vma>, t: seq<Vma>) {
    && AllOk(t) && (Ordered(t) <==> Ordered(s))
    && (forall a: nat :: Points(t, a) == Points(s, a))
    && (forall start: nat, end: nat :: start < end && RangeFree(s, start, end) ==> RangeFree(t, start, end))
    && (forall limit: nat :: EmptyBelow(s, limit) ==> EmptyBelow(t, limit))
  }

  lemma AlikeMeaning(s: seq<Vma>, t: seq<Vma>)
    requires Alike(s, t) && Ordered(s)
    ensures forall a: nat :: Meaning(t, a) == Meaning(s, a)
  {
    forall a: nat
      ensures Meaning(t, a) == Meaning(s, a)
    {
      OrderedPoints(s, a);
      MeaningFromPoints(t, a, Meaning(s, a));
    }
  }

  /** Joining two mergeable neighbours changes nothing about any address, and neither makes nor mends an
      overlap. */
  lemma JoinKeeps(s: seq<Vma>, i: nat)
    requires AllOk(s) && i + 1 < |s| && Mergeable(s[i], s[i + 1])
    ensures Alike(s, JoinAt(s, i))
  {
    hide Points, Mergeable, Ordered, RangeFree, EmptyBelow;
    JoinKeepsOk(s, i);
    JoinKeepsOrdered(s, i);
    forall a: nat
      ensures Points(JoinAt(s, i), a) == Points(s, a)
    {
      JoinKeepsPoints(s, i, a);
    }
    forall start: nat, end: nat | start < end && RangeFree(s, start, end)
      ensures RangeFree(JoinAt(s, i), start, end)
    {
      JoinKeepsFree(s, i, start, end);
    }
    forall limit: nat | EmptyBelow(s, limit)
      ensures EmptyBelow(JoinAt(s, i), limit)
    {
      JoinKeepsEmpty(s, i, limit);
    }
  }

  lemma JoinKeepsFree(s: seq<Vma>, i: nat, start: nat, end: nat)
    requires AllOk(s) && i + 1 < |s| && Mergeable(s[i], s[i + 1]) && start < end && RangeFree(s, start, end)
    ensures RangeFree(JoinAt(s, i), start, end)
  {
    var t := JoinAt(s, i);
    assert forall k :: 0 <= k < |t| ==>
      t[k] == if k < i then s[k] else if k == i then s[i].(end := s[i + 1].end) else s[k + 1];
    assert !(s[i].start < end && start < s[i].end) && !(s[i + 1].start < end && start < s[i + 1].end);
  }

  lemma JoinKeepsEmpty(s: seq<Vma>, i: nat, limit: nat)
    requires AllOk(s) && i + 1 < |s| && Mergeable(s[i], s[i + 1]) && EmptyBelow(s, limit)
    ensures EmptyBelow(JoinAt(s, i), limit)
  {
    var t := JoinAt(s, i);
    assert forall k :: 0 <= k < |t| ==>
      t[k] == if k < i then s[k] else if k == i then s[i].(end := s[i + 1].end) else s[k + 1];
    assert AreaOk(s[i]) && AreaOk(s[i + 1]);
  }

  lemma JoinKeepsPoints(s: seq<Vma>, i: nat, a: nat)
    requires AllOk(s) && i + 1 < |s| && Mergeable(s[i], s[i + 1])
    ensures Points(JoinAt(s, i), a) == Points(s, a)
  {
    var x, y, joined := s[i], s[i + 1], s[i].(end := s[i + 1].end);
    assert s == s[..i] + [x] + [y] + s[i + 2..];
    PointsConcat(s[..i] + [x] + [y], s[i + 2..], a);
    PointsPush(s[..i] + [x], y, a);
    PointsPush(s[..i], x, a);
    PointsConcat(s[..i] + [joined], s[i + 2..], a);
    PointsPush(s[..i], joined, a);
    JoinedSays(x, y, a);
  }

  lemma JoinedSays(x: Vma, y: Vma, a: nat)
    requires AreaOk(x) && AreaOk(y) && Mergeable(x, y)
    ensures Says(x.(end := y.end), a) == Says(x, a) + Says(y, a)
  {
  }

  lemma JoinKeepsOk(s: seq<Vma>, i: nat)
    requires AllOk(s) && i + 1 < |s| && Mergeable(s[i], s[i + 1])
    ensures AllOk(JoinAt(s, i))
  {
    var t := JoinAt(s, i);
    assert forall k :: 0 <= k < |t| ==>
      t[k] == if k < i then s[k] else if k == i then s[i].(end := s[i + 1].end) else s[k + 1];
    assert AreaOk(s[i]) && AreaOk(s[i + 1]);
  }

  lemma JoinKeepsOrdered(s: seq<Vma>, i: nat)
    requires AllOk(s) && i + 1 < |s| && Mergeable(s[i], s[i + 1]) && AllOk(JoinAt(s, i))
    ensures Ordered(JoinAt(s, i)) <==> Ordered(s)
  {
    var t := JoinAt(s, i);
    assert forall k :: 0 <= k < |t| ==>
      t[k] == if k < i then s[k] else if k == i then s[i].(end := s[i + 1].end) else s[k + 1];
    assert AreaOk(s[i]) && AreaOk(s[i + 1]);
    if Ordered(s) {
      forall j, k | 0 <= j < k < |t|
        ensures Before(t, j, k)
      {
        assert Before(s, if j < i then j else j + 1, if k <= i then k else k + 1);
      }
    }
    if Ordered(t) {
      forall j, k | 0 <= j < k < |s|
        ensures Before(s, j, k)
      {
        if j != i || k != i + 1 {
          assert Before(t, if j <= i then j else j - 1, if k <= i then k else k - 1);
        }
      }
    }
  }

  // ---------------------------------------------------------------- inserting

  function InsertAt(s: seq<Vma>, i: nat, v: Vma): seq<Vma>
    requires i <= |s|
  {
    s[..i] + [v] + s[i..]
  }

  lemma InsertPoints(s: seq<Vma>, i: nat, v: Vma, a: nat)
    requires i <= |s|
    ensures Points(InsertAt(s, i, v), a) == Points(s, a) + Says(v, a)
  {
    hide Points, Says;
    PointsConcat(s[..i] + [v], s[i..], a);
    PointsPush(s[..i], v, a);
    PointsConcat(s[..i], s[i..], a);
    assert s == s[..i] + s[i..];
  }

  /** `i` is where a binary search for `start` may end up: at an area that starts there or, without one, at
      the place for it. In a list that is not sorted it may end up anywhere. */
  predicate Slot(s: seq<Vma>, start: nat, i: nat) {
    i <= |s| && (Ordered(s) ==> Found(s, start, i) || Place(s, start, i))
  }

  predicate Found(s: seq<Vma>, start: nat, i: nat) {
    i < |s| && s[i].start == start
  }

  predicate Place(s: seq<Vma>, start: nat, i: nat) {
    && i <= |s|
    && (forall j :: 0 <= j < i ==> s[j].start < start)
    && (forall j :: i <= j < |s| ==> start < s[j].start)
  }

  /** `v` overlaps no area, and unless it is empty none starts where it does, not even an empty one. */
  predicate Clear(s: seq<Vma>, v: Vma) {
    && RangeFree(s, v.start, v.end)
    && (v.start < v.end ==> forall j :: 0 <= j < |s| ==> s[j].start != v.start)
  }

  /** A list with one more area is sorted and disjoint exactly if it was and had the room. */
  lemma InsertOrdered(s: seq<Vma>, i: nat, v: Vma)
    requires AllOk(s) && AreaOk(v) && Slot(s, v.start, i)
    ensures AllOk(InsertAt(s, i, v))
    ensures Ordered(InsertAt(s, i, v)) <==> Ordered(s) && Clear(s, v)
  {
    var t := InsertAt(s, i, v);
    assert forall k :: 0 <= k < |t| ==> t[k] == if k < i then s[k] else if k == i then v else s[k - 1];
    if Ordered(t) {
      InsertedOrdered(s, i, v);
      InsertedClear(s, i, v);
    }
    if Ordered(s) && Clear(s, v) {
      InsertKeepsOrdered(s, i, v);
    }
  }

  lemma InsertedOrdered(s: seq<Vma>, i: nat, v: Vma)
    requires i <= |s| && AllOk(s) && Ordered(InsertAt(s, i, v))
    ensures Ordered(s)
  {
    var t := InsertAt(s, i, v);
    assert forall k :: 0 <= k < |t| ==> t[k] == if k < i then s[k] else if k == i then v else s[k - 1];
    forall j, k | 0 <= j < k < |s|
      ensures Before(s, j, k)
    {
      assert Before(t, if j < i then j else j + 1, if k < i then k else k + 1);
    }
  }

  lemma InsertedClear(s: seq<Vma>, i: nat, v: Vma)
    requires AllOk(s) && Ordered(s) && Slot(s, v.start, i) && Ordered(InsertAt(s, i, v))
    ensures Clear(s, v)
  {
    var t := InsertAt(s, i, v);
    assert forall k :: 0 <= k < |t| ==> t[k] == if k < i then s[k] else if k == i then v else s[k - 1];
    if Found(s, v.start, i) {
      assert Before(t, i, i + 1);
    }
    forall j | 0 <= j < |s|
      ensures !(s[j].start < v.end && v.start < s[j].end) && (v.start < v.end ==> s[j].start != v.start)
    {
      assert AreaOk(s[j]);
      assert if j < i then Before(t, j, i) else Before(t, i, j + 1);
    }
  }

  lemma InsertKeepsOrdered(s: seq<Vma>, i: nat, v: Vma)
    requires Ordered(s) && AreaOk(v) && Slot(s, v.start, i) && Clear(s, v)
    ensures Ordered(InsertAt(s, i, v))
  {
    var t := InsertAt(s, i, v);
    assert forall k :: 0 <= k < |t| ==> t[k] == if k < i then s[k] else if k == i then v else s[k - 1];
    InsertNeighbours(s, i, v);
    forall j, k | 0 <= j < k < |t|
      ensures Before(t, j, k)
    {
      if j != i && k != i {
        assert Before(s, if j < i then j else j - 1, if k < i then k else k - 1);
      } else if k == i {
        assert j < i - 1 ==> Before(s, j, i - 1);
      } else {
        assert k - 1 > i ==> Before(s, i, k - 1);
      }
    }
  }

  lemma InsertNeighbours(s: seq<Vma>, i: nat, v: Vma)
    requires Ordered(s) && AreaOk(v) && Slot(s, v.start, i) && Clear(s, v)
    ensures (i > 0 ==> s[i - 1].end <= v.start) && (i < |s| ==> v.end <= s[i].start)
    ensures i < |s| ==> s[i].start <= s[i].end
  {
    assert i < |s| ==> AreaOk(s[i]);
    if i > 0 {
      assert AreaOk(s[i - 1]);
      assert Found(s, v.start, i) ==> Before(s, i - 1, i);
    }
  }

  // ---------------------------------------------------------------- slices

  function Adjusted(kind: VmaKind, delta: nat): VmaKind {
    if kind.PagedImage? then
      PagedImage(kind.source, Min(kind.imageOffset + delta, U64_MAX), Max(kind.imageLen - delta, 0))
    else kind
  }

  function Slice(v: Vma, start: nat, end: nat): Vma
    requires v.start <= start
  {
    Vma(start, end, v.flags, Adjusted(v.kind, start - v.start), v.lazy)
  }

  /** A slice means what the whole did, at every address of the slice. */
  lemma SliceKeepsMeaning(v: Vma, start: nat, end: nat, a: nat)
    requires AreaOk(v) && v.start <= start <= end <= v.end && start <= a
    ensures PointAt(Slice(v, start, end), a) == PointAt(v, a) && AreaOk(Slice(v, start, end))
  {
  }

  /** The part of `v` in `[start, end)`, if there is one. */
  function Part(v: Vma, start: nat, end: nat): seq<Vma>
    requires v.start <= start
  {
    if start < end then [Slice(v, start, end)] else []
  }

  lemma PartPoints(v: Vma, start: nat, end: nat, a: nat)
    requires AreaOk(v) && v.start <= start && end <= v.end
    ensures Points(Part(v, start, end), a) == if start <= a < end then multiset{PointAt(v, a)} else multiset{}
    ensures AllOk(Part(v, start, end))
  {
    if start < end {
      SliceKeepsMeaning(v, start, end, Max(start, a));
      PointsOfOne(Slice(v, start, end), a);
    }
  }

  predicate Missed(v: Vma, start: nat, end: nat) {
    end <= v.start || start >= v.end
  }

  /** What is left of an area when `[start, end)` is removed. */
  function Remains(v: Vma, start: nat, end: nat): seq<Vma> {
    if Missed(v, start, end) then [v] else Part(v, v.start, start) + Part(v, Max(v.start, end), v.end)
  }

  lemma RemainsSay(v: Vma, start: nat, end: nat, a: nat)
    requires AreaOk(v) && start <= end
    ensures AllOk(Remains(v, start, end))
    ensures Points(Remains(v, start, end), a) == if start <= a < end then multiset{} else Says(v, a)
  {
    if Missed(v, start, end) {
      PointsOfOne(v, a);
    } else {
      PartPoints(v, v.start, start, a);
      PartPoints(v, Max(v.start, end), v.end, a);
      PointsConcat(Part(v, v.start, start), Part(v, Max(v.start, end), v.end), a);
    }
  }

  /** An area whose part in `[start, end)` has got the given permissions. */
  function Reflag(v: Vma, start: nat, end: nat, flags: MapFlags): seq<Vma> {
    if Missed(v, start, end) then [v]
    else
      Part(v, v.start, start) + [Middle(v, start, end, flags)] + Part(v, Max(v.start, end), v.end)
  }

  function Middle(v: Vma, start: nat, end: nat, flags: MapFlags): Vma {
    Slice(v, Max(v.start, start), Min(v.end, end)).(flags := flags)
  }

  lemma ReflagSays(v: Vma, start: nat, end: nat, flags: MapFlags, a: nat)
    requires AreaOk(v) && start < end
    ensures Points(Reflag(v, start, end, flags), a) == if start <= a < end then Repainted(v, a, flags) else Says(v, a)
  {
    hide Points, Slice, PointAt;
    if Missed(v, start, end) {
      PointsOfOne(v, a);
    } else {
      var left, right := Part(v, v.start, start), Part(v, Max(v.start, end), v.end);
      var middle := Middle(v, start, end, flags);
      PartPoints(v, v.start, start, a);
      PartPoints(v, Max(v.start, end), v.end, a);
      MiddleSays(v, start, end, flags, a);
      PointsPush(left, middle, a);
      PointsConcat(left + [middle], right, a);
    }
  }

  lemma MiddleSays(v: Vma, start: nat, end: nat, flags: MapFlags, a: nat)
    requires AreaOk(v) && start < end && !Missed(v, start, end)
    ensures Says(Middle(v, start, end, flags), a) ==
            if start <= a < end then Repainted(v, a, flags) else multiset{}
  {
    var lo: nat, hi: nat := Max(v.start, start), Min(v.end, end);
    SliceKeepsMeaning(v, lo, hi, Max(lo, a));
  }

  function Repainted(v: Vma, a: nat, flags: MapFlags): multiset<Point> {
    if v.Contains(a) then multiset{PointAt(v, a).(flags := flags)} else multiset{}
  }

  /** What the areas of a list say about an address, with other permissions. */
  function AllRepainted(s: seq<Vma>, a: nat, flags: MapFlags): multiset<Point> {
    if s == [] then multiset{} else AllRepainted(s[..|s| - 1], a, flags) + Repainted(s[|s| - 1], a, flags)
  }

  // ---------------------------------------------------------------- a range of a whole list

  function RemoveAll(s: seq<Vma>, start: nat, end: nat): seq<Vma> {
    if s == [] then [] else RemoveAll(s[..|s| - 1], start, end) + Remains(s[|s| - 1], start, end)
  }

  function ReflagAll(s: seq<Vma>, start: nat, end: nat, flags: MapFlags): seq<Vma> {
    if s == [] then [] else ReflagAll(s[..|s| - 1], start, end, flags) + Reflag(s[|s| - 1], start, end, flags)
  }

  lemma {:induction false} RemoveAllSays(s: seq<Vma>, start: nat, end: nat, a: nat)
    requires AllOk(s) && start <= end
    ensures AllOk(RemoveAll(s, start, end))
    ensures Points(RemoveAll(s, start, end), a) == if start <= a < end then multiset{} else Points(s, a)
  {
    if s != [] {
      var front, last := s[..|s| - 1], s[|s| - 1];
      RemoveAllSays(front, start, end, a);
      RemainsSay(last, start, end, a);
      PointsConcat(RemoveAll(front, start, end), Remains(last, start, end), a);
    }
  }

  lemma {:induction false} ReflagAllSays(s: seq<Vma>, start: nat, end: nat, flags: MapFlags, a: nat)
    requires AllOk(s) && start < end
    ensures AllOk(ReflagAll(s, start, end, flags))
    ensures Points(ReflagAll(s, start, end, flags), a) ==
            if start <= a < end then AllRepainted(s, a, flags) else Points(s, a)
  {
    if s != [] {
      var front, last := s[..|s| - 1], s[|s| - 1];
      ReflagAllSays(front, start, end, flags, a);
      ReflagSays(last, start, end, flags, a);
      ReflagWithin(last, start, end, flags);
      PointsConcat(ReflagAll(front, start, end, flags), Reflag(last, start, end, flags), a);
    }
  }

  /** A sequence of areas that lies within `[lo, hi)`, in order. */
  predicate Within(s: seq<Vma>, lo: nat, hi: nat) {
    Ordered(s) && lo <= hi && Below(s, hi) && (s != [] ==> lo <= s[0].start)
  }

  lemma AppendOrdered(s: seq<Vma>, t: seq<Vma>, lo: nat, hi: nat)
    requires Ordered(s) && Below(s, lo) && Within(t, lo, hi)
    ensures Ordered(s + t) && Below(s + t, hi)
  {
    var u := s + t;
    forall i, j | 0 <= i < j < |u|
      ensures Before(u, i, j)
    {
      if j < |s| {
        assert Before(s, i, j);
      } else if i >= |s| {
        assert Before(t, i - |s|, j - |s|);
      } else {
        assert i < |s| - 1 ==> Before(s, i, |s| - 1);
        assert j > |s| ==> Before(t, 0, j - |s|) && AreaOk(t[0]);
      }
    }
  }

  lemma PartWithin(v: Vma, start: nat, end: nat)
    requires AreaOk(v) && v.start <= start && end <= v.end
    ensures Within(Part(v, start, end), start, Max(start, end))
  {
    if start < end {
      SliceKeepsMeaning(v, start, end, start);
    }
  }

  lemma RemainsWithin(v: Vma, start: nat, end: nat)
    requires AreaOk(v) && start <= end
    ensures Within(Remains(v, start, end), v.start, v.end)
  {
    if !Missed(v, start, end) {
      PartWithin(v, v.start, start);
      PartWithin(v, Max(v.start, end), v.end);
      AppendOrdered(Part(v, v.start, start), Part(v, Max(v.start, end), v.end),
                    Max(v.start, end), Max(Max(v.start, end), v.end));
    }
  }

  lemma ReflagWithin(v: Vma, start: nat, end: nat, flags: MapFlags)
    requires AreaOk(v) && start < end
    ensures Within(Reflag(v, start, end, flags), v.start, v.end)
  {
    if !Missed(v, start, end) {
      var lo: nat, hi: nat := Max(v.start, start), Min(v.end, end);
      PartWithin(v, v.start, start);
      SliceKeepsMeaning(v, lo, hi, lo);
      OrderedPush(Part(v, v.start, start), Middle(v, start, end, flags));
      PartWithin(v, Max(v.start, end), v.end);
      AppendOrdered(Part(v, v.start, start) + [Middle(v, start, end, flags)], Part(v, Max(v.start, end), v.end),
                    Max(v.start, end), Max(Max(v.start, end), v.end));
    }
  }

  lemma {:induction false} RemoveAllOrdered(s: seq<Vma>, start: nat, end: nat)
    requires Ordered(s) && start <= end
    ensures Ordered(RemoveAll(s, start, end)) && (s != [] ==> Below(RemoveAll(s, start, end), s[|s| - 1].end))
    ensures s == [] ==> RemoveAll(s, start, end) == []
  {
    if s != [] {
      var n := |s| - 1;
      PrefixIsOrdered(s, n);
      RemoveAllOrdered(s[..n], start, end);
      RemainsWithin(s[n], start, end);
      AppendOrdered(RemoveAll(s[..n], start, end), Remains(s[n], start, end), s[n].start, s[n].end);
    }
  }

  lemma {:induction false} ReflagAllOrdered(s: seq<Vma>, start: nat, end: nat, flags: MapFlags)
    requires Ordered(s) && start < end
    ensures Ordered(ReflagAll(s, start, end, flags))
    ensures s != [] ==> Below(ReflagAll(s, start, end, flags), s[|s| - 1].end)
    ensures s == [] ==> ReflagAll(s, start, end, flags) == []
  {
    if s != [] {
      var n := |s| - 1;
      PrefixIsOrdered(s, n);
      ReflagAllOrdered(s[..n], start, end, flags);
      ReflagWithin(s[n], start, end, flags);
      AppendOrdered(ReflagAll(s[..n], start, end, flags), Reflag(s[n], start, end, flags), s[n].start, s[n].end);
    }
  }

  function Removed(p: Option<Point>, a: nat, start: nat, end: nat): Option<Point> {
    if start <= a < end then None else p
  }

  function Reflagged(p: Option<Point>, a: nat, start: nat, end: nat, flags: MapFlags): Option<Point> {
    if start <= a < end && p.Some? then Some(p.value.(flags := flags)) else p
  }

  lemma {:induction false} OrderedRepainted(s: seq<Vma>, a: nat, flags: MapFlags)
    requires Ordered(s)
    ensures AllRepainted(s, a, flags) ==
            if Meaning(s, a).Some? then multiset{Meaning(s, a).value.(flags := flags)} else multiset{}
  {
    if s != [] {
      var n := |s| - 1;
      PrefixIsOrdered(s, n);
      OrderedRepainted(s[..n], a, flags);
      if s[n].Contains(a) {
        MeaningAbove(s[..n], a, s[n].start);
      }
    }
  }

  /** Nothing of an area is left in a removed range, nor an empty area inside it. */
  lemma {:induction false} RemoveAllFree(s: seq<Vma>, start: nat, end: nat)
    requires start < end
    ensures RangeFree(RemoveAll(s, start, end), start, end)
  {
    if s != [] {
      RemoveAllFree(s[..|s| - 1], start, end);
    }
  }

  lemma {:induction false} RemoveAllEmpty(s: seq<Vma>, start: nat, end: nat, limit: nat)
    requires EmptyBelow(s, limit)
    ensures EmptyBelow(RemoveAll(s, start, end), limit)
  {
    if s != [] {
      assert EmptyBelow(s[..|s| - 1], limit);
      RemoveAllEmpty(s[..|s| - 1], start, end, limit);
    }
  }

  lemma {:induction false} ReflagAllEmpty(s: seq<Vma>, start: nat, end: nat, flags: MapFlags, limit: nat)
    requires EmptyBelow(s, limit) && AllOk(s) && start < end
    ensures EmptyBelow(ReflagAll(s, start, end, flags), limit)
  {
    hide Reflag;
    if s != [] {
      assert EmptyBelow(s[..|s| - 1], limit) && AreaOk(s[|s| - 1]);
      ReflagAllEmpty(s[..|s| - 1], start, end, flags, limit);
      ReflagEmpty(s[|s| - 1], start, end, flags, limit);
    }
  }

  lemma ReflagEmpty(v: Vma, start: nat, end: nat, flags: MapFlags, limit: nat)
    requires AreaOk(v) && (v.start < v.end || v.end <= limit) && start < end
    ensures EmptyBelow(Reflag(v, start, end, flags), limit)
  {
  }

  lemma RemovedList(s: seq<Vma>, start: nat, end: nat)
    requires AllOk(s) && start <= end
    ensures AllOk(RemoveAll(s, start, end)) && (Ordered(s) ==> Ordered(RemoveAll(s, start, end)))
    ensures forall a: nat ::
              Points(RemoveAll(s, start, end), a) == if start <= a < end then multiset{} else Points(s, a)
    ensures Ordered(s) ==> forall a: nat ::
              Meaning(RemoveAll(s, start, end), a) == Removed(Meaning(s, a), a, start, end)
  {
    var t := RemoveAll(s, start, end);
    if Ordered(s) {
      RemoveAllOrdered(s, start, end);
    }
    RemoveAllSays(s, start, end, 0);
    forall a: nat
      ensures Points(t, a) == if start <= a < end then multiset{} else Points(s, a)
      ensures Ordered(s) ==> Meaning(t, a) == Removed(Meaning(s, a), a, start, end)
    {
      RemoveAllSays(s, start, end, a);
      if Ordered(s) {
        OrderedPoints(s, a);
        MeaningFromPoints(t, a, Removed(Meaning(s, a), a, start, end));
      }
    }
  }

  lemma ReflaggedList(s: seq<Vma>, start: nat, end: nat, flags: MapFlags)
    requires AllOk(s) && start < end
    ensures AllOk(ReflagAll(s, start, end, flags)) && (Ordered(s) ==> Ordered(ReflagAll(s, start, end, flags)))
    ensures forall a: nat :: Points(ReflagAll(s, start, end, flags), a) ==
                             if start <= a < end then AllRepainted(s, a, flags) else Points(s, a)
    ensures Ordered(s) ==> forall a: nat ::
              Meaning(ReflagAll(s, start, end, flags), a) == Reflagged(Meaning(s, a), a, start, end, flags)
  {
    var t := ReflagAll(s, start, end, flags);
    if Ordered(s) {
      ReflagAllOrdered(s, start, end, flags);
    }
    ReflagAllSays(s, start, end, flags, 0);
    forall a: nat
      ensures Points(t, a) == if start <= a < end then AllRepainted(s, a, flags) else Points(s, a)
      ensures Ordered(s) ==> Meaning(t, a) == Reflagged(Meaning(s, a), a, start, end, flags)
    {
      ReflagAllSays(s, start, end, flags, a);
      if Ordered(s) {
        OrderedPoints(s, a);
        OrderedRepainted(s, a, flags);
        MeaningFromPoints(t, a, Reflagged(Meaning(s, a), a, start, end, flags));
      }
    }
  }

  lemma InsertMerged(s: seq<Vma>, i: nat, v: Vma)
    requires i <= |s|
    ensures Merged(s) ==> MergedExcept(InsertAt(s, i, v), i)
  {
    var t := InsertAt(s, i, v);
    assert forall k :: 0 <= k < |t| ==> t[k] == if k < i then s[k] else if k == i then v else s[k - 1];
    if Merged(s) {
      forall k | 0 < k < |t| && k != i && k != i + 1
        ensures !Mergeable(t[k - 1], t[k])
      {
        assert !Mergeable(s[if k < i then k - 1 else k - 2], s[if k < i then k else k - 1]);
      }
    }
  }

  lemma InsertSays(s: seq<Vma>, i: nat, v: Vma)
    requires i <= |s|
    ensures forall a: nat :: Points(InsertAt(s, i, v), a) == Points(s, a) + Says(v, a)
    ensures Ordered(InsertAt(s, i, v)) && Ordered(s) ==> forall a: nat ::
              Meaning(InsertAt(s, i, v), a) == if v.Contains(a) then Some(PointAt(v, a)) else Meaning(s, a)
  {
    var t := InsertAt(s, i, v);
    forall a: nat
      ensures Points(t, a) == Points(s, a) + Says(v, a)
    {
      InsertPoints(s, i, v, a);
    }
    if Ordered(t) && Ordered(s) {
      forall a: nat
        ensures Meaning(t, a) == if v.Contains(a) then Some(PointAt(v, a)) else Meaning(s, a)
      {
        InsertMeaning(s, i, v, a);
      }
    }
  }

  lemma InsertMeaning(s: seq<Vma>, i: nat, v: Vma, a: nat)
    requires i <= |s| && Ordered(s) && Ordered(InsertAt(s, i, v))
    ensures Meaning(InsertAt(s, i, v), a) == if v.Contains(a) then Some(PointAt(v, a)) else Meaning(s, a)
  {
    var t := InsertAt(s, i, v);
    if v.Contains(a) {
      assert t[i] == v;
      MeaningIs(t, i, a);
    } else {
      InsertPoints(s, i, v, a);
      OrderedPoints(s, a);
      MeaningFromPoints(t, a, Meaning(s, a));
    }
  }
}
