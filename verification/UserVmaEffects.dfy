/** What the operations on a list of areas do to it, address by address and page by page. */
module UserVmaEffects {
  import opened Prelude
  import opened UserMemory
  import opened LazyPages
  import opened UserVmas
  import opened UserVmaPages

  // ---------------------------------------------------------------- a range of a list

  /** `t` is `s` without `[start, end)`. */
  ghost predicate RemovedFrom(s: seq<Vma>, t: seq<Vma>, start: nat, end: nat) {
    && (forall a: nat :: Points(t, a) == if start <= a < end then multiset{} else Points(s, a))
    && (Ordered(s) ==> Ordered(t) && forall a: nat :: Meaning(t, a) == Removed(Meaning(s, a), a, start, end))
    && (start < end ==> RangeFree(t, start, end))
    && (forall limit: nat :: EmptyBelow(s, limit) ==> EmptyBelow(t, limit))
  }

  /** `t` is `s` with other permissions in `[start, end)`. */
  ghost predicate ReflaggedIn(s: seq<Vma>, t: seq<Vma>, start: nat, end: nat, flags: MapFlags) {
    && (forall a: nat :: Points(t, a) == if start <= a < end then AllRepainted(s, a, flags) else Points(s, a))
    && (Ordered(s) ==>
          Ordered(t) && forall a: nat :: Meaning(t, a) == Reflagged(Meaning(s, a), a, start, end, flags))
    && (forall limit: nat :: EmptyBelow(s, limit) ==> EmptyBelow(t, limit))
  }

  lemma RemoveAllRemoves(s: seq<Vma>, start: nat, end: nat)
    requires AllOk(s) && start <= end
    ensures AllOk(RemoveAll(s, start, end)) && RemovedFrom(s, RemoveAll(s, start, end), start, end)
  {
    hide Points, Meaning, Ordered, RangeFree, EmptyBelow, RemoveAll;
    RemovedList(s, start, end);
    if start < end {
      RemoveAllFree(s, start, end);
    }
    forall limit: nat | EmptyBelow(s, limit)
      ensures EmptyBelow(RemoveAll(s, start, end), limit)
    {
      RemoveAllEmpty(s, start, end, limit);
    }
  }

  lemma ReflagAllReflags(s: seq<Vma>, start: nat, end: nat, flags: MapFlags)
    requires AllOk(s) && start < end
    ensures AllOk(ReflagAll(s, start, end, flags)) && ReflaggedIn(s, ReflagAll(s, start, end, flags), start, end, flags)
  {
    hide Points, Meaning, Ordered, EmptyBelow, ReflagAll, AllRepainted;
    ReflaggedList(s, start, end, flags);
    forall limit: nat | EmptyBelow(s, limit)
      ensures EmptyBelow(ReflagAll(s, start, end, flags), limit)
    {
      ReflagAllEmpty(s, start, end, flags, limit);
    }
  }

  lemma RemovedThenAlike(s: seq<Vma>, t: seq<Vma>, u: seq<Vma>, start: nat, end: nat)
    requires RemovedFrom(s, t, start, end) && Alike(t, u)
    ensures RemovedFrom(s, u, start, end)
  {
    hide Points, Meaning, Ordered, RangeFree, EmptyBelow;
    if Ordered(s) {
      AlikeMeaning(t, u);
    }
  }

  lemma ReflaggedThenAlike(s: seq<Vma>, t: seq<Vma>, u: seq<Vma>, start: nat, end: nat, flags: MapFlags)
    requires ReflaggedIn(s, t, start, end, flags) && Alike(t, u)
    ensures ReflaggedIn(s, u, start, end, flags)
  {
    hide Points, Meaning, Ordered, RangeFree, EmptyBelow, AllRepainted;
    if Ordered(s) {
      AlikeMeaning(t, u);
    }
  }

  /** What merging makes of a list with a range removed, page by page. */
  lemma RemovedPages(s: seq<Vma>, t: seq<Vma>, start: nat, end: nat)
    requires AllOk(s) && OnPages(s) && start <= end && IsAligned(start) && IsAligned(end)
    requires Same(RemoveAll(s, start, end), t)
    ensures OnPages(t) && RemovedFrom(Rounded(s), Rounded(t), start, end)
  {
    hide RemovedFrom, Alike, RemoveAll, AllOk;
    RemoveAllRounded(s, start, end);
    RoundedOk(s);
    RemoveAllRemoves(Rounded(s), start, end);
    RemovedThenAlike(Rounded(s), RemoveAll(Rounded(s), start, end), Rounded(t), start, end);
  }

  lemma ReflaggedPages(s: seq<Vma>, t: seq<Vma>, start: nat, end: nat, flags: MapFlags)
    requires AllOk(s) && OnPages(s) && start < end && IsAligned(start) && IsAligned(end)
    requires Same(ReflagAll(s, start, end, flags), t)
    ensures OnPages(t) && ReflaggedIn(Rounded(s), Rounded(t), start, end, flags)
  {
    hide ReflaggedIn, Alike, ReflagAll, AllOk;
    ReflagAllRounded(s, start, end, flags);
    RoundedOk(s);
    ReflagAllReflags(Rounded(s), start, end, flags);
    ReflaggedThenAlike(Rounded(s), ReflagAll(Rounded(s), start, end, flags), Rounded(t), start, end, flags);
  }

  /** `t` is `s` with one more area: sorted and disjoint exactly if `s` is and has the room. */
  ghost predicate Recorded(s: seq<Vma>, t: seq<Vma>, v: Vma) {
    && (forall a: nat :: Points(t, a) == Points(s, a) + Says(v, a))
    && (Ordered(t) <==> Ordered(s) && Clear(s, v))
    && (Ordered(t) ==> forall a: nat ::
          Meaning(t, a) == if v.Contains(a) then Some(PointAt(v, a)) else Meaning(s, a))
  }

  lemma InsertRecords(s: seq<Vma>, i: nat, v: Vma)
    requires AllOk(s) && AreaOk(v) && Slot(s, v.start, i)
    ensures AllOk(InsertAt(s, i, v)) && Recorded(s, InsertAt(s, i, v), v)
  {
    hide Ordered, Meaning, Points, Clear, Says, PointAt;
    InsertOrdered(s, i, v);
    InsertSays(s, i, v);
  }

  lemma RecordedThenAlike(s: seq<Vma>, t: seq<Vma>, u: seq<Vma>, v: Vma)
    requires Recorded(s, t, v) && Alike(t, u)
    ensures Recorded(s, u, v)
  {
    hide Ordered, Meaning, Points, Clear, Says, PointAt, RangeFree, EmptyBelow;
    if Ordered(t) {
      AlikeMeaning(t, u);
    }
  }

  lemma RecordedPages(s: seq<Vma>, i: nat, v: Vma, u: seq<Vma>)
    requires AllOk(s) && AreaOk(v) && i <= |s| && Slot(s, v.start, i) && OnPages(s) && IsAligned(v.start)
    requires Same(InsertAt(s, i, v), u)
    ensures OnPages(u) && Recorded(Rounded(s), Rounded(u), RoundedUp(v))
  {
    hide Recorded, Alike, Slot, IsAligned;
    InsertRounded(s, i, v);
    RoundedSlot(s, v.start, i);
    RoundedOk(s);
    AlignUpFixes(AlignUp(v.end));
    InsertRecords(Rounded(s), i, RoundedUp(v));
    RecordedThenAlike(Rounded(s), InsertAt(Rounded(s), i, RoundedUp(v)), Rounded(u), RoundedUp(v));
  }

  lemma AlikeIsOk(s: seq<Vma>, t: seq<Vma>)
    requires Alike(s, t)
    ensures AllOk(t)
  {
  }

  lemma AlikeEmpty(s: seq<Vma>, t: seq<Vma>, limit: nat)
    requires Alike(s, t) && EmptyBelow(s, limit)
    ensures EmptyBelow(t, limit)
  {
  }

  lemma OneIsMerged(v: Vma)
    ensures Merged([v])
  {
  }

  lemma InsertEmpty(s: seq<Vma>, i: nat, v: Vma, limit: nat)
    requires i <= |s| && EmptyBelow(s, limit) && (v.start < v.end || v.end <= limit)
    ensures EmptyBelow(InsertAt(s, i, v), limit)
  {
    var t := InsertAt(s, i, v);
    assert forall k :: 0 <= k < |t| ==> t[k] == if k < i then s[k] else if k == i then v else s[k - 1];
  }

  /** In a sorted list the areas from the first one on that does not start below `start` either start there
      or all start above it. */
  lemma StartsAscend(s: seq<Vma>, start: nat)
    requires Ordered(s)
    ensures Slot(s, start, EndIndex(s, start, 0))
  {
    var i := EndIndex(s, start, 0);
    if i < |s| && s[i].start != start {
      assert AreaOk(s[i]);
      forall j | i <= j < |s|
        ensures start < s[j].start
      {
        assert i < j ==> Before(s, i, j);
      }
    }
  }

  predicate SameSort(v: Vma, w: Vma) {
    v.flags == w.flags && v.lazy == w.lazy && (v.kind.PagedImage? <==> w.kind.PagedImage?) &&
    (!v.kind.PagedImage? ==> v.kind == w.kind)
  }

  /** `last` is where `v` ends, outside the removed range; or the removed range, which starts no earlier than
      `last` ends, reaches into `v`. */
  predicate EndsLike(last: Vma, v: Vma, start: nat, end: nat) {
    || (last.end == v.end && SameSort(last, v) && (v.end <= start || end <= v.end))
    || last.end <= start < v.end
  }

  lemma {:induction false} LastRemains(s: seq<Vma>, start: nat, end: nat)
    requires Ordered(s) && start < end && RemoveAll(s, start, end) != []
    ensures s != [] && EndsLike(RemoveAll(s, start, end)[|RemoveAll(s, start, end)| - 1], s[|s| - 1], start, end)
  {
    hide Ordered, Remains, EndsLike;
    var n := |s| - 1;
    if Remains(s[n], start, end) != [] {
      IsOk(s, n);
      LastRemainsOfOne(s[n], start, end);
    } else {
      PrefixIsOrdered(s, n);
      LastRemains(s[..n], start, end);
      IsBefore(s, n - 1, n);
      AllRemoved(RemoveAll(s[..n], start, end)[|RemoveAll(s[..n], start, end)| - 1], s[n - 1], s[n], start, end);
    }
  }

  lemma LastRemainsOfOne(v: Vma, start: nat, end: nat)
    requires start < end && v.start <= v.end && Remains(v, start, end) != []
    ensures EndsLike(Remains(v, start, end)[|Remains(v, start, end)| - 1], v, start, end)
  {
  }

  lemma AllRemoved(last: Vma, v: Vma, w: Vma, start: nat, end: nat)
    requires start < end && EndsLike(last, v, start, end) && v.end <= w.start <= w.end
    requires Remains(w, start, end) == []
    ensures EndsLike(last, w, start, end)
  {
  }

  /** Removing a range from a list without mergeable neighbours leaves none. */
  lemma {:induction false} RemoveAllMerged(s: seq<Vma>, start: nat, end: nat)
    requires Ordered(s) && Merged(s) && start < end
    ensures Merged(RemoveAll(s, start, end))
  {
    hide Ordered, Mergeable, Remains, EndsLike;
    if s != [] {
      var n := |s| - 1;
      var left, rest := RemoveAll(s[..n], start, end), Remains(s[n], start, end);
      PrefixIsOrdered(s, n);
      RemoveAllMerged(s[..n], start, end);
      RemainsMerged(s[n], start, end);
      if left != [] && rest != [] {
        LastRemains(s[..n], start, end);
        assert !Mergeable(s[n - 1], s[n]);
        IsBefore(s, n - 1, n);
        StayApart(left[|left| - 1], s[n - 1], s[n], start, end);
      }
      MergedConcat(left, rest);
    }
  }

  lemma IsOk(s: seq<Vma>, i: nat)
    requires Ordered(s) && i < |s|
    ensures AreaOk(s[i])
  {
  }

  lemma IsBefore(s: seq<Vma>, i: nat, j: nat)
    requires Ordered(s) && i < j < |s|
    ensures s[i].end <= s[j].start <= s[j].end
  {
    assert Before(s, i, j) && AreaOk(s[j]);
  }

  lemma StayApart(last: Vma, v: Vma, w: Vma, start: nat, end: nat)
    requires EndsLike(last, v, start, end) && v.end <= w.start && !Mergeable(v, w) && start < end
    requires Remains(w, start, end) != []
    ensures !Mergeable(last, Remains(w, start, end)[0])
  {
  }

  lemma RemainsMerged(v: Vma, start: nat, end: nat)
    requires start < end
    ensures Merged(Remains(v, start, end))
  {
  }

  lemma MergedConcat(s: seq<Vma>, t: seq<Vma>)
    requires Merged(s) && Merged(t) && (s != [] && t != [] ==> !Mergeable(s[|s| - 1], t[0]))
    ensures Merged(s + t)
  {
    var u := s + t;
    forall i | 0 < i < |u|
      ensures !Mergeable(u[i - 1], u[i])
    {
      if i < |s| {
        assert !Mergeable(s[i - 1], s[i]);
      } else if i > |s| {
        assert !Mergeable(t[i - |s| - 1], t[i - |s|]);
      }
    }
  }

  /** An empty area lies at `at`. */
  predicate EmptyAt(s: seq<Vma>, at: nat) {
    exists i :: 0 <= i < |s| && s[i].start == at && s[i].end == at
  }

  lemma {:induction false} RemoveAllKeepsEmptyAt(s: seq<Vma>, start: nat, end: nat)
    requires start < end
    ensures EmptyAt(RemoveAll(s, start, end), start) <==> EmptyAt(s, start)
  {
    if s != [] {
      var front, last := s[..|s| - 1], s[|s| - 1];
      RemoveAllKeepsEmptyAt(front, start, end);
      EmptyAtConcat(front, [last], start);
      assert s == front + [last];
      EmptyAtConcat(RemoveAll(front, start, end), Remains(last, start, end), start);
      EmptyRemains(last, start, end);
    }
  }

  lemma EmptyAtConcat(s: seq<Vma>, t: seq<Vma>, at: nat)
    ensures EmptyAt(s + t, at) <==> EmptyAt(s, at) || EmptyAt(t, at)
  {
    if EmptyAt(s, at) {
      var i :| 0 <= i < |s| && s[i].start == at && s[i].end == at;
      assert (s + t)[i] == s[i];
    }
    if EmptyAt(t, at) {
      var i :| 0 <= i < |t| && t[i].start == at && t[i].end == at;
      assert (s + t)[|s| + i] == t[i];
    }
  }

  lemma EmptyRemains(v: Vma, start: nat, end: nat)
    requires start < end
    ensures EmptyAt(Remains(v, start, end), start) <==> EmptyAt([v], start)
  {
    if v.start == start && v.end == start {
      assert Remains(v, start, end) == [v];
    } else {
      assert !EmptyAt([v], start);
    }
  }

  // ---------------------------------------------------------------- faults after an operation

  /** The page at `base` lies outside `[start, end)`. */
  predicate PageOutside(base: nat, start: nat, end: nat) {
    IsAligned(base) && (base + PAGE_SIZE <= start || end <= base)
  }

  /** Faults on pages outside the range load the same. */
  ghost predicate SameFaultsOutside(s: seq<Vma>, t: seq<Vma>, start: nat, end: nat) {
    forall base: nat, write :: PageOutside(base, start, end) ==> LazyLoad(t, base, write) == LazyLoad(s, base, write)
  }

  predicate PageInside(base: nat, start: nat, end: nat) {
    IsAligned(base) && start <= base && base + PAGE_SIZE <= end
  }

  /** No page of the range can be loaded. */
  ghost predicate LoadsNothing(s: seq<Vma>, start: nat, end: nat) {
    forall base: nat, write :: PageInside(base, start, end) ==> LazyLoad(s, base, write) == Ok(None)
  }

  /** Every page of `v` is loaded from `v`. */
  ghost predicate LoadsFrom(s: seq<Vma>, v: Vma) {
    forall base: nat, write :: PageInside(base, v.start, v.end) ==>
      LazyLoad(s, base, write) == LoadFromOne(v, base, write)
  }

  /** If two lists differ only inside a range, faults on pages outside it load the same. */
  lemma FaultsKept(s: seq<Vma>, t: seq<Vma>, start: nat, end: nat)
    requires Paged(s) && Paged(t)
    requires forall a: nat :: !(start <= a < end) ==> Meaning(Rounded(s), a) == Meaning(Rounded(t), a)
    ensures SameFaultsOutside(s, t, start, end)
  {
    hide Meaning, Paged, LazyLoad;
    forall base: nat, write | PageOutside(base, start, end)
      ensures LazyLoad(t, base, write) == LazyLoad(s, base, write)
    {
      SameMeaningSameFault(s, t, base, write);
    }
  }

  lemma RemovedTidy(s: seq<Vma>, t: seq<Vma>, start: nat, end: nat, limit: nat)
    requires Paged(s) && EmptyBelow(s, limit) && AllOk(t) && OnPages(t) && start < end <= U64_MAX
    requires RemovedFrom(s, t, start, end) && RemovedFrom(Rounded(s), Rounded(t), start, end)
    ensures Paged(t) && EmptyBelow(t, limit)
    ensures SameFaultsOutside(s, t, start, end) && LoadsNothing(t, start, end)
  {
    hide Meaning, Points, LazyLoad, Ordered, EmptyBelow;
    FaultsKept(s, t, start, end);
    forall base: nat, write | PageInside(base, start, end)
      ensures LazyLoad(t, base, write) == Ok(None)
    {
      NothingToLoad(t, base, write);
    }
  }

  lemma ReflaggedTidy(s: seq<Vma>, t: seq<Vma>, start: nat, end: nat, flags: MapFlags, limit: nat)
    requires Paged(s) && EmptyBelow(s, limit) && AllOk(t) && OnPages(t)
    requires ReflaggedIn(s, t, start, end, flags) && ReflaggedIn(Rounded(s), Rounded(t), start, end, flags)
    ensures Paged(t) && EmptyBelow(t, limit) && SameFaultsOutside(s, t, start, end)
  {
    hide Meaning, Points, LazyLoad, Ordered, EmptyBelow, AllRepainted;
    FaultsKept(s, t, start, end);
  }

  /** What a mapping says is added to the list, and replaces what was there if `replace`. */
  ghost predicate Mapped(s: seq<Vma>, t: seq<Vma>, replace: bool, v: Vma) {
    && (forall a: nat ::
          Points(t, a) == (if replace && v.Contains(a) then multiset{} else Points(s, a)) + Says(v, a))
    && (Ordered(s) && Ordered(t) ==> forall a: nat ::
          Meaning(t, a) == if v.Contains(a) then Some(PointAt(v, a)) else Meaning(s, a))
  }

  lemma RecordedIsMapped(s: seq<Vma>, mid: seq<Vma>, t: seq<Vma>, replace: bool, v: Vma)
    requires if replace then RemovedFrom(s, mid, v.start, v.end) else mid == s
    requires Recorded(mid, t, v)
    ensures Mapped(s, t, replace, v)
  {
    hide Meaning, Points, Ordered, PointAt, Says, EmptyBelow, RangeFree, Clear;
  }

  /** Adding an area with pages of its own to a paged list leaves it paged exactly if no empty area lies at
      the same place. */
  lemma RecordedPaged(s: seq<Vma>, t: seq<Vma>, v: Vma)
    requires Paged(s) && AllOk(t) && OnPages(t) && Recorded(Rounded(s), Rounded(t), RoundedUp(v))
    requires v.start < v.end && IsAligned(v.start) && IsAligned(v.end) && RangeFree(s, v.start, v.end)
    ensures Paged(t) <==> !EmptyAt(s, v.start)
  {
    hide Meaning, Points, Says, Ordered;
    AlignUpFixes(v.end);
    var u := Rounded(s);
    forall j | 0 <= j < |s|
      ensures !(u[j].start < v.end && v.start < u[j].end)
      ensures s[j].start == v.start ==> s[j].end == v.start
    {
      assert AreaOk(s[j]) && !(s[j].start < v.end && v.start < s[j].end);
      AlignUpAtMost(s[j].end, v.start);
    }
    assert RangeFree(u, v.start, v.end);
    if EmptyAt(s, v.start) {
      var i :| 0 <= i < |s| && s[i].start == v.start && s[i].end == v.start;
      assert u[i].start == v.start;
    }
  }

  lemma RecordedFaults(s: seq<Vma>, t: seq<Vma>, v: Vma)
    requires Paged(s) && Paged(t) && Recorded(Rounded(s), Rounded(t), RoundedUp(v))
    requires AreaOk(v) && IsAligned(v.end)
    ensures SameFaultsOutside(s, t, v.start, v.end) && LoadsFrom(t, v)
  {
    hide Meaning, Points, Says, Ordered, LazyLoad, LoadFromOne, PointAt;
    AlignUpFixes(v.end);
    FaultsKept(s, t, v.start, v.end);
    forall base: nat, write | PageInside(base, v.start, v.end)
      ensures LazyLoad(t, base, write) == LoadFromOne(v, base, write)
    {
      LoadedFromArea(t, v, base, write);
    }
  }

  lemma LoadedFromArea(t: seq<Vma>, v: Vma, base: nat, write: bool)
    requires Paged(t) && AreaOk(v) && IsAligned(v.end) && PageInside(base, v.start, v.end)
    requires forall a: nat :: v.Contains(a) ==> Meaning(Rounded(t), a) == Some(PointAt(v, a))
    ensures LazyLoad(t, base, write) == LoadFromOne(v, base, write)
  {
    hide Meaning, Ordered, LazyLoad, LoadFromOne, IsAligned;
    AlignUpFixes(v.end);
    NoMeaning(t, base);
    var i :| 0 <= i < |t| && t[i].Contains(base);
    LazyLoadOfPaged(t, base, write, i);
    AlignedApart(base, AlignUp(t[i].end));
    forall a: nat | base <= a < base + PAGE_SIZE
      ensures PointAt(t[i], a) == PointAt(v, a)
    {
      MeaningIs(Rounded(t), i, a);
      RoundedPoint(t[i], a);
    }
    assert AreaOk(t[i]);
    SamePointsSameLoad(t[i], v, base, write);
  }

  // ---------------------------------------------------------------- the heap

  /** The first area of the heap. */
  function HeapIndex(s: seq<Vma>, from: nat): (i: nat)
    requires from <= |s|
    ensures from <= i <= |s|
    ensures i < |s| ==> s[i].kind.Heap?
    ensures forall j :: from <= j < i ==> !s[j].kind.Heap?
    decreases |s| - from
  {
    if from < |s| && !s[from].kind.Heap? then HeapIndex(s, from + 1) else from
  }

  predicate ClearAbove(s: seq<Vma>, i: nat, end: nat) {
    forall j :: i < j < |s| ==> end <= s[j].start
  }

  /** Every page of the heap up to its new end is loaded from the heap's area, and pages outside both the old
      and the new heap are loaded as before. */
  ghost predicate HeapMoved(s: seq<Vma>, t: seq<Vma>, i: nat, end: nat)
    requires i < |s|
  {
    && SameFaultsOutside(s, t, s[i].start, AlignUp(Max(s[i].end, end)))
    && LoadsFrom(t, s[i].(end := AlignUp(end)))
  }

  lemma MovedIsOk(s: seq<Vma>, i: nat, end: nat)
    requires AllOk(s) && i < |s| && end <= U64_MAX - PAGE_SIZE
    ensures AllOk(s[i := s[i].(end := end)]) <==> s[i].start <= end
  {
    var t := s[i := s[i].(end := end)];
    assert AreaOk(s[i]);
    if AllOk(t) {
      assert AreaOk(t[i]);
    }
  }

  lemma MovedPaged(s: seq<Vma>, i: nat, end: nat, limit: nat)
    requires Paged(s) && EmptyBelow(s, limit) && i < |s| && s[i].start <= end <= limit <= U64_MAX - PAGE_SIZE
    ensures Paged(s[i := s[i].(end := end)]) <==> ClearAbove(s, i, AlignUp(end))
    ensures EmptyBelow(s[i := s[i].(end := end)], limit)
  {
    var t := s[i := s[i].(end := end)];
    MovedIsOk(s, i, end);
    RoundedOk(t);
    var u, w := Rounded(s), Rounded(t);
    if ClearAbove(s, i, AlignUp(end)) {
      forall j, k | 0 <= j < k < |t|
        ensures Before(w, j, k)
      {
        assert Before(u, j, k);
      }
    }
    if Paged(t) {
      forall j | i < j < |s|
        ensures AlignUp(end) <= s[j].start
      {
        assert Before(w, i, j);
      }
    }
  }

  lemma MovedFaults(s: seq<Vma>, i: nat, end: nat)
    requires Paged(s) && i < |s| && s[i].start <= end && Paged(s[i := s[i].(end := end)])
    ensures HeapMoved(s, s[i := s[i].(end := end)], i, end)
  {
    hide LazyLoad, Meaning, LoadFromOne, IsAligned, AlignUp;
    var t := s[i := s[i].(end := end)];
    var top := AlignUp(Max(s[i].end, end));
    AlignUpAtMost(s[i].end, top);
    AlignUpAtMost(end, top);
    forall a: nat | !(s[i].start <= a < top)
      ensures Meaning(Rounded(s), a) == Meaning(Rounded(t), a)
    {
      ElsewhereSame(Rounded(s), Rounded(t), i, a);
    }
    FaultsKept(s, t, s[i].start, top);
    var v := s[i].(end := AlignUp(end));
    forall base: nat, write | PageInside(base, v.start, v.end)
      ensures LazyLoad(t, base, write) == LoadFromOne(v, base, write)
    {
      HeapLoads(t, i, base, write);
    }
  }

  /** Lists that differ in one area mean the same where neither version of it reaches. */
  lemma ElsewhereSame(s: seq<Vma>, t: seq<Vma>, i: nat, a: nat)
    requires Ordered(s) && Ordered(t) && i < |s| == |t| && (forall j :: 0 <= j < |s| && j != i ==> s[j] == t[j])
    requires !s[i].Contains(a) && !t[i].Contains(a)
    ensures Meaning(s, a) == Meaning(t, a)
  {
    MeaningNone(s, a);
    MeaningNone(t, a);
    if j :| 0 <= j < |s| && s[j].Contains(a) {
      MeaningIs(s, j, a);
      MeaningIs(t, j, a);
    }
  }

  lemma HeapLoads(t: seq<Vma>, i: nat, base: nat, write: bool)
    requires Paged(t) && i < |t| && PageInside(base, t[i].start, AlignUp(t[i].end))
    ensures LazyLoad(t, base, write) == LoadFromOne(t[i].(end := AlignUp(t[i].end)), base, write)
  {
    hide LazyLoad, LoadFromOne, Ordered, IsAligned, AlignUp;
    AlignUpAtMost(t[i].end, base);
    LazyLoadOfPaged(t, base, write, i);
    LoadIgnoresEnd(t[i], AlignUp(t[i].end), base, write);
  }

  lemma LoadIgnoresEnd(v: Vma, end: nat, base: nat, write: bool)
    ensures LoadFromOne(v.(end := end), base, write) == LoadFromOne(v, base, write)
  {
  }

  /** Unmapping the bottom of the heap and moving its end below what is left gives an area that ends before
      it starts. */
  lemma HeapTurnsAround(v: Vma, end: nat)
    requires AreaOk(v) && v.kind.Heap? && end < v.start
    ensures HeapIndex([v], 0) == 0 && !AllOk([v][0 := v.(end := end)])
  {
    assert !AreaOk([v][0 := v.(end := end)][0]);
  }

  /** The areas of two segments, of which the second starts in the page where the first ends, overlap. */
  lemma SegmentsShareAPage(first: nat, last: nat, second: nat, top: nat, v: Vma, w: Vma)
    requires first < last <= second < top && AlignDown(second) < AlignUp(last)
    requires v.start == AlignDown(first) && v.end == AlignUp(last)
    requires w.start == AlignDown(second) && w.end == AlignUp(top)
    ensures !Clear([v], w)
  {
    assert [v][0].start < w.end && w.start < [v][0].end;
  }

  /** An area listed before an empty one with the same start is never found: the first touch of its first
      page loads nothing. */
  lemma EmptyHidesPage(v: Vma, empty: Vma, write: bool)
    requires AreaOk(v) && IsAligned(v.start) && v.start + PAGE_SIZE <= v.end
    requires empty.start == v.start == empty.end
    ensures Points([v, empty], v.start) == multiset{PointAt(v, v.start)}
    ensures LazyLoad([v, empty], v.start, write) == Ok(None)
  {
    PointsPush([v], empty, v.start);
    PointsOfOne(v, v.start);
    assert [v] + [empty] == [v, empty];
    assert EndIndex([v, empty], v.start + PAGE_SIZE, 0) == 2;
  }

  // ---------------------------------------------------------------- free ranges

  /** Nothing is said about any address of `[start, end)`. */
  predicate NothingIn(s: seq<Vma>, start: nat, end: nat) {
    forall a: nat :: start <= a < end ==> Points(s, a) == multiset{}
  }

  predicate NoEmptyInside(s: seq<Vma>, start: nat, end: nat) {
    forall i :: 0 <= i < |s| ==> !(start < s[i].start == s[i].end < end)
  }

  lemma PagesEnd(addr: nat, len: nat)
    requires len > 0 && IsAligned(addr)
    ensures AlignUp(len) >= len && IsAligned(addr + AlignUp(len))
  {
  }

  lemma {:induction false} NoPoints(s: seq<Vma>, a: nat)
    ensures Points(s, a) == multiset{} <==> forall i :: 0 <= i < |s| ==> !s[i].Contains(a)
  {
    hide PointAt;
    if s != [] {
      var front, last := s[..|s| - 1], s[|s| - 1];
      NoPoints(front, a);
      assert forall i :: 0 <= i < |s| ==> s[i] == if i < |s| - 1 then front[i] else last;
      if last.Contains(a) {
        assert PointAt(last, a) in Points(s, a);
      } else {
        assert Points(s, a) == Points(front, a);
      }
    }
  }

  lemma FreeMeansNothing(s: seq<Vma>, start: nat, end: nat)
    requires RangeFree(s, start, end)
    ensures NothingIn(s, start, end) && NoEmptyInside(s, start, end)
  {
    forall a: nat | start <= a < end
      ensures Points(s, a) == multiset{}
    {
      NoPoints(s, a);
    }
  }

  lemma NothingMeansFree(s: seq<Vma>, start: nat, end: nat)
    requires AllOk(s) && start < end && NothingIn(s, start, end) && NoEmptyInside(s, start, end)
    ensures RangeFree(s, start, end)
  {
    forall i | 0 <= i < |s|
      ensures !(s[i].start < end && start < s[i].end)
    {
      assert AreaOk(s[i]);
      if s[i].start < end && start < s[i].end && s[i].start < s[i].end {
        NoPoints(s, Max(s[i].start, start));
      }
    }
  }
}
