/** What a list of areas means page by page, and what a fault makes of it. A page that an area only reaches
    into belongs to the area as a whole. */
module UserVmaPages {
  import opened Prelude
  import opened UserMemory
  import opened LazyPages
  import opened UserVmas

  /** The area taken to the end of its last page. */
  function RoundedUp(v: Vma): Vma {
    v.(end := AlignUp(v.end))
  }

  function Rounded(s: seq<Vma>): (t: seq<Vma>)
    ensures |t| == |s| && forall i :: 0 <= i < |s| ==> t[i] == RoundedUp(s[i])
  {
    seq(|s|, i requires 0 <= i < |s| => RoundedUp(s[i]))
  }

  predicate OnPages(s: seq<Vma>) {
    forall i :: 0 <= i < |s| ==> IsAligned(s[i].start)
  }

  /** Every area starts a page, and the areas share no page and are sorted. */
  predicate Paged(s: seq<Vma>) {
    AllOk(s) && OnPages(s) && Ordered(Rounded(s))
  }

  lemma AlignUpFixes(a: nat)
    requires IsAligned(a)
    ensures AlignUp(a) == a
  {
  }

  /** An aligned address is at or above an end exactly if it is above the whole last page. */
  lemma AlignUpAtMost(end: nat, a: nat)
    requires IsAligned(a)
    ensures AlignUp(end) <= a <==> end <= a
  {
    if end <= a < AlignUp(end) {
      AlignedApart(a, AlignUp(end));
    }
  }

  lemma RoundedOk(s: seq<Vma>)
    requires AllOk(s)
    ensures AllOk(Rounded(s))
  {
    forall i | 0 <= i < |s|
      ensures AreaOk(Rounded(s)[i])
    {
      assert AreaOk(s[i]);
      AlignUpFixes(AlignUp(s[i].end));
    }
  }

  lemma PagedIsOrdered(s: seq<Vma>)
    requires Paged(s)
    ensures Ordered(s)
  {
    forall i, j | 0 <= i < j < |s|
      ensures Before(s, i, j)
    {
      assert Before(Rounded(s), i, j);
    }
  }

  lemma RoundedConcat(s: seq<Vma>, t: seq<Vma>)
    ensures Rounded(s + t) == Rounded(s) + Rounded(t)
  {
  }

  // ---------------------------------------------------------------- operations commute with rounding

  /** `t` is like `s`, also page by page. */
  ghost predicate Same(s: seq<Vma>, t: seq<Vma>) {
    Alike(s, t) && (OnPages(s) ==> OnPages(t) && Alike(Rounded(s), Rounded(t)))
  }

  lemma JoinIsSame(s: seq<Vma>, i: nat)
    requires AllOk(s) && i + 1 < |s| && Mergeable(s[i], s[i + 1])
    ensures Same(s, JoinAt(s, i))
  {
    hide Alike, AllOk;
    JoinKeeps(s, i);
    if OnPages(s) {
      AlignUpFixes(s[i].end);
      RoundedOk(s);
      JoinKeeps(Rounded(s), i);
      assert Rounded(JoinAt(s, i)) == JoinAt(Rounded(s), i);
    }
  }

  lemma InsertRounded(s: seq<Vma>, i: nat, v: Vma)
    requires i <= |s|
    ensures Rounded(InsertAt(s, i, v)) == InsertAt(Rounded(s), i, RoundedUp(v))
    ensures OnPages(InsertAt(s, i, v)) <==> OnPages(s) && IsAligned(v.start)
  {
    var t := InsertAt(s, i, v);
    assert forall k :: 0 <= k < |t| ==> t[k] == if k < i then s[k] else if k == i then v else s[k - 1];
    if OnPages(t) {
      assert IsAligned(t[i].start);
      forall k | 0 <= k < |s|
        ensures IsAligned(s[k].start)
      {
        assert s[k] == t[if k < i then k else k + 1];
      }
    }
  }

  /** A list with one more area is paged exactly if it was, the area starts a page, and no other area has
      any of its pages. */
  lemma InsertPaged(s: seq<Vma>, i: nat, v: Vma)
    requires AllOk(s) && AreaOk(v) && Slot(s, v.start, i)
    ensures Paged(InsertAt(s, i, v)) <==> Paged(s) && IsAligned(v.start) && Clear(Rounded(s), RoundedUp(v))
  {
    hide Clear, IsAligned;
    InsertOrdered(s, i, v);
    InsertRounded(s, i, v);
    RoundedOk(s);
    AlignUpFixes(AlignUp(v.end));
    if OnPages(s) {
      RoundedSlot(s, v.start, i);
      InsertOrdered(Rounded(s), i, RoundedUp(v));
    }
  }

  lemma RoundedSlot(s: seq<Vma>, start: nat, i: nat)
    requires AllOk(s) && OnPages(s) && Slot(s, start, i)
    ensures Slot(Rounded(s), start, i)
  {
    if Ordered(Rounded(s)) {
      PagedIsOrdered(s);
    }
  }

  lemma RemainsRounded(v: Vma, start: nat, end: nat)
    requires AreaOk(v) && IsAligned(v.start) && start <= end && IsAligned(start) && IsAligned(end)
    ensures Rounded(Remains(v, start, end)) == Remains(RoundedUp(v), start, end)
    ensures OnPages(Remains(v, start, end))
  {
    AlignUpAtMost(v.end, start);
    AlignUpAtMost(v.end, end);
    AlignUpFixes(start);
    if !Missed(v, start, end) {
      RoundedConcat(Part(v, v.start, start), Part(v, Max(v.start, end), v.end));
    }
  }

  lemma ReflagRounded(v: Vma, start: nat, end: nat, flags: MapFlags)
    requires AreaOk(v) && IsAligned(v.start) && start < end && IsAligned(start) && IsAligned(end)
    ensures Rounded(Reflag(v, start, end, flags)) == Reflag(RoundedUp(v), start, end, flags)
    ensures OnPages(Reflag(v, start, end, flags))
  {
    AlignUpAtMost(v.end, start);
    AlignUpAtMost(v.end, end);
    AlignUpFixes(start);
    AlignUpFixes(end);
    hide IsAligned, AlignUp;
    if !Missed(v, start, end) {
      var left, right := Part(v, v.start, start), Part(v, Max(v.start, end), v.end);
      RoundedConcat(left, [Middle(v, start, end, flags)]);
      RoundedConcat(left + [Middle(v, start, end, flags)], right);
    }
  }

  lemma {:induction false} RemoveAllRounded(s: seq<Vma>, start: nat, end: nat)
    requires AllOk(s) && OnPages(s) && start <= end && IsAligned(start) && IsAligned(end)
    ensures Rounded(RemoveAll(s, start, end)) == RemoveAll(Rounded(s), start, end)
    ensures OnPages(RemoveAll(s, start, end))
  {
    if s != [] {
      var front, last := s[..|s| - 1], s[|s| - 1];
      assert Rounded(s)[..|s| - 1] == Rounded(front);
      RemoveAllRounded(front, start, end);
      RemainsRounded(last, start, end);
      RoundedConcat(RemoveAll(front, start, end), Remains(last, start, end));
    }
  }

  lemma {:induction false} ReflagAllRounded(s: seq<Vma>, start: nat, end: nat, flags: MapFlags)
    requires AllOk(s) && OnPages(s) && start < end && IsAligned(start) && IsAligned(end)
    ensures Rounded(ReflagAll(s, start, end, flags)) == ReflagAll(Rounded(s), start, end, flags)
    ensures OnPages(ReflagAll(s, start, end, flags))
  {
    if s != [] {
      var front, last := s[..|s| - 1], s[|s| - 1];
      assert Rounded(s)[..|s| - 1] == Rounded(front);
      ReflagAllRounded(front, start, end, flags);
      ReflagRounded(last, start, end, flags);
      RoundedConcat(ReflagAll(front, start, end, flags), Reflag(last, start, end, flags));
    }
  }

  // ---------------------------------------------------------------- faults

  lemma Neighbours(s: seq<Vma>, i: nat)
    requires Paged(s) && i < |s|
    ensures forall j :: 0 <= j < i ==> s[j].start <= s[j].end <= s[i].start
    ensures forall j :: i < j < |s| ==> AlignUp(s[i].end) <= s[j].start
  {
    PagedIsOrdered(s);
    forall j | 0 <= j < |s|
      ensures j < i ==> s[j].start <= s[j].end <= s[i].start
      ensures i < j ==> AlignUp(s[i].end) <= s[j].start
    {
      assert AreaOk(s[j]);
      assert (j < i ==> Before(s, j, i)) && (i < j ==> Before(Rounded(s), i, j));
    }
  }

  /** At most one area of a paged list has a given page. */
  lemma WindowOfPaged(s: seq<Vma>, base: nat, i: nat)
    requires Paged(s) && IsAligned(base) && i < |s| && s[i].Contains(base)
    ensures EndIndex(s, base + PAGE_SIZE, 0) == i + 1
    ensures StartIndex(s, i + 1, base) == i
  {
    hide Paged, IsAligned, EndIndex, StartIndex;
    Neighbours(s, i);
    AlignedApart(base, AlignUp(s[i].end));
    assert i > 0 ==> s[i - 1].end <= base;
    assert i + 1 < |s| ==> s[i + 1].start >= base + PAGE_SIZE;
  }

  lemma NoWindow(s: seq<Vma>, base: nat)
    requires OnPages(s) && IsAligned(base)
    requires forall i :: 0 <= i < |s| ==> !s[i].Contains(base)
    ensures StartIndex(s, EndIndex(s, base + PAGE_SIZE, 0), base) == EndIndex(s, base + PAGE_SIZE, 0)
  {
    var hi := EndIndex(s, base + PAGE_SIZE, 0);
    if hi > 0 && base < s[hi - 1].start {
      AlignedApart(base, s[hi - 1].start);
    }
  }

  /** A first touch served by the one area that holds the page. */
  function LoadFromOne(v: Vma, base: nat, write: bool): Result<Option<(Page, MapFlags)>, BuildError> {
    if !v.lazy || (write && Write !in v.flags) then Ok(None)
    else
      match FillFrom(ZeroPage(), base, v)
      case Err(e) => Err(e)
      case Ok(page) => Ok(Some((page, v.flags)))
  }

  lemma SingletonLoads(v: Vma, base: nat)
    ensures SortByOrder([v]) == [v]
    ensures MergedFlags([v]) == v.flags
    ensures FillAll([v], base) == FillFrom(ZeroPage(), base, v)
  {
    assert [v][..0] == [];
  }

  lemma LazyLoadOfPaged(s: seq<Vma>, base: nat, write: bool, i: nat)
    requires Paged(s) && IsAligned(base) && base + PAGE_SIZE <= U64_MAX
    requires i < |s| && s[i].Contains(base)
    ensures LazyLoad(s, base, write) == LoadFromOne(s[i], base, write)
  {
    hide FillAll, SortByOrder, MergedFlags;
    WindowOfPaged(s, base, i);
    assert Contributors(s, i, i + 1, base) == if s[i].lazy then [s[i]] else [];
    SingletonLoads(s[i], base);
  }

  /** A fault sees nothing of the list but what it says about the addresses of the page: where two
      lists agree on a page, its first touch has the same outcome, page, permissions and error. */
  lemma SameMeaningSameFault(s: seq<Vma>, t: seq<Vma>, base: nat, write: bool)
    requires Paged(s) && Paged(t) && IsAligned(base)
    requires forall a: nat :: base <= a < base + PAGE_SIZE ==> Meaning(Rounded(s), a) == Meaning(Rounded(t), a)
    ensures LazyLoad(s, base, write) == LazyLoad(t, base, write)
  {
    hide LazyLoad, LoadFromOne;
    if base + PAGE_SIZE > U64_MAX {
      PastTheEnd(s, base, write);
      PastTheEnd(t, base, write);
      return;
    }
    NoMeaning(s, base);
    NoMeaning(t, base);
    if Meaning(Rounded(s), base).None? {
      NothingToLoad(s, base, write);
      NothingToLoad(t, base, write);
    } else {
      var i :| 0 <= i < |s| && s[i].Contains(base);
      var j :| 0 <= j < |t| && t[j].Contains(base);
      LazyLoadOfPaged(s, base, write, i);
      LazyLoadOfPaged(t, base, write, j);
      SameAreaSameLoad(s, i, t, j, base, write);
    }
  }

  /** A page means nothing exactly if no area has its first address. */
  lemma NoMeaning(s: seq<Vma>, base: nat)
    requires IsAligned(base)
    ensures Meaning(Rounded(s), base).None? <==> forall i :: 0 <= i < |s| ==> !s[i].Contains(base)
  {
    MeaningNone(Rounded(s), base);
    forall i | 0 <= i < |s|
      ensures Rounded(s)[i].Contains(base) <==> s[i].Contains(base)
    {
      AlignUpAtMost(s[i].end, base);
    }
  }

  lemma PastTheEnd(s: seq<Vma>, base: nat, write: bool)
    requires base + PAGE_SIZE > U64_MAX
    ensures LazyLoad(s, base, write) == Err(AddressOverflow)
  {
  }

  lemma NothingToLoad(s: seq<Vma>, base: nat, write: bool)
    requires OnPages(s) && IsAligned(base) && base + PAGE_SIZE <= U64_MAX
    requires forall i :: 0 <= i < |s| ==> !s[i].Contains(base)
    ensures LazyLoad(s, base, write) == Ok(None)
  {
    hide FillAll, SortByOrder, MergedFlags;
    NoWindow(s, base);
  }

  lemma SameAreaSameLoad(s: seq<Vma>, i: nat, t: seq<Vma>, j: nat, base: nat, write: bool)
    requires Paged(s) && Paged(t) && IsAligned(base)
    requires i < |s| && s[i].Contains(base) && j < |t| && t[j].Contains(base)
    requires forall a: nat :: base <= a < base + PAGE_SIZE ==> Meaning(Rounded(s), a) == Meaning(Rounded(t), a)
    ensures LoadFromOne(s[i], base, write) == LoadFromOne(t[j], base, write)
  {
    hide IsAligned, Meaning, Ordered, LoadFromOne;
    AlignedApart(base, AlignUp(s[i].end));
    AlignedApart(base, AlignUp(t[j].end));
    forall a: nat | base <= a < base + PAGE_SIZE
      ensures PointAt(s[i], a) == PointAt(t[j], a)
    {
      MeaningIs(Rounded(s), i, a);
      MeaningIs(Rounded(t), j, a);
      RoundedPoint(s[i], a);
      RoundedPoint(t[j], a);
    }
    assert AreaOk(s[i]) && AreaOk(t[j]);
    SamePointsSameLoad(s[i], t[j], base, write);
  }

  lemma RoundedPoint(v: Vma, a: nat)
    requires v.start <= a
    ensures PointAt(RoundedUp(v), a) == PointAt(v, a)
  {
  }

  lemma SamePointsSameLoad(u: Vma, v: Vma, base: nat, write: bool)
    requires KindOk(u.kind) && KindOk(v.kind) && u.start <= base && v.start <= base
    requires forall a: nat :: base <= a < base + PAGE_SIZE ==> PointAt(u, a) == PointAt(v, a)
    ensures LoadFromOne(u, base, write) == LoadFromOne(v, base, write)
  {
    assert PointAt(u, base) == PointAt(v, base);
    forall a: nat | base <= a < base + PAGE_SIZE
      ensures ContentAt(u, a) == ContentAt(v, a)
    {
      assert PointAt(u, a) == PointAt(v, a);
    }
    SameContentsSameFill(base, u, v);
  }
}
