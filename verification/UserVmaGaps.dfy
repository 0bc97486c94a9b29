/** The search for a free range below the areas of a window. */
module UserVmaGaps {
  import opened Prelude
  import opened UserMemory
  import opened UserVmas
  import opened UserVmaPages


  /** There is room for `len` bytes at the bottom of the window. */
  predicate GapAtBottom(s: seq<Vma>, lower: nat, upper: nat, len: nat) {
    lower + len <= upper && RangeFree(s, lower, lower + len)
  }

  predicate StartsInWindow(v: Vma, at: nat, lower: nat) {
    v.start == at && lower < v.end
  }

  /** The free space at the bottom of the window ends at `at`: with the window, or where an area that
      reaches into the window starts. */
  predicate IsCeiling(s: seq<Vma>, at: nat, lower: nat, upper: nat) {
    at == upper || exists j :: 0 <= j < |s| && StartsInWindow(s[j], at, lower)
  }

  /** The areas from `i` on have been looked at. */
  predicate Descended(s: seq<Vma>, i: nat, gapEnd: nat, lower: nat, upper: nat) {
    && i <= |s| && IsCeiling(s, gapEnd, lower, upper)
    && (forall j :: i <= j < |s| ==> gapEnd <= s[j].start)
    && (forall j :: 0 <= j < i && s[j].start < upper && lower < s[j].end ==> s[j].start < gapEnd)
  }

  /** The areas share no page and are sorted, and none above `lower` is empty. */
  predicate Searchable(s: seq<Vma>, lower: nat) {
    Paged(s) && EmptyBelow(s, lower)
  }

  lemma TidyIsSearchable(s: seq<Vma>, limit: nat)
    ensures Paged(s) && EmptyBelow(s, limit) ==> Searchable(s, AlignUp(limit))
  {
  }

  lemma StartDescent(s: seq<Vma>, lower: nat, upper: nat)
    ensures Descended(s, |s|, upper, lower, upper)
  {
  }

  lemma SkipArea(s: seq<Vma>, i: nat, gapEnd: nat, lower: nat, upper: nat)
    requires i < |s| && s[i].start >= upper && gapEnd <= upper
    ensures Descended(s, i + 1, gapEnd, lower, upper) ==> Descended(s, i, gapEnd, lower, upper)
  {
  }

  lemma LowerCeiling(s: seq<Vma>, i: nat, gapEnd: nat, lower: nat, upper: nat, len: nat)
    requires i < |s| && s[i].start < upper && lower < s[i].end
    requires Searchable(s, lower) ==> Descended(s, i + 1, gapEnd, lower, upper)
    requires IsAligned(gapEnd) && IsAligned(len) && gapEnd <= upper
    ensures gapEnd >= len ==> AlignDown(gapEnd - len) + len == gapEnd
    ensures Searchable(s, lower) ==> s[i].start < gapEnd && AlignDown(s[i].start) == s[i].start
    ensures Searchable(s, lower) ==> Descended(s, i, s[i].start, lower, upper)
    ensures Searchable(s, lower) && s[i].start <= lower && 0 < len ==> !RangeFree(s, lower, lower + len)
  {
    if Searchable(s, lower) {
      CeilingDescends(s, i, gapEnd, lower, upper);
    }
  }

  lemma CeilingDescends(s: seq<Vma>, i: nat, gapEnd: nat, lower: nat, upper: nat)
    requires Searchable(s, lower) && Descended(s, i + 1, gapEnd, lower, upper)
    requires s[i].start < upper && lower < s[i].end
    ensures s[i].start < gapEnd && Descended(s, i, s[i].start, lower, upper)
  {
    PagedIsOrdered(s);
    assert StartsInWindow(s[i], s[i].start, lower);
    forall j | 0 <= j < |s|
      ensures j < i && lower < s[j].end ==> s[j].start < s[i].start
      ensures i <= j ==> s[i].start <= s[j].start
    {
      assert AreaOk(s[j]) && AreaOk(s[i]);
      assert (j < i ==> Before(s, j, i)) && (i < j ==> Before(s, i, j));
    }
  }

  lemma AlignDownFixes(a: int)
    ensures a >= 0 && IsAligned(a) ==> AlignDown(a) == a
  {
  }

  /** Below an area that ends below the window there are only such areas. */
  lemma SkipLowAreas(s: seq<Vma>, i: nat, gapEnd: nat, lower: nat, upper: nat)
    requires i < |s| && s[i].end <= lower
    ensures Searchable(s, lower) && Descended(s, i + 1, gapEnd, lower, upper) ==>
              ClearBelow(s, gapEnd, lower) && IsCeiling(s, gapEnd, lower, upper)
  {
    if Searchable(s, lower) && Descended(s, i + 1, gapEnd, lower, upper) {
      PagedIsOrdered(s);
      forall j | 0 <= j < |s|
        ensures s[j].end <= lower || gapEnd <= s[j].start
      {
        assert AreaOk(s[i]);
        assert j < i ==> Before(s, j, i);
      }
    }
  }

  /** No area reaches into `[lower, gapEnd)`. */
  predicate ClearBelow(s: seq<Vma>, gapEnd: nat, lower: nat) {
    forall j :: 0 <= j < |s| ==> s[j].end <= lower || gapEnd <= s[j].start
  }

  predicate DescentDone(s: seq<Vma>, gapEnd: nat, lower: nat, upper: nat) {
    Descended(s, 0, gapEnd, lower, upper) || (ClearBelow(s, gapEnd, lower) && IsCeiling(s, gapEnd, lower, upper))
  }

  /** At the end of the descent all the space below the ceiling is free, and the space above is not. */
  lemma BottomOfDescent(s: seq<Vma>, gapEnd: nat, lower: nat, upper: nat, len: nat)
    requires Searchable(s, lower) ==> DescentDone(s, gapEnd, lower, upper)
    requires lower <= gapEnd <= upper
    ensures Searchable(s, lower) ==> RangeFree(s, lower, gapEnd) && IsCeiling(s, gapEnd, lower, upper)
    ensures Searchable(s, lower) && lower + len <= gapEnd ==>
              RangeFree(s, lower, lower + len) && RangeFree(s, gapEnd - len, gapEnd)
    ensures Searchable(s, lower) && gapEnd < lower + len <= upper ==> !RangeFree(s, lower, lower + len)
  {
    if Searchable(s, lower) && gapEnd < lower + len <= upper {
      var j :| 0 <= j < |s| && StartsInWindow(s[j], gapEnd, lower);
      assert s[j].start < lower + len && lower < s[j].end;
    }
  }
}
