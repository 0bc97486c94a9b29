/** The operations of an address space on its list of areas. */
module UserVmaList {
  import opened Prelude
  import opened UserMemory
  import opened LazyPages
  import opened UserVmas
  import opened UserVmaPages
  import opened UserVmaEffects
  import opened UserVmaGaps

  method Coalesce(vmas: seq<Vma>) returns (merged: seq<Vma>)
    requires AllOk(vmas)
    ensures Merged(merged) && Same(vmas, merged) && (Merged(vmas) ==> merged == vmas)
    ensures Ordered(vmas) ==> forall a: nat :: Meaning(merged, a) == Meaning(vmas, a)
  {
    hide Points, Meaning, Mergeable, Ordered, RangeFree, EmptyBelow;
    if |vmas| < 2 {
      return vmas;
    }
    merged := [];
    var i := 0;
    assert [] + vmas[0..] == vmas;
    while i < |vmas|
      invariant i <= |vmas| && Merged(merged) && Same(vmas, merged + vmas[i..])
      invariant Merged(vmas) ==> merged == vmas[..i]
    {
      merged := Absorb(merged, vmas, i);
      i := i + 1;
    }
    assert merged + vmas[i..] == merged;
    if Ordered(vmas) {
      AlikeMeaning(vmas, merged);
    }
  }

  /** One round of the merge: the next area extends the last one or is added behind it. */
  method Absorb(merged: seq<Vma>, vmas: seq<Vma>, i: nat) returns (r: seq<Vma>)
    requires i < |vmas| && Merged(merged) && Same(vmas, merged + vmas[i..])
    ensures Merged(r) && Same(vmas, r + vmas[i + 1..])
    ensures Merged(vmas) && merged == vmas[..i] ==> r == vmas[..i + 1]
  {
    hide Points, Mergeable, Ordered, RangeFree, EmptyBelow, Rounded;
    var vma := vmas[i];
    ghost var t := merged + vmas[i..];
    if merged != [] && Mergeable(merged[|merged| - 1], vma) {
      JoinIsSame(t, |merged| - 1);
      LastAreaGrows(merged, vma.end);
      r := merged[..|merged| - 1] + [merged[|merged| - 1].(end := vma.end)];
      assert r + vmas[i + 1..] == JoinAt(t, |merged| - 1);
    } else {
      r := merged + [vma];
      assert r + vmas[i + 1..] == t;
    }
  }

  lemma LastAreaGrows(s: seq<Vma>, end: nat)
    requires Merged(s) && s != []
    ensures Merged(s[..|s| - 1] + [s[|s| - 1].(end := end)])
  {
    var t := s[..|s| - 1] + [s[|s| - 1].(end := end)];
    forall i | 0 < i < |t|
      ensures !Mergeable(t[i - 1], t[i])
    {
      assert !Mergeable(s[i - 1], s[i]);
    }
  }

  // ---------------------------------------------------------------- an address space

  datatype Placement = Anywhere | Fixed | FixedNoReplace

  class AddressSpace {
    var vmas: seq<Vma>
    var brkCurrent: nat
    const brkStart: nat
    const brkLimit: nat
    const mmapTop: nat

    predicate Valid()
      reads this
    {
      AllOk(vmas) && brkLimit <= U64_MAX - PAGE_SIZE && mmapTop <= U64_MAX
    }

    /** The areas start pages, share none, are sorted, and no area above the heap is empty. */
    predicate Tidy()
      reads this
    {
      Paged(vmas) && EmptyBelow(vmas, brkLimit)
    }

    constructor (brkStart: nat, brkLimit: nat, mmapTop: nat)
      requires brkLimit <= U64_MAX - PAGE_SIZE && mmapTop <= U64_MAX
      ensures Valid() && Tidy() && Merged(vmas) && vmas == [] && brkCurrent == brkStart
      ensures this.brkStart == brkStart && this.brkLimit == brkLimit && this.mmapTop == mmapTop
    {
      this.vmas, this.brkCurrent := [], brkStart;
      this.brkStart, this.brkLimit, this.mmapTop := brkStart, brkLimit, mmapTop;
    }

    method RemoveVmaRange(start: nat, end: nat)
      requires Valid() && start <= end
      modifies this`vmas
      ensures Valid() && Merged(vmas) && RemovedFrom(old(vmas), vmas, start, end)
      ensures old(Ordered(vmas)) && old(Merged(vmas)) && start < end ==> vmas == RemoveAll(old(vmas), start, end)
      ensures old(OnPages(vmas)) && IsAligned(start) && IsAligned(end) ==>
                OnPages(vmas) && RemovedFrom(Rounded(old(vmas)), Rounded(vmas), start, end)
    {
      hide RemovedFrom, Alike, Remains, AllOk, OnPages, Merged, Ordered, Meaning;
      ghost var s := vmas;
      var updated: seq<Vma> := [];
      var i := 0;
      while i < |vmas|
        invariant i <= |vmas| && vmas == s && updated == RemoveAll(s[..i], start, end)
      {
        assert s[..i + 1][..i] == s[..i];
        updated := updated + Remains(vmas[i], start, end);
        i := i + 1;
      }
      assert s[..i] == s;
      RemoveAllRemoves(s, start, end);
      vmas := Coalesce(updated);
      RemovedThenAlike(s, updated, vmas, start, end);
      AlikeIsOk(updated, vmas);
      if Ordered(s) && Merged(s) && start < end {
        RemoveAllMerged(s, start, end);
      }
      if OnPages(s) && IsAligned(start) && IsAligned(end) {
        RemovedPages(s, vmas, start, end);
      }
    }

    method UpdateVmaFlags(start: nat, end: nat, flags: MapFlags)
      requires Valid() && start < end
      modifies this`vmas
      ensures Valid() && Merged(vmas) && ReflaggedIn(old(vmas), vmas, start, end, flags)
      ensures old(OnPages(vmas)) && IsAligned(start) && IsAligned(end) ==>
                OnPages(vmas) && ReflaggedIn(Rounded(old(vmas)), Rounded(vmas), start, end, flags)
    {
      hide ReflaggedIn, Alike, Reflag, AllOk, OnPages, Merged, Ordered, Meaning;
      ghost var s := vmas;
      var updated: seq<Vma> := [];
      var i := 0;
      while i < |vmas|
        invariant i <= |vmas| && vmas == s && updated == ReflagAll(s[..i], start, end, flags)
      {
        assert s[..i + 1][..i] == s[..i];
        updated := updated + Reflag(vmas[i], start, end, flags);
        i := i + 1;
      }
      assert s[..i] == s;
      ReflagAllReflags(s, start, end, flags);
      vmas := Coalesce(updated);
      ReflaggedThenAlike(s, updated, vmas, start, end, flags);
      AlikeIsOk(updated, vmas);
      if OnPages(s) && IsAligned(start) && IsAligned(end) {
        ReflaggedPages(s, vmas, start, end, flags);
      }
    }

    /** Joins area `i` with its successor. */
    method JoinNext(i: nat)
      requires AllOk(vmas) && i + 1 < |vmas| && Mergeable(vmas[i], vmas[i + 1])
      modifies this`vmas
      ensures vmas == JoinAt(old(vmas), i) && Same(old(vmas), vmas)
    {
      hide Alike, Mergeable, AllOk, OnPages;
      JoinIsSame(vmas, i);
      vmas := vmas[i := vmas[i].(end := vmas[i + 1].end)];
      vmas := vmas[..i + 1] + vmas[i + 2..];
      assert vmas == JoinAt(old(vmas), i);
    }

    method MergeVmaNeighborsAround(start: nat)
      requires AllOk(vmas) && start < |vmas|
      modifies this`vmas
      ensures Same(old(vmas), vmas) && (old(MergedExcept(vmas, start)) ==> Merged(vmas))
      ensures old(Merged(vmas)) ==> vmas == old(vmas)
    {
      hide Ordered, Points, RangeFree, EmptyBelow, Rounded;
      var index: nat := start;
      while index > 0 && Mergeable(vmas[index - 1], vmas[index])
        invariant index < |vmas| && Same(old(vmas), vmas)
        invariant old(MergedExcept(vmas, start)) ==> MergedExcept(vmas, index)
        invariant old(Merged(vmas)) ==> vmas == old(vmas)
      {
        JoinNext(index - 1);
        index := index - 1;
      }
      while index + 1 < |vmas| && Mergeable(vmas[index], vmas[index + 1])
        invariant index < |vmas| && Same(old(vmas), vmas)
        invariant old(MergedExcept(vmas, start)) ==> MergedExcept(vmas, index)
        invariant old(Merged(vmas)) ==> vmas == old(vmas)
        invariant index > 0 ==> !Mergeable(vmas[index - 1], vmas[index])
        decreases |vmas|
      {
        JoinNext(index);
      }
    }

    /** The binary search for an area that starts at `start`. */
    method FindSlot(start: nat) returns (index: nat)
      ensures Slot(vmas, start, index)
    {
      if Ordered(vmas) {
        index := EndIndex(vmas, start, 0);
        StartsAscend(vmas, start);
      } else {
        index :| index <= |vmas|;
      }
    }

    /** Lists one more area. The list stays sorted and disjoint exactly if it was and had the room. */
    method RecordVma(vma: Vma)
      requires Valid() && AreaOk(vma)
      modifies this`vmas
      ensures Valid() && (old(Merged(vmas)) ==> Merged(vmas)) && Recorded(old(vmas), vmas, vma)
      ensures old(vmas) == [] ==> vmas == [vma]
      ensures old(OnPages(vmas)) && IsAligned(vma.start) ==>
                OnPages(vmas) && Recorded(Rounded(old(vmas)), Rounded(vmas), RoundedUp(vma))
      ensures old(EmptyBelow(vmas, brkLimit)) && (vma.start < vma.end || vma.end <= brkLimit) ==>
                EmptyBelow(vmas, brkLimit)
    {
      hide Recorded, Alike, Slot, Mergeable, EmptyBelow, IsAligned, OnPages, Merged, AllOk, AreaOk, Rounded, RoundedUp;
      ghost var s := vmas;
      var index := FindSlot(vma.start);
      ghost var t := InsertAt(vmas, index, vma);
      InsertRecords(s, index, vma);
      InsertMerged(s, index, vma);
      vmas := vmas[..index] + [vma] + vmas[index..];
      assert vmas == t;
      assert s == [] ==> t == [vma] && Merged(t) by {
        OneIsMerged(vma);
      }
      MergeVmaNeighborsAround(index);
      RecordedThenAlike(s, t, vmas, vma);
      AlikeIsOk(t, vmas);
      if EmptyBelow(s, brkLimit) && (vma.start < vma.end || vma.end <= brkLimit) {
        InsertEmpty(s, index, vma, brkLimit);
        AlikeEmpty(t, vmas, brkLimit);
      }
      if OnPages(s) && IsAligned(vma.start) {
        RecordedPages(s, index, vma, vmas);
      }
    }

    predicate IsRangeFree(addr: nat, len: nat)
      requires len <= U64_MAX - PAGE_SIZE
      reads this
    {
      len != 0 && IsAligned(addr) && addr + AlignUp(len) <= U64_MAX && RangeFree(vmas, addr, addr + AlignUp(len))
    }

    /** A range of whole pages counts as free exactly if nothing is said about any of its addresses and no
        empty area lies inside. */
    lemma FreeIsUnmapped(addr: nat, len: nat)
      requires Valid() && 0 < len <= U64_MAX - PAGE_SIZE && IsAligned(addr) && addr + AlignUp(len) <= U64_MAX
      ensures IsRangeFree(addr, len) <==>
              NothingIn(vmas, addr, addr + AlignUp(len)) && NoEmptyInside(vmas, addr, addr + AlignUp(len))
    {
      if RangeFree(vmas, addr, addr + AlignUp(len)) {
        FreeMeansNothing(vmas, addr, addr + AlignUp(len));
      } else if NothingIn(vmas, addr, addr + AlignUp(len)) && NoEmptyInside(vmas, addr, addr + AlignUp(len)) {
        NothingMeansFree(vmas, addr, addr + AlignUp(len));
      }
    }

    /** In a tidy list the search lowers its candidate to just below the lowest area that reaches into the
        window, and looks nowhere else: it finds a base exactly if the space at the bottom of the window is
        free, however much room there is in holes further up. */
    method FindTopDownGap(lower: nat, upper: nat, len: nat) returns (r: Option<nat>)
      requires IsAligned(lower) && IsAligned(upper)
      ensures r.Some? ==> lower <= r.value && r.value + AlignUp(len) <= upper && IsAligned(r.value)
      ensures Searchable(vmas, lower) && r.Some? ==> RangeFree(vmas, lower, r.value + AlignUp(len))
      ensures Searchable(vmas, lower) && r.Some? ==> IsCeiling(vmas, r.value + AlignUp(len), lower, upper)
      ensures Searchable(vmas, lower) && r.Some? ==> RangeFree(vmas, r.value, r.value + AlignUp(len))
      ensures Searchable(vmas, lower) && len > 0 ==> (r.Some? <==> GapAtBottom(vmas, lower, upper, AlignUp(len)))
    {
      hide Searchable, RangeFree, Descended, IsCeiling, Paged, Ordered;
      var alignedLen := AlignUp(len);
      if upper < lower || upper - lower < alignedLen {
        return None;
      }
      var gapEnd: nat := upper;
      var i: nat := |vmas|;
      StartDescent(vmas, lower, upper);
      while i > 0
        invariant i <= |vmas| && IsAligned(gapEnd) && lower <= gapEnd <= upper
        invariant Searchable(vmas, lower) ==> Descended(vmas, i, gapEnd, lower, upper)
      {
        i := i - 1;
        var vma := vmas[i];
        if vma.start >= upper {
          SkipArea(vmas, i, gapEnd, lower, upper);
          continue;
        }
        if vma.end <= lower {
          SkipLowAreas(vmas, i, gapEnd, lower, upper);
          break;
        }
        LowerCeiling(vmas, i, gapEnd, lower, upper, alignedLen);
        if gapEnd >= alignedLen {
          var candidate := AlignDown(gapEnd - alignedLen);
          if candidate >= lower && candidate + alignedLen <= vma.start {
            // Never reached in a tidy list: the candidate ends at `gapEnd`, above the start of every area
            // still to come.
            return Some(candidate);
          }
        }
        gapEnd := AlignDown(vma.start);
        if gapEnd <= lower {
          return None;
        }
      }
      AlignDownFixes(gapEnd - alignedLen);
      BottomOfDescent(vmas, gapEnd, lower, upper, alignedLen);
      if gapEnd < alignedLen || AlignDown(gapEnd - alignedLen) < lower {
        return None;
      }
      r := Some(AlignDown(gapEnd - alignedLen));
    }

    method Munmap(addr: nat, len: nat) returns (r: Result<(), BuildError>)
      requires Valid() && len <= U64_MAX - PAGE_SIZE && addr + AlignUp(len) <= U64_MAX
      modifies this`vmas
      ensures Valid()
      ensures r == if len == 0 || !IsAligned(addr) then Err(AddressOverflow) else Ok(())
      ensures r.Err? ==> vmas == old(vmas)
      ensures r.Ok? ==> Merged(vmas) && RemovedFrom(old(vmas), vmas, addr, addr + AlignUp(len))
      ensures r.Ok? && old(Ordered(vmas)) && old(Merged(vmas)) ==>
                vmas == RemoveAll(old(vmas), addr, addr + AlignUp(len))
      ensures old(Tidy()) ==> Tidy() && SameFaultsOutside(old(vmas), vmas, addr, addr + AlignUp(len))
      ensures r.Ok? && old(Tidy()) ==> LoadsNothing(vmas, addr, addr + AlignUp(len))
    {
      hide Meaning, LazyLoad, Ordered, Merged, RangeFree, AlignUp, RemovedFrom, Points;
      if len == 0 || !IsAligned(addr) {
        return Err(AddressOverflow);
      }
      PagesEnd(addr, len);
      ghost var s := vmas;
      var end := addr + AlignUp(len);
      RemoveVmaRange(addr, end);
      if Paged(s) && EmptyBelow(s, brkLimit) {
        RemovedTidy(s, vmas, addr, end, brkLimit);
      }
      r := Ok(());
    }

    method Mprotect(addr: nat, len: nat, flags: MapFlags, mapped: bool) returns (r: Result<(), BuildError>)
      requires Valid() && len <= U64_MAX - PAGE_SIZE
      modifies this`vmas
      ensures Valid()
      ensures r.Err? ==> vmas == old(vmas)
      ensures r == Err(NotMapped) <==>
                r != Err(AddressOverflow) && !mapped && RangeFree(old(vmas), addr, addr + AlignUp(len))
      ensures r.Err? ==> r.error in {AddressOverflow, NotMapped}
      ensures r == Err(AddressOverflow) <==> len == 0 || !IsAligned(addr) || addr + AlignUp(len) > U64_MAX
      ensures r.Ok? ==> Merged(vmas) && ReflaggedIn(old(vmas), vmas, addr, addr + AlignUp(len), flags)
      ensures old(Tidy()) ==> Tidy() && SameFaultsOutside(old(vmas), vmas, addr, addr + AlignUp(len))
    {
      hide Meaning, LazyLoad, Ordered, Merged, RangeFree, AlignUp, ReflaggedIn, Points;
      if len == 0 || !IsAligned(addr) {
        return Err(AddressOverflow);
      }
      PagesEnd(addr, len);
      var end := addr + AlignUp(len);
      if end > U64_MAX {
        return Err(AddressOverflow);
      }
      if !mapped && RangeFree(vmas, addr, end) {
        return Err(NotMapped);
      }
      ghost var s := vmas;
      UpdateVmaFlags(addr, end, flags);
      if Paged(s) && EmptyBelow(s, brkLimit) {
        ReflaggedTidy(s, vmas, addr, end, flags, brkLimit);
      }
      r := Ok(());
    }

    method PrepareMappingBase(addr: nat, len: nat, placement: Placement) returns (r: Result<nat, BuildError>)
      requires Valid() && 0 < len <= U64_MAX - PAGE_SIZE
      requires placement.Fixed? ==> addr + AlignUp(len) <= U64_MAX
      modifies this`vmas
      ensures Valid()
      ensures r.Err? || !placement.Fixed? ==> vmas == old(vmas)
      ensures r.Ok? && placement.Fixed? ==> Merged(vmas) && RemovedFrom(old(vmas), vmas, addr, addr + AlignUp(len))
      ensures r.Ok? && placement.Fixed? && old(Ordered(vmas)) && old(Merged(vmas)) ==>
                vmas == RemoveAll(old(vmas), addr, addr + AlignUp(len))
      ensures r.Ok? && old(Tidy()) ==> Tidy() && SameFaultsOutside(old(vmas), vmas, r.value, r.value + AlignUp(len))
      ensures r.Ok? ==> IsAligned(r.value) && r.value + AlignUp(len) <= U64_MAX
      ensures r.Ok? && (!placement.Anywhere? || old(Tidy())) ==> RangeFree(vmas, r.value, r.value + AlignUp(len))
      ensures r.Ok? && !placement.Anywhere? ==> r.value == addr
      ensures r.Ok? && placement.Anywhere? ==> brkLimit <= r.value && r.value + AlignUp(len) <= mmapTop
      ensures placement.Anywhere? ==> r.Err? ==> r.error == OutOfMemory
      ensures placement.Anywhere? && old(Tidy()) ==> (r.Ok? <==> RoomAnywhere(len))
      ensures placement.FixedNoReplace? ==> (r.Ok? <==> old(IsRangeFree(addr, len)))
      ensures placement.Fixed? ==> (r.Ok? <==> IsAligned(addr))
    {
      hide Meaning, LazyLoad, Ordered, Merged, RangeFree, Points, Paged, EmptyBelow;
      match placement
      case FixedNoReplace =>
        if !IsAligned(addr) {
          return Err(AddressOverflow);
        }
        if !IsRangeFree(addr, len) {
          return Err(AlreadyMapped);
        }
        r := Ok(addr);
      case Fixed =>
        if !IsAligned(addr) {
          return Err(AddressOverflow);
        }
        var _ := Munmap(addr, len);
        r := Ok(addr);
      case Anywhere =>
        TidyIsSearchable(vmas, brkLimit);
        var gap := FindTopDownGap(AlignUp(brkLimit), AlignDown(mmapTop), len);
        r := if gap.None? then Err(OutOfMemory) else Ok(gap.value);
    }

    /** The heap gets its area, empty at first. */
    method InitializeHeap()
      requires Valid() && brkStart <= brkLimit
      modifies this`vmas
      ensures Valid() && (old(Merged(vmas)) ==> Merged(vmas))
      ensures Recorded(old(vmas), vmas, Vma(brkStart, brkStart, {Read, Write, User}, Heap, true))
      ensures old(vmas) == [] ==> vmas == [Vma(brkStart, brkStart, {Read, Write, User}, Heap, true)]
      ensures old(Tidy()) && IsAligned(brkStart) ==>
                (Tidy() <==> RangeFree(Rounded(old(vmas)), brkStart, brkStart))
    {
      hide Meaning, Ordered, Merged, Points, EmptyBelow, Says;
      AlignUpAtMost(brkStart, AlignUp(brkLimit));
      RecordVma(Vma(brkStart, brkStart, {Read, Write, User}, Heap, true));
      if IsAligned(brkStart) {
        AlignUpFixes(brkStart);
      }
    }

    predicate Moves(newBrk: nat) {
      newBrk != 0 && brkStart <= newBrk <= brkLimit
    }

    /** Moves the end of the heap, which is the end of the first heap area in the list, wherever that area
        starts: it ends before it starts exactly if the bottom of the heap was unmapped up to above the new
        end, and it shares pages with the areas above exactly if they reach below the new end. */
    method Brk(newBrk: nat) returns (r: nat)
      requires Valid()
      modifies this
      ensures r == brkCurrent == if Moves(newBrk) then newBrk else old(brkCurrent)
      ensures !Moves(newBrk) || HeapIndex(old(vmas), 0) == |old(vmas)| ==> vmas == old(vmas)
      ensures Moves(newBrk) && HeapIndex(old(vmas), 0) < |old(vmas)| ==>
                var i := HeapIndex(old(vmas), 0);
                && (Valid() <==> old(vmas)[i].start <= newBrk)
                && (old(Tidy()) && Valid() ==> (Tidy() <==> ClearAbove(old(vmas), i, AlignUp(newBrk))))
                && (old(Tidy()) && Valid() && Tidy() ==> HeapMoved(old(vmas), vmas, i, newBrk))
    {
      r := brkCurrent;
      if !Moves(newBrk) {
        return;
      }
      brkCurrent := newBrk;
      var i := HeapIndex(vmas, 0);
      if i < |vmas| {
        MovedIsOk(vmas, i, newBrk);
        if Tidy() && vmas[i].start <= newBrk {
          MovedPaged(vmas, i, newBrk, brkLimit);
          if ClearAbove(vmas, i, AlignUp(newBrk)) {
            MovedFaults(vmas, i, newBrk);
          }
        }
        vmas := vmas[i := vmas[i].(end := newBrk)];
      }
      r := brkCurrent;
    }

    /** The space just above the heap is free. */
    predicate RoomAnywhere(len: nat)
      reads this
    {
      GapAtBottom(vmas, AlignUp(brkLimit), AlignDown(mmapTop), AlignUp(len))
    }

    /** A new mapping, backed by `kind`, of `len` bytes rounded up to whole pages. A tidy list stays tidy
        exactly if no empty area, such as an unused heap, lies at the base of the mapping. */
    method Mmap(addr: nat, len: nat, placement: Placement, flags: MapFlags, kind: VmaKind, lazy: bool)
      returns (r: Result<nat, BuildError>)
      requires Valid() && len <= U64_MAX - PAGE_SIZE && KindOk(kind)
      requires placement.Fixed? ==> addr + AlignUp(len) <= U64_MAX
      modifies this`vmas
      ensures Valid() && (old(Merged(vmas)) ==> Merged(vmas))
      ensures len == 0 ==> r == Err(AddressOverflow)
      ensures r.Err? ==> vmas == old(vmas)
      ensures r.Ok? ==> IsAligned(r.value) && r.value + AlignUp(len) <= U64_MAX
      ensures r.Ok? && !placement.Anywhere? ==> r.value == addr
      ensures r.Ok? && placement.Anywhere? ==> brkLimit <= r.value && r.value + AlignUp(len) <= mmapTop
      ensures r.Ok? && (placement.FixedNoReplace? || (placement.Anywhere? && old(Tidy()))) ==>
                old(RangeFree(vmas, r.value, r.value + AlignUp(len)))
      ensures len > 0 && placement.Anywhere? && r.Err? ==> r.error == OutOfMemory
      ensures len > 0 && placement.Anywhere? && old(Tidy()) ==> (r.Ok? <==> old(RoomAnywhere(len)))
      ensures len > 0 && placement.FixedNoReplace? ==> (r.Ok? <==> old(IsRangeFree(addr, len)))
      ensures len > 0 && placement.Fixed? ==> (r.Ok? <==> IsAligned(addr))
      ensures r.Ok? ==>
                Mapped(old(vmas), vmas, placement.Fixed?, Vma(r.value, r.value + AlignUp(len), flags, kind, lazy))
      ensures r.Ok? && old(Tidy()) && old(Merged(vmas)) ==> (Tidy() <==> !EmptyAt(old(vmas), r.value))
      ensures r.Ok? && old(Tidy()) && Tidy() ==>
                && SameFaultsOutside(old(vmas), vmas, r.value, r.value + AlignUp(len))
                && LoadsFrom(vmas, Vma(r.value, r.value + AlignUp(len), flags, kind, lazy))
    {
      hide Meaning, Ordered, Merged, RangeFree, Points, EmptyBelow, Recorded, RemovedFrom, LazyLoad, RoundedUp;
      if len == 0 {
        return Err(AddressOverflow);
      }
      r := PrepareMappingBase(addr, len, placement);
      if r.Err? {
        return;
      }
      ghost var s := vmas;
      var vma := Vma(r.value, r.value + AlignUp(len), flags, kind, lazy);
      PagesEnd(r.value, len);
      AlignUpFixes(vma.end);
      RecordVma(vma);
      RecordedIsMapped(old(vmas), s, vmas, placement.Fixed?, vma);
      if old(Tidy()) {
        if old(Merged(vmas)) && placement.Fixed? {
          PagedIsOrdered(old(vmas));
          RemoveAllKeepsEmptyAt(old(vmas), vma.start, vma.end);
        }
        RecordedPaged(s, vmas, vma);
        if Tidy() {
          RecordedFaults(s, vmas, vma);
        }
      }
    }
  }

  /** One page at the bottom of the window hides all the room above it from the search. */
  lemma HoleIsNotFound(lower: nat, upper: nat, len: nat, flags: MapFlags)
    requires IsAligned(lower) && IsAligned(upper) && len > 0 && lower + PAGE_SIZE + AlignUp(len) <= upper <= U64_MAX
    ensures Paged([Vma(lower, lower + PAGE_SIZE, flags, Anonymous, true)])
    ensures RangeFree([Vma(lower, lower + PAGE_SIZE, flags, Anonymous, true)], lower + PAGE_SIZE, upper)
    ensures !GapAtBottom([Vma(lower, lower + PAGE_SIZE, flags, Anonymous, true)], lower, upper, AlignUp(len))
  {
    var s := [Vma(lower, lower + PAGE_SIZE, flags, Anonymous, true)];
    AlignUpFixes(lower + PAGE_SIZE);
    assert s[0].start < lower + AlignUp(len) && lower < s[0].end;
  }

  /** The same on an address space: after one page has been mapped at the bottom, no mapping finds a
      place of its own any more, although everything above that page is free. */
  method HolesAreNotReused(brkLimit: nat, mmapTop: nat, len: nat, flags: MapFlags)
    returns (first: Result<nat, BuildError>, second: Result<nat, BuildError>)
    requires IsAligned(brkLimit) && IsAligned(mmapTop) && 0 < len
    requires brkLimit + PAGE_SIZE + AlignUp(len) <= mmapTop <= U64_MAX - PAGE_SIZE
    ensures first == Ok(brkLimit) && second == Err(OutOfMemory)
  {
    hide Ordered, Merged, Paged;
    var space := new AddressSpace(brkLimit, brkLimit, mmapTop);
    first := space.Mmap(brkLimit, PAGE_SIZE, FixedNoReplace, flags, Anonymous, true);
    AlignDownFixes(brkLimit);
    AlignDownFixes(mmapTop);
    AlignUpFixes(brkLimit);
    SomethingMeansTaken(space.vmas, brkLimit, brkLimit, brkLimit + AlignUp(len));
    second := space.Mmap(0, len, Anywhere, flags, Anonymous, true);
  }

  lemma SomethingMeansTaken(s: seq<Vma>, a: nat, start: nat, end: nat)
    requires Points(s, a) != multiset{} && start <= a < end
    ensures !RangeFree(s, start, end)
  {
    NoPoints(s, a);
  }

  /** A mapping where the unused heap lies is listed before the heap's empty area. */
  method MappedOverHeap(brkStart: nat, brkLimit: nat, flags: MapFlags)
    returns (space: AddressSpace, r: Result<nat, BuildError>)
    requires IsAligned(brkStart) && brkStart <= brkLimit <= U64_MAX - PAGE_SIZE
    ensures fresh(space) && space.Valid() && r == Ok(brkStart) && !space.Tidy()
  {
    space := new AddressSpace(brkStart, brkLimit, U64_MAX);
    space.InitializeHeap();
    AlignUpFixes(brkStart);
    AlignUpFixes(PAGE_SIZE);
    assert EmptyAt(space.vmas, brkStart) by {
      assert space.vmas[0].start == brkStart;
    }
    r := space.Mmap(brkStart, PAGE_SIZE, FixedNoReplace, flags, Anonymous, true);
  }
}
