/** First-touch loading of pages: what a fault on a page of a lazy area puts into the page. */
module LazyPages {
  import opened Prelude
  import opened UserMemory

  // ---------------------------------------------------------------- one area

  function ReadExactAt(source: seq<Byte>, offset: nat, len: nat): Result<seq<Byte>, BuildError> {
    if offset + len > U64_MAX || offset + len > |source| then Err(UnexpectedEof)
    else Ok(source[offset..offset + len])
  }

  /** `page` after the source bytes of `[offset, offset + len)` have been stored at `at`. */
  function FillRange(page: Page, at: nat, source: seq<Byte>, offset: nat, len: nat): Result<Page, BuildError>
    requires at + len <= PAGE_SIZE
  {
    if offset > U64_MAX then Err(AddressOverflow)
    else
      match ReadExactAt(source, offset, len)
      case Err(e) => Err(e)
      case Ok(bytes) => Ok(Overwrite(page, at, bytes))
  }

  function FillFrom(page: Page, base: nat, vma: Vma): Result<Page, BuildError> {
    match vma.kind
    case PagedImage(source, imageOffset, imageLen) =>
      var pageOffset := if base > vma.start then base - vma.start else 0;
      if pageOffset >= imageLen then Ok(page)
      else FillRange(page, 0, source, imageOffset + pageOffset, Min(PAGE_SIZE, imageLen - pageOffset))
    case ElfSegmentImage(source, segmentStart, imageOffset, imageLen, order) =>
      if segmentStart + imageLen > U64_MAX then Err(AddressOverflow)
      else
        var copyStart, copyEnd := Max(base, segmentStart), Min(base + PAGE_SIZE, segmentStart + imageLen);
        if copyStart >= copyEnd then Ok(page)
        else FillRange(page, copyStart - base, source, imageOffset + (copyStart - segmentStart), copyEnd - copyStart)
    case _ => Ok(page)
  }

  /** What a lazy area holds at one address before it is first touched. */
  datatype Content = Zero | FileByte(source: seq<Byte>, offset: nat) {
    predicate Missing() {
      FileByte? && offset >= |source|
    }

    function Value(): Byte
      requires !Missing()
    {
      if Zero? then 0 else source[offset]
    }
  }

  function ContentAt(vma: Vma, a: nat): Content
    requires vma.start <= a
  {
    match vma.kind
    case PagedImage(source, imageOffset, imageLen) =>
      if a - vma.start < imageLen then FileByte(source, imageOffset + (a - vma.start)) else Zero
    case ElfSegmentImage(source, segmentStart, imageOffset, imageLen, order) =>
      if segmentStart <= a < segmentStart + imageLen then FileByte(source, imageOffset + (a - segmentStart)) else Zero
    case _ => Zero
  }

  /** No offset into the image is beyond what 64 bits can hold. */
  predicate KindOk(kind: VmaKind) {
    match kind
    case PagedImage(source, imageOffset, imageLen) => imageOffset + imageLen <= U64_MAX
    case ElfSegmentImage(source, segmentStart, imageOffset, imageLen, order) =>
      segmentStart + imageLen <= U64_MAX && imageOffset + imageLen <= U64_MAX
    case _ => true
  }

  predicate Missing(vma: Vma, base: nat)
    requires vma.start <= base
  {
    exists a :: base <= a < base + PAGE_SIZE && ContentAt(vma, a).Missing()
  }

  lemma FillRangeIsPointwise(page: Page, at: nat, source: seq<Byte>, offset: nat, len: nat, k: nat)
    requires at + len <= PAGE_SIZE && offset + len <= U64_MAX && k < PAGE_SIZE
    ensures FillRange(page, at, source, offset, len).Err? <==> offset + len > |source|
    ensures FillRange(page, at, source, offset, len).Err? ==>
              FillRange(page, at, source, offset, len).error == UnexpectedEof
    ensures FillRange(page, at, source, offset, len).Ok? ==>
              FillRange(page, at, source, offset, len).value[k] ==
              if at <= k < at + len then source[offset + (k - at)] else page[k]
  {
  }

  /** `r` is what loading `vma` must give at offset `k`. */
  predicate Loads(r: Result<Page, BuildError>, base: nat, vma: Vma, k: nat)
    requires vma.start <= base && k < PAGE_SIZE
  {
    && (r.Err? <==> Missing(vma, base))
    && (r.Err? ==> r.error == UnexpectedEof)
    && (r.Ok? ==> !ContentAt(vma, base + k).Missing() && r.value[k] == ContentAt(vma, base + k).Value())
  }

  lemma FillPagedIsPointwise(base: nat, vma: Vma, k: nat)
    requires vma.kind.PagedImage? && KindOk(vma.kind) && vma.start <= base && k < PAGE_SIZE
    ensures Loads(FillFrom(ZeroPage(), base, vma), base, vma, k)
  {
    hide FillRange;
    var off := base - vma.start;
    if off < vma.kind.imageLen {
      var len := Min(PAGE_SIZE, vma.kind.imageLen - off);
      FillRangeIsPointwise(ZeroPage(), 0, vma.kind.source, vma.kind.imageOffset + off, len, k);
      assert ContentAt(vma, base + (len - 1)) == FileByte(vma.kind.source, vma.kind.imageOffset + off + (len - 1));
    }
  }

  lemma FillElfIsPointwise(base: nat, vma: Vma, k: nat)
    requires vma.kind.ElfSegmentImage? && KindOk(vma.kind) && vma.start <= base && k < PAGE_SIZE
    ensures Loads(FillFrom(ZeroPage(), base, vma), base, vma, k)
  {
    hide FillRange;
    var start := vma.kind.segmentStart;
    var lo, hi := Max(base, start), Min(base + PAGE_SIZE, start + vma.kind.imageLen);
    if lo < hi {
      FillRangeIsPointwise(ZeroPage(), lo - base, vma.kind.source, vma.kind.imageOffset + (lo - start), hi - lo, k);
      assert ContentAt(vma, hi - 1) == FileByte(vma.kind.source, vma.kind.imageOffset + (hi - 1 - start));
    }
  }

  /** Loading from one area gives exactly its contents, or fails if some content is past the end
      of the image. */
  lemma FillIsPointwise(base: nat, vma: Vma, k: nat)
    requires KindOk(vma.kind) && vma.start <= base && k < PAGE_SIZE
    ensures Loads(FillFrom(ZeroPage(), base, vma), base, vma, k)
  {
    if vma.kind.PagedImage? {
      FillPagedIsPointwise(base, vma, k);
    } else if vma.kind.ElfSegmentImage? {
      FillElfIsPointwise(base, vma, k);
    }
  }

  /** Areas with the same contents on a page load the same page. */
  lemma SameContentsSameFill(base: nat, u: Vma, v: Vma)
    requires KindOk(u.kind) && KindOk(v.kind) && u.start <= base && v.start <= base
    requires forall a :: base <= a < base + PAGE_SIZE ==> ContentAt(u, a) == ContentAt(v, a)
    ensures FillFrom(ZeroPage(), base, u) == FillFrom(ZeroPage(), base, v)
  {
    FillIsPointwise(base, u, 0);
    FillIsPointwise(base, v, 0);
    if !Missing(u, base) {
      var p, q := FillFrom(ZeroPage(), base, u).value, FillFrom(ZeroPage(), base, v).value;
      forall k: nat | k < PAGE_SIZE
        ensures p[k] == q[k]
      {
        FillIsPointwise(base, u, k);
        FillIsPointwise(base, v, k);
      }
      assert p == q;
    }
  }

  // ---------------------------------------------------------------- all areas of a space

  /** The first area that does not start below `limit`. */
  function EndIndex(vmas: seq<Vma>, limit: nat, from: nat): (i: nat)
    requires from <= |vmas|
    ensures from <= i <= |vmas|
    ensures forall j :: from <= j < i ==> vmas[j].start < limit
    ensures i < |vmas| ==> vmas[i].start >= limit
    decreases |vmas| - from
  {
    if from < |vmas| && vmas[from].start < limit then EndIndex(vmas, limit, from + 1) else from
  }

  /** The areas just before `i` that end after `base`. */
  function StartIndex(vmas: seq<Vma>, i: nat, base: nat): (r: nat)
    requires i <= |vmas|
    ensures r <= i
    ensures forall j :: r <= j < i ==> vmas[j].end > base
    ensures r > 0 ==> vmas[r - 1].end <= base
  {
    if i > 0 && vmas[i - 1].end > base then StartIndex(vmas, i - 1, base) else i
  }

  /** The lazy areas of `vmas[lo..hi]` that reach beyond `base`. */
  function Contributors(vmas: seq<Vma>, lo: nat, hi: nat, base: nat): seq<Vma>
    requires lo <= hi <= |vmas|
    decreases hi
  {
    if lo == hi then []
    else if vmas[hi - 1].lazy && base < vmas[hi - 1].end then
      Contributors(vmas, lo, hi - 1, base) + [vmas[hi - 1]]
    else Contributors(vmas, lo, hi - 1, base)
  }

  /** `v` placed after every area of `s` with the same or a smaller order. */
  function InsertByOrder(s: seq<Vma>, v: Vma): seq<Vma> {
    if s != [] && s[|s| - 1].LazyOrder() > v.LazyOrder() then InsertByOrder(s[..|s| - 1], v) + [s[|s| - 1]]
    else s + [v]
  }

  /** A stable sort by order. */
  function SortByOrder(s: seq<Vma>): seq<Vma> {
    if s == [] then [] else InsertByOrder(SortByOrder(s[..|s| - 1]), s[|s| - 1])
  }

  predicate InOrder(s: seq<Vma>) {
    forall i :: 0 < i < |s| ==> s[i - 1].LazyOrder() <= s[i].LazyOrder()
  }

  lemma {:induction false} SortOfOrdered(s: seq<Vma>)
    requires InOrder(s)
    ensures SortByOrder(s) == s
  {
    if s != [] {
      var front := s[..|s| - 1];
      SortOfOrdered(front);
      assert front != [] ==> front[|front| - 1] == s[|s| - 2];
    }
  }

  function MergedFlags(s: seq<Vma>): MapFlags {
    if s == [] then {} else MergedFlags(s[..|s| - 1]) + s[|s| - 1].flags
  }

  /** The page filled from every area of `s` in turn. */
  function FillAll(s: seq<Vma>, base: nat): Result<Page, BuildError> {
    if s == [] then Ok(ZeroPage())
    else
      match FillAll(s[..|s| - 1], base)
      case Err(e) => Err(e)
      case Ok(page) => FillFrom(page, base, s[|s| - 1])
  }

  /** What the first touch of the page at `base` does: `None` if no lazy area allows it. */
  function LazyLoad(vmas: seq<Vma>, base: nat, write: bool): Result<Option<(Page, MapFlags)>, BuildError> {
    if base + PAGE_SIZE > U64_MAX then Err(AddressOverflow)
    else
      var hi := EndIndex(vmas, base + PAGE_SIZE, 0);
      var s := Contributors(vmas, StartIndex(vmas, hi, base), hi, base);
      if s == [] || (write && Write !in MergedFlags(s)) then Ok(None)
      else
        match FillAll(SortByOrder(s), base)
        case Err(e) => Err(e)
        case Ok(page) => Ok(Some((page, MergedFlags(s))))
  }

  // ---------------------------------------------------------------- the loader

  /** Once one area fails to load, so does every longer list of areas. */
  lemma {:induction false} FillAllFails(s: seq<Vma>, n: nat, base: nat)
    requires n <= |s| && FillAll(s[..n], base).Err?
    ensures FillAll(s, base) == FillAll(s[..n], base)
    decreases |s|
  {
    if n < |s| {
      assert s[..|s| - 1][..n] == s[..n];
      FillAllFails(s[..|s| - 1], n, base);
    } else {
      assert s[..n] == s;
    }
  }

  lemma {:induction false} ContributorsExtend(vmas: seq<Vma>, lo: nat, mid: nat, hi: nat, base: nat)
    requires lo <= mid <= hi <= |vmas|
    ensures Contributors(vmas, lo, mid, base) <= Contributors(vmas, lo, hi, base)
  {
    if mid < hi {
      ContributorsExtend(vmas, lo, mid, hi - 1, base);
    }
  }

  lemma {:induction false} MergedFlagsOfInsert(s: seq<Vma>, v: Vma)
    ensures MergedFlags(InsertByOrder(s, v)) == MergedFlags(s) + v.flags
  {
    if s != [] && s[|s| - 1].LazyOrder() > v.LazyOrder() {
      var front := s[..|s| - 1];
      MergedFlagsOfInsert(front, v);
      assert (InsertByOrder(front, v) + [s[|s| - 1]])[..|InsertByOrder(front, v)|] == InsertByOrder(front, v);
    } else {
      assert (s + [v])[..|s|] == s;
    }
  }

  /** Sorting the areas does not change the permissions they add up to. */
  lemma {:induction false} MergedFlagsOfSort(s: seq<Vma>)
    ensures MergedFlags(SortByOrder(s)) == MergedFlags(s)
  {
    if s != [] {
      MergedFlagsOfSort(s[..|s| - 1]);
      MergedFlagsOfInsert(SortByOrder(s[..|s| - 1]), s[|s| - 1]);
    }
  }

  method LazyVmaWindow(vmas: seq<Vma>, base: nat, limit: nat) returns (window: Option<(nat, nat)>)
    ensures window.None? <==> StartIndex(vmas, EndIndex(vmas, limit, 0), base) == EndIndex(vmas, limit, 0)
    ensures window.Some? ==> window.value.1 == EndIndex(vmas, limit, 0)
    ensures window.Some? ==> window.value.0 == StartIndex(vmas, EndIndex(vmas, limit, 0), base)
  {
    var endIndex := EndIndex(vmas, limit, 0);
    var startIndex: nat := endIndex;
    while startIndex > 0 && vmas[startIndex - 1].end > base
      invariant startIndex <= endIndex <= |vmas|
      invariant StartIndex(vmas, startIndex, base) == StartIndex(vmas, endIndex, base)
    {
      startIndex := startIndex - 1;
    }
    window := if startIndex != endIndex then Some((startIndex, endIndex)) else None;
  }

  method FillFromWindow(vmas: seq<Vma>, base: nat, lo: nat, hi: nat) returns (r: Result<(Page, MapFlags), BuildError>)
    requires lo <= hi <= |vmas|
    ensures r.Err? ==> FillAll(Contributors(vmas, lo, hi, base), base) == Err(r.error)
    ensures r.Ok? ==> FillAll(Contributors(vmas, lo, hi, base), base) == Ok(r.value.0)
    ensures r.Ok? ==> r.value.1 == MergedFlags(Contributors(vmas, lo, hi, base))
  {
    var page, flags := ZeroPage(), {};
    var index := lo;
    while index < hi
      invariant lo <= index <= hi
      invariant FillAll(Contributors(vmas, lo, index, base), base) == Ok(page)
      invariant flags == MergedFlags(Contributors(vmas, lo, index, base))
    {
      var vma := vmas[index];
      ghost var s, t := Contributors(vmas, lo, index, base), Contributors(vmas, lo, index + 1, base);
      index := index + 1;
      if !vma.lazy || base >= vma.end {
        continue;
      }
      assert t[..|t| - 1] == s;
      flags := flags + vma.flags;
      var filled := FillFrom(page, base, vma);
      if filled.Err? {
        ghost var all := Contributors(vmas, lo, hi, base);
        ContributorsExtend(vmas, lo, index, hi, base);
        assert all[..|t|] == t;
        FillAllFails(all, |t|, base);
        return Err(filled.error);
      }
      page := filled.value;
    }
    r := Ok((page, flags));
  }

  method FillFromContributors(s: seq<Vma>, base: nat) returns (r: Result<(Page, MapFlags), BuildError>)
    ensures r.Err? ==> FillAll(s, base) == Err(r.error)
    ensures r.Ok? ==> FillAll(s, base) == Ok(r.value.0) && r.value.1 == MergedFlags(s)
  {
    var page, flags := ZeroPage(), {};
    var i := 0;
    while i < |s|
      invariant i <= |s| && FillAll(s[..i], base) == Ok(page) && flags == MergedFlags(s[..i])
    {
      assert s[..i + 1][..i] == s[..i];
      flags := flags + s[i].flags;
      var filled := FillFrom(page, base, s[i]);
      if filled.Err? {
        FillAllFails(s, i + 1, base);
        return Err(filled.error);
      }
      page := filled.value;
      i := i + 1;
    }
    assert s[..i] == s;
    r := Ok((page, flags));
  }

  /** Counts the contributing areas of the window, and notes whether one of them allows writing and
      whether they are in order. */
  method Survey(vmas: seq<Vma>, base: nat, lo: nat, hi: nat)
    returns (count: nat, writeAllowed: bool, monotonic: bool)
    requires lo <= hi <= |vmas|
    ensures count == |Contributors(vmas, lo, hi, base)|
    ensures writeAllowed <==> Write in MergedFlags(Contributors(vmas, lo, hi, base))
    ensures monotonic ==> InOrder(Contributors(vmas, lo, hi, base))
  {
    hide Contributors, MergedFlags, InOrder;
    EmptyWindow(vmas, lo, base);
    count, writeAllowed, monotonic := 0, false, true;
    var lastOrder: nat := 0;
    var index := lo;
    while index < hi
      invariant lo <= index <= hi
      invariant count == |Contributors(vmas, lo, index, base)|
      invariant writeAllowed <==> Write in MergedFlags(Contributors(vmas, lo, index, base))
      invariant count > 0 ==> lastOrder == Contributors(vmas, lo, index, base)[count - 1].LazyOrder()
      invariant monotonic ==> InOrder(Contributors(vmas, lo, index, base))
    {
      var vma := vmas[index];
      OneMore(vmas, lo, index, base);
      index := index + 1;
      if !vma.lazy || base >= vma.end {
        continue;
      }
      if count != 0 {
        monotonic := monotonic && lastOrder <= vma.LazyOrder();
      }
      lastOrder := vma.LazyOrder();
      count := count + 1;
      writeAllowed := writeAllowed || Write in vma.flags;
    }
  }

  method CollectContributors(vmas: seq<Vma>, base: nat, lo: nat, hi: nat) returns (s: seq<Vma>)
    requires lo <= hi <= |vmas|
    ensures s == Contributors(vmas, lo, hi, base)
  {
    s := [];
    for index := lo to hi
      invariant s == Contributors(vmas, lo, index, base)
    {
      if vmas[index].lazy && base < vmas[index].end {
        s := s + [vmas[index]];
      }
    }
  }

  /** The loader takes its areas from a window of the list and sorts them only if they are not in
      order already; the outcome is the one of sorting them always. */
  method LoadLazyPage(vmas: seq<Vma>, base: nat, write: bool)
    returns (r: Result<Option<(Page, MapFlags)>, BuildError>)
    ensures r == LazyLoad(vmas, base, write)
  {
    hide FillAll, SortByOrder, MergedFlags, Contributors, StartIndex, EndIndex;
    if base + PAGE_SIZE > U64_MAX {
      return Err(AddressOverflow);
    }
    var window := LazyVmaWindow(vmas, base, base + PAGE_SIZE);
    if window.None? {
      EmptyWindow(vmas, EndIndex(vmas, base + PAGE_SIZE, 0), base);
      return Ok(None);
    }
    var (lo, hi) := window.value;
    var count, writeAllowed, monotonic := Survey(vmas, base, lo, hi);
    if count == 0 || (write && !writeAllowed) {
      return Ok(None);
    }
    var filled: Result<(Page, MapFlags), BuildError>;
    ghost var s := Contributors(vmas, lo, hi, base);
    if count == 1 || monotonic {
      SortOfOrdered(s);
      filled := FillFromWindow(vmas, base, lo, hi);
    } else {
      var contributors := CollectContributors(vmas, base, lo, hi);
      MergedFlagsOfSort(s);
      filled := FillFromContributors(SortByOrder(contributors), base);
    }
    if filled.Err? {
      return Err(filled.error);
    }
    r := Ok(Some(filled.value));
  }

  lemma EmptyWindow(vmas: seq<Vma>, i: nat, base: nat)
    requires i <= |vmas|
    ensures Contributors(vmas, i, i, base) == [] && MergedFlags([]) == {} && InOrder([])
  {
  }

  /** What looking at one more area adds. */
  lemma OneMore(vmas: seq<Vma>, lo: nat, index: nat, base: nat)
    requires lo <= index < |vmas|
    ensures !(vmas[index].lazy && base < vmas[index].end) ==>
              Contributors(vmas, lo, index + 1, base) == Contributors(vmas, lo, index, base)
    ensures vmas[index].lazy && base < vmas[index].end ==>
              Contributors(vmas, lo, index + 1, base) == Contributors(vmas, lo, index, base) + [vmas[index]]
    ensures MergedFlags(Contributors(vmas, lo, index, base) + [vmas[index]]) ==
            MergedFlags(Contributors(vmas, lo, index, base)) + vmas[index].flags
    ensures InOrder(Contributors(vmas, lo, index, base))
            && StaysInOrder(Contributors(vmas, lo, index, base), vmas[index]) ==>
              InOrder(Contributors(vmas, lo, index, base) + [vmas[index]])
  {
    var s := Contributors(vmas, lo, index, base);
    assert (s + [vmas[index]])[..|s|] == s;
  }

  predicate StaysInOrder(s: seq<Vma>, v: Vma) {
    s == [] || s[|s| - 1].LazyOrder() <= v.LazyOrder()
  }
}
