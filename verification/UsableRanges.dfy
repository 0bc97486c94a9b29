/** The sorted list of usable frame ranges built from the boot memory map. */
module UsableRanges {
  import opened Prelude
  import opened BuddyBlocks
  import opened BuddyOrders

  datatype RangeError = InvalidMemoryMap | MetadataExhausted

  function CheckedAdd(a: nat, b: nat): Option<nat> {
    if Usize(a + b) then Some(a + b) else None
  }

  predicate Covers(s: seq<Range>, frame: nat) {
    exists i :: 0 <= i < |s| && s[i].start <= frame < s[i].End()
  }

  /** Some listed range shares a frame with `[start, start + len)`. */
  predicate Overlaps(s: seq<Range>, start: nat, len: nat) {
    exists i :: 0 <= i < |s| && s[i].start < start + len && start < s[i].End()
  }

  predicate Overflows(s: seq<Range>, start: nat, len: nat) {
    !Usize(start + len) || exists i :: 0 <= i < |s| && !Usize(s[i].End())
  }

  /** Some listed range ends where `[start, start + len)` starts, or starts where it ends. */
  predicate Touches(s: seq<Range>, start: nat, len: nat) {
    exists i :: 0 <= i < |s| && (s[i].End() == start || s[i].start == start + len)
  }

  /** Ranges `lo..hi` of `s` give way to the one range `r`. */
  function Spliced(s: seq<Range>, lo: nat, hi: nat, r: Range): seq<Range>
    requires lo <= hi <= |s|
  {
    s[..lo] + [r] + s[hi..]
  }

  lemma SplicedIsSeparated(s: seq<Range>, lo: nat, hi: nat, r: Range)
    requires Separated(s) && lo <= hi <= |s| && r.len > 0
    requires lo > 0 ==> s[lo - 1].End() < r.start
    requires hi < |s| ==> r.End() < s[hi].start
    ensures Separated(Spliced(s, lo, hi, r))
  {
    hide Pow2;
    var t := Spliced(s, lo, hi, r);
    assert forall i :: 0 <= i < |t| ==> t[i] == if i < lo then s[i] else if i == lo then r else s[i - lo - 1 + hi];
    forall i, j | 0 <= i < j < |t|
      ensures GapBetween(t, i, j)
    {
      if i != lo && j != lo {
        assert GapBetween(s, if i < lo then i else i - lo - 1 + hi, if j < lo then j else j - lo - 1 + hi);
      } else if j == lo {
        assert i < lo - 1 ==> GapBetween(s, i, lo - 1);
      } else {
        assert j - lo - 1 + hi > hi ==> GapBetween(s, hi, j - lo - 1 + hi);
      }
    }
  }

  lemma SplicedCovers(s: seq<Range>, lo: nat, hi: nat, r: Range, frame: nat)
    requires lo <= hi <= |s|
    ensures Covers(Spliced(s, lo, hi, r), frame)
       <==> Covers(s[..lo], frame) || r.start <= frame < r.End() || Covers(s[hi..], frame)
  {
    ConcatCovers(s[..lo] + [r], s[hi..], frame);
    ConcatCovers(s[..lo], [r], frame);
    if r.start <= frame < r.End() {
      assert [r][0].start <= frame < [r][0].End();
    }
  }

  lemma ConcatCovers(x: seq<Range>, y: seq<Range>, frame: nat)
    ensures Covers(x + y, frame) <==> Covers(x, frame) || Covers(y, frame)
  {
    if i :| 0 <= i < |x| && x[i].start <= frame < x[i].End() {
      assert (x + y)[i] == x[i];
    }
    if i :| 0 <= i < |y| && y[i].start <= frame < y[i].End() {
      assert (x + y)[|x| + i] == y[i];
    }
    if i :| 0 <= i < |x + y| && (x + y)[i].start <= frame < (x + y)[i].End() {
      if i < |x| {
        assert x[i] == (x + y)[i];
      } else {
        assert y[i - |x|] == (x + y)[i];
      }
    }
  }

  class RangeList {
    const entries: array<Range>
    var len: nat

    ghost function View(): seq<Range>
      requires len <= entries.Length
      reads this, entries
    {
      entries[..len]
    }

    ghost predicate Valid()
      reads this, entries
    {
      len <= entries.Length && Separated(View())
    }

    constructor (cap: nat)
      ensures Valid() && View() == [] && entries.Length == cap && fresh(entries)
    {
      entries := new Range[cap](i => Range(0, 0));
      len := 0;
    }

    method InsertAt(index: nat, entry: Range) returns (r: Result<(), RangeError>)
      requires index <= len <= entries.Length
      modifies this, entries
      ensures len <= entries.Length
      ensures r.Err? <==> old(len) == entries.Length
      ensures r.Err? ==> r.error == MetadataExhausted && View() == old(View())
      ensures r.Ok? ==> View() == old(View())[..index] + [entry] + old(View())[index..]
    {
      if len == entries.Length {
        return Err(MetadataExhausted);
      }
      var cursor := len;
      while cursor > index
        invariant index <= cursor <= len && len == old(len)
        invariant forall k :: 0 <= k <= cursor && k < len ==> entries[k] == old(entries[k])
        invariant forall k :: cursor < k <= len ==> entries[k] == old(entries[k - 1])
      {
        entries[cursor] := entries[cursor - 1];
        cursor := cursor - 1;
      }
      entries[index] := entry;
      len := len + 1;
      r := Ok(());
    }

    method RemoveAt(index: nat)
      requires index < len <= entries.Length
      modifies this, entries
      ensures len <= entries.Length
      ensures View() == old(View())[..index] + old(View())[index + 1..]
    {
      var cursor := index + 1;
      while cursor < len
        invariant index < cursor <= len && len == old(len)
        invariant forall k :: 0 <= k < cursor - 1 ==> entries[k] == old(entries[if k < index then k else k + 1])
        invariant forall k :: cursor <= k < len ==> entries[k] == old(entries[k])
      {
        entries[cursor - 1] := entries[cursor];
        cursor := cursor + 1;
      }
      len := len - 1;
    }

    /** The first entry that does not start below `start`. */
    method Position(start: nat) returns (index: nat)
      requires Valid()
      ensures index <= len
      ensures forall i :: 0 <= i < index ==> View()[i].start < start
      ensures forall i :: index <= i < len ==> start <= View()[i].start
    {
      index := 0;
      while index < len && entries[index].start < start
        invariant index <= len
        invariant forall i :: 0 <= i < index ==> View()[i].start < start
      {
        index := index + 1;
      }
      forall i | index <= i < len
        ensures start <= View()[i].start
      {
        assert i > index ==> GapBetween(View(), index, i);
      }
    }

    /** Joins the new range to the one that ends where it starts. */
    method JoinLeft(index: nat, start0: nat, len0: nat)
      returns (r: Result<Range, RangeError>)
      requires Valid() && index <= len
      requires forall i :: 0 <= i < index ==> View()[i].start < start0
      requires len0 > 0
      modifies this, entries
      ensures len <= entries.Length
      ensures r.Err? ==> r.error == InvalidMemoryMap
      ensures r.Err? ==> Overlaps(old(View()), start0, len0) || Overflows(old(View()), start0, len0)
      ensures r.Ok? ==> r.value.End() == start0 + len0
      ensures r.Ok? && index > 0 ==> old(View())[index - 1].End() <= start0
      ensures r.Ok? ==> View() == old(View())[..Left(old(View()), index, start0)] + old(View())[index..]
      ensures r.Ok? && Left(old(View()), index, start0) < index ==> r.value.start == old(View())[index - 1].start
      ensures r.Ok? && Left(old(View()), index, start0) == index ==> r.value.start == start0
    {
      ghost var s := View();
      if index == 0 {
        return Ok(Range(start0, len0));
      }
      var prev := entries[index - 1];
      assert prev == s[index - 1];
      var prevEnd := CheckedAdd(prev.start, prev.len);
      if prevEnd.None? {
        assert !Usize(s[index - 1].End());
        return Err(InvalidMemoryMap);
      }
      if start0 < prevEnd.value {
        assert s[index - 1].start < start0 < s[index - 1].End();
        return Err(InvalidMemoryMap);
      }
      if start0 == prevEnd.value {
        var joined := CheckedAdd(prev.len, len0);
        if joined.None? {
          return Err(InvalidMemoryMap);
        }
        RemoveAt(index - 1);
        return Ok(Range(prev.start, joined.value));
      }
      r := Ok(Range(start0, len0));
    }

    /** Joins the ranges that start where the new one, so far `from`, ends. */
    method JoinRight(index: nat, from: Range, ghost s: seq<Range>, ghost edge: nat)
      returns (r: Result<Range, RangeError>, ghost hi: nat)
      requires len <= entries.Length && index <= edge <= |s| && Separated(s)
      requires View() == s[..index] + s[edge..]
      modifies this, entries
      ensures len <= entries.Length
      ensures r.Err? ==> r.error == InvalidMemoryMap
      ensures r.Err? ==> !Usize(from.End()) || (exists i :: 0 <= i < |s| && !Usize(s[i].End()))
                         || (edge < |s| && s[edge].start < from.End())
      ensures edge <= hi <= edge + 1 && hi <= |s|
      ensures r.Ok? ==> View() == s[..index] + s[hi..] && r.value.start == from.start
      ensures r.Ok? && hi == edge ==> r.value.End() == from.End()
      ensures r.Ok? && hi > edge ==> s[edge].start == from.End() && r.value.End() == s[edge].End()
      ensures r.Ok? && hi < |s| ==> r.value.End() < s[hi].start
    {
      var length := from.len;
      hi := edge;
      while index < len
        invariant index <= edge <= hi <= |s| && len <= entries.Length && hi <= edge + 1
        invariant View() == s[..index] + s[hi..]
        invariant hi == edge ==> length == from.len
        invariant hi > edge ==> s[edge].start == from.End() && from.start + length == s[edge].End()
        decreases |s| - hi
      {
        var next := entries[index];
        assert next == View()[index] == s[hi];
        assert hi > edge ==> GapBetween(s, edge, hi);
        var end := CheckedAdd(from.start, length);
        if end.None? {
          assert hi > edge ==> !Usize(s[edge].End());
          return Err(InvalidMemoryMap), hi;
        }
        if next.start < end.value {
          return Err(InvalidMemoryMap), hi;
        }
        if next.start != end.value {
          return Ok(Range(from.start, length)), hi;
        }
        var joined := CheckedAdd(length, next.len);
        if joined.None? {
          assert !Usize(s[hi].End());
          return Err(InvalidMemoryMap), hi;
        }
        length := joined.value;
        RemoveAt(index);
        hi := hi + 1;
      }
      assert |View()| == index + (|s| - hi);
      r := Ok(Range(from.start, length));
    }

    /** Adds `[start, start + len)` to the list. Where all ends are representable, it is refused exactly if
        it overlaps, and the list is too small exactly if it is full and the new range touches none. After
        an overlap a neighbour may be missing from the list; the caller gives up on the memory map then. */
    method InsertMergedSorted(start: nat, length: nat) returns (r: Result<(), RangeError>)
      requires Valid()
      modifies this, entries
      ensures len <= entries.Length && (length == 0 ==> r.Ok?)
      ensures r.Ok? ==> Valid()
      ensures r.Ok? ==> forall frame: nat :: Covers(View(), frame) <==>
                          Covers(old(View()), frame) || start <= frame < start + length
      ensures length > 0 && Overlaps(old(View()), start, length) ==> r == Err(InvalidMemoryMap)
      ensures r == Err(InvalidMemoryMap) ==>
                length > 0 && (Overlaps(old(View()), start, length) || Overflows(old(View()), start, length))
      ensures r == Err(MetadataExhausted) ==> View() == old(View())
      ensures r == Err(MetadataExhausted) <==> length > 0 && r != Err(InvalidMemoryMap)
                                               && old(len) == entries.Length && !Touches(old(View()), start, length)
    {
      hide Covers;
      if length == 0 {
        return Ok(());
      }
      ghost var s := View();
      var index: nat := Position(start);
      assert index < |s| ==> start <= View()[index].start && s[index].len > 0;
      var left := JoinLeft(index, start, length);
      if left.Err? {
        return Err(left.error);
      }
      ghost var lo := Left(s, index, start);
      var at: nat := if left.value.start != start then index - 1 else index;
      assert at == lo;
      var right, hi := JoinRight(at, left.value, s, index);
      if right.Err? {
        return Err(right.error);
      }
      MergeIsSound(s, lo, index, hi, start, length, right.value);
      TouchesMerged(s, lo, index, hi, start, length);
      r := InsertAt(at, right.value);
      if r.Ok? {
        assert View() == Spliced(s, lo, hi, right.value);
      } else {
        assert s[..index] + s[index..] == s;
      }
    }
  }

  /** Where the ranges left untouched on the left end, when the new range goes before `index`. */
  ghost function Left(s: seq<Range>, index: nat, start: nat): nat
    requires index <= |s|
  {
    if index > 0 && s[index - 1].End() == start then index - 1 else index
  }

  /** What the merge has kept track of is enough to see that it is right: `lo..edge` is the range
      joined on the left, `edge..hi` the one joined on the right. */
  lemma MergeIsSound(s: seq<Range>, lo: nat, edge: nat, hi: nat, start: nat, len: nat, r: Range)
    requires Separated(s) && lo <= edge <= hi <= |s| && edge <= lo + 1 && hi <= edge + 1 && len > 0
    requires edge > lo ==> s[lo].End() == start && r.start == s[lo].start
    requires edge == lo ==> r.start == start
    requires hi > edge ==> s[edge].start == start + len && r.End() == s[edge].End()
    requires hi == edge ==> r.End() == start + len
    requires edge > 0 ==> s[edge - 1].End() <= start
    requires edge == lo > 0 ==> s[lo - 1].End() < start
    requires hi < |s| ==> r.End() < s[hi].start
    ensures Separated(Spliced(s, lo, hi, r))
    ensures forall frame: nat :: Covers(Spliced(s, lo, hi, r), frame) <==>
              Covers(s, frame) || start <= frame < start + len
    ensures !Overlaps(s, start, len)
  {
    assert edge > lo > 0 ==> GapBetween(s, lo - 1, lo);
    forall i | 0 <= i < |s|
      ensures s[i].End() <= start || start + len <= s[i].start
    {
      assert i < edge - 1 ==> GapBetween(s, i, edge - 1);
      assert i > hi ==> GapBetween(s, hi, i);
    }
    SplicedIsSeparated(s, lo, hi, r);
    forall frame: nat
      ensures Covers(Spliced(s, lo, hi, r), frame) <==> Covers(s, frame) || start <= frame < start + len
    {
      SplicedCovers(s, lo, hi, r, frame);
      CoversParts(s, lo, hi, frame);
    }
  }

  /** A range is touched exactly if it is merged. */
  lemma TouchesMerged(s: seq<Range>, lo: nat, edge: nat, hi: nat, start: nat, len: nat)
    requires Separated(s) && lo <= edge <= hi <= |s| && edge <= lo + 1 && hi <= edge + 1 && len > 0
    requires !Overlaps(s, start, len) && lo == Left(s, edge, start)
    requires forall i :: 0 <= i < edge ==> s[i].start < start
    requires forall i :: edge <= i < |s| ==> start <= s[i].start
    requires hi > edge <==> edge < |s| && s[edge].start == start + len
    ensures Touches(s, start, len) <==> lo < hi
  {
    forall i | 0 <= i < |s| && (s[i].End() == start || s[i].start == start + len)
      ensures i == edge - 1 || i == edge
    {
      assert i < edge - 1 ==> GapBetween(s, i, edge - 1);
      assert i > edge ==> GapBetween(s, edge, i);
      assert edge < |s| ==> s[edge].End() <= start || start + len <= s[edge].start;
    }
  }

  lemma CoversParts(s: seq<Range>, lo: nat, hi: nat, frame: nat)
    requires lo <= hi <= |s|
    ensures Covers(s, frame) <==> Covers(s[..lo], frame) || Covers(s[lo..hi], frame) || Covers(s[hi..], frame)
  {
    if Covers(s, frame) {
      var i :| 0 <= i < |s| && s[i].start <= frame < s[i].End();
      assert i < lo ==> s[..lo][i] == s[i];
      assert lo <= i < hi ==> s[lo..hi][i - lo] == s[i];
      assert hi <= i ==> s[hi..][i - hi] == s[i];
    }
    PartCovers(s, 0, lo, frame);
    PartCovers(s, lo, hi, frame);
    PartCovers(s, hi, |s|, frame);
    assert s[0..lo] == s[..lo] && s[hi..|s|] == s[hi..];
  }

  lemma PartCovers(s: seq<Range>, lo: nat, hi: nat, frame: nat)
    requires lo <= hi <= |s|
    ensures Covers(s[lo..hi], frame) ==> Covers(s, frame)
  {
    if Covers(s[lo..hi], frame) {
      var i :| 0 <= i < hi - lo && s[lo..hi][i].start <= frame < s[lo..hi][i].End();
      assert s[lo + i] == s[lo..hi][i];
    }
  }
}
