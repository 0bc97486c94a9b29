/** The page cache over a block device: reads through it see one flat array of bytes. */
module PageCache {
  import opened Prelude
  import opened UserMemory
  import opened BlockFile

  const MAX_PAGES: nat := 8192
  const PREFETCH_LIMIT: nat := 16

  /** A cached page: its frame, how much of it is file contents, and when it was last used. */
  datatype CachedPage = CachedPage(bytes: seq<Byte>, len: nat, lastAccess: nat)

  /** The page holds what the array holds, as far as the array reaches. */
  predicate Mirrors(page: CachedPage, data: seq<Byte>, key: nat) {
    && |page.bytes| == PAGE_SIZE && key * PAGE_SIZE < |data|
    && page.len == Min(PAGE_SIZE, |data| - key * PAGE_SIZE)
    && page.bytes[..page.len] == data[key * PAGE_SIZE..key * PAGE_SIZE + page.len]
  }

  predicate Coherent(entries: map<nat, CachedPage>, data: seq<Byte>) {
    forall key :: key in entries ==> Mirrors(entries[key], data, key)
  }

  lemma PageMirrors(entries: map<nat, CachedPage>, data: seq<Byte>, key: nat)
    requires Coherent(entries, data) && key in entries
    ensures Mirrors(entries[key], data, key)
  {
  }

  lemma FewerIsCoherent(entries: map<nat, CachedPage>, fewer: map<nat, CachedPage>, data: seq<Byte>)
    requires Coherent(entries, data) && forall key :: key in fewer ==> key in entries && fewer[key] == entries[key]
    ensures Coherent(fewer, data)
  {
    forall key | key in fewer
      ensures Mirrors(fewer[key], data, key)
    {
      assert Mirrors(entries[key], data, key);
    }
  }

  /** Where a byte of `bytes` belongs to page `key`, it is the byte already there. */
  predicate AgreesOn(data: seq<Byte>, offset: nat, bytes: seq<Byte>, key: nat) {
    forall k :: offset <= k < offset + |bytes| && k < |data| && KeyOf(k) == key ==> bytes[k - offset] == data[k]
  }

  /** Where a byte of `bytes` belongs to a cached page, it is the byte already there. */
  predicate Agrees(entries: map<nat, CachedPage>, data: seq<Byte>, offset: nat, bytes: seq<Byte>) {
    forall key :: key in entries ==> AgreesOn(data, offset, bytes, key)
  }

  /** Storing bytes leaves a cache that mirrored the array mirroring it if and only if they change nothing
      that is cached. */
  lemma CoherentAfterStore(entries: map<nat, CachedPage>, data: seq<Byte>, offset: nat, bytes: seq<Byte>)
    requires Coherent(entries, data) && offset + |bytes| <= |data|
    ensures Coherent(entries, Stored(data, offset, bytes)) <==> Agrees(entries, data, offset, bytes)
  {
    hide Mirrors, Stored, AgreesOn;
    forall key | key in entries
      ensures Mirrors(entries[key], Stored(data, offset, bytes), key) <==> AgreesOn(data, offset, bytes, key)
    {
      assert Mirrors(entries[key], data, key);
      MirrorsAfterStore(entries[key], data, key, offset, bytes);
    }
  }

  lemma MirrorsAfterStore(page: CachedPage, data: seq<Byte>, key: nat, offset: nat, bytes: seq<Byte>)
    requires Mirrors(page, data, key) && offset + |bytes| <= |data|
    ensures Mirrors(page, Stored(data, offset, bytes), key) <==> AgreesOn(data, offset, bytes, key)
  {
    var stored, start := Stored(data, offset, bytes), key * PAGE_SIZE;
    var before, after := data[start..start + page.len], stored[start..start + page.len];
    if AgreesOn(data, offset, bytes, key) {
      forall i | 0 <= i < page.len
        ensures before[i] == after[i]
      {
        KeyInPage(key, i);
        assert offset <= start + i < offset + |bytes| ==> bytes[start + i - offset] == data[start + i];
      }
    }
    if before == after {
      forall k | offset <= k < offset + |bytes| && k < |data| && KeyOf(k) == key
        ensures bytes[k - offset] == data[k]
      {
        assert k == start + OffsetIn(k);
        assert before[OffsetIn(k)] == after[OffsetIn(k)] == stored[k];
      }
    }
  }

  lemma KeyInPage(key: nat, i: nat)
    requires i < PAGE_SIZE
    ensures KeyOf(key * PAGE_SIZE + i) == key
  {
  }

  /** What the cache has of the array from `offset` on, up to the end of the page. */
  lemma ChunkIsRight(page: CachedPage, data: seq<Byte>, key: nat, at: nat, n: nat)
    requires Mirrors(page, data, key) && at + n <= page.len
    ensures page.bytes[at..at + n] == data[key * PAGE_SIZE + at..key * PAGE_SIZE + at + n]
  {
    assert page.bytes[at..at + n] == page.bytes[..page.len][at..at + n];
    Within(data, key * PAGE_SIZE, page.len, at, n);
  }

  predicate IsOldest(entries: map<nat, CachedPage>, key: nat) {
    key in entries && forall k :: k in entries ==> entries[key].lastAccess <= entries[k].lastAccess
  }

  class Cache {
    const device: BlockDevice
    var entries: map<nat, CachedPage>
    var accessEpoch: nat

    ghost predicate Valid()
      reads this, device
    {
      device.Valid() && |entries| <= MAX_PAGES && Coherent(entries, device.data)
    }

    constructor (device: BlockDevice)
      requires device.Valid()
      ensures Valid() && this.device == device && entries == map[]
    {
      this.device, this.entries, this.accessEpoch := device, map[], 1;
    }

    method NextAccess() returns (access: nat)
      modifies this`accessEpoch
      ensures access == old(accessEpoch) && accessEpoch == Min(old(accessEpoch) + 1, U64_MAX)
    {
      access := accessEpoch;
      accessEpoch := Min(accessEpoch + 1, U64_MAX);
    }

    /** Marks a page as used. */
    method Touch(key: nat, access: nat)
      requires Valid() && key in entries
      modifies this`entries
      ensures Valid() && entries == old(entries)[key := old(entries)[key].(lastAccess := access)]
    {
      var page := entries[key];
      assert Mirrors(page, device.data, key);
      ghost var before := entries;
      entries := entries[key := page.(lastAccess := access)];
      assert entries.Keys == before.Keys && |entries.Keys| == |entries| && |before.Keys| == |before|;
      forall k | k in entries
        ensures Mirrors(entries[k], device.data, k)
      {
        assert k != key ==> Mirrors(before[k], device.data, k);
      }
    }

    /** Copies from a cached page; `short` if the page is the last of the file. */
    method CopyCached(key: nat, at: nat, room: nat) returns (r: Option<seq<Byte>>, short: bool)
      requires Valid() && at < PAGE_SIZE
      modifies this
      ensures Valid() && entries.Keys == old(entries.Keys)
      ensures r.Some? <==> key in entries
      ensures r.Some? ==> key * PAGE_SIZE < |device.data| && short == (|device.data| < key * PAGE_SIZE + PAGE_SIZE)
      ensures r.Some? ==> |r.value| == Max(0, Min(room, Min(PAGE_SIZE, |device.data| - key * PAGE_SIZE) - at))
      ensures r.Some? && r.value != [] ==>
                r.value == device.data[key * PAGE_SIZE + at..key * PAGE_SIZE + at + |r.value|]
    {
      hide Coherent, KeyOf;
      short := false;
      var access := NextAccess();
      if key !in entries {
        return None, false;
      }
      Touch(key, access);
      var page := entries[key];
      PageMirrors(entries, device.data, key);
      short := page.len < PAGE_SIZE;
      if page.len <= at {
        return Some([]), short;
      }
      var chunk := Min(room, page.len - at);
      ChunkIsRight(page, device.data, key, at, chunk);
      r := Some(page.bytes[at..at + chunk]);
    }

    /** Drops the page that was used longest ago. */
    method EvictOne() returns (evicted: bool)
      requires Valid()
      modifies this`entries
      ensures Valid() && evicted == (old(entries) != map[])
      ensures evicted ==> exists key :: IsOldest(old(entries), key) && entries == old(entries) - {key}
      ensures evicted ==> |entries| == |old(entries)| - 1
      ensures !evicted ==> entries == old(entries)
    {
      if entries == map[] {
        return false;
      }
      var key := Oldest();
      ghost var before := entries;
      entries := entries - {key};
      assert entries.Keys == before.Keys - {key};
      assert |entries.Keys| == |before.Keys| - 1 && |entries.Keys| == |entries| && |before.Keys| == |before|;
      FewerIsCoherent(before, entries, device.data);
      evicted := true;
    }

    method Oldest() returns (key: nat)
      requires entries != map[]
      ensures IsOldest(entries, key)
    {
      key :| key in entries;
      var rest := entries.Keys - {key};
      while rest != {}
        invariant key in entries && rest <= entries.Keys
        invariant forall k :: k in entries && k !in rest ==> entries[key].lastAccess <= entries[k].lastAccess
        decreases rest
      {
        var k :| k in rest;
        if entries[k].lastAccess < entries[key].lastAccess {
          key := k;
        }
        rest := rest - {k};
      }
    }

    /** Puts a page into the cache unless it is there already, and makes room for it. */
    method InsertPage(key: nat, bytes: seq<Byte>, len: nat)
      requires Valid() && Mirrors(CachedPage(bytes, len, 0), device.data, key)
      modifies this
      ensures Valid() && key in entries
    {
      var access := NextAccess();
      if key in entries {
        Touch(key, access);
        return;
      }
      while |entries| >= MAX_PAGES
        invariant Valid() && key !in entries
        decreases |entries|
      {
        var evicted := EvictOne();
        if !evicted {
          break;
        }
      }
      ghost var before := entries;
      entries := entries[key := CachedPage(bytes, len, access)];
      assert entries.Keys == before.Keys + {key} && |entries.Keys| == |entries| && |before.Keys| == |before|;
      forall k | k in entries
        ensures Mirrors(entries[k], device.data, k)
      {
        assert k != key ==> Mirrors(before[k], device.data, k);
      }
    }

    /** Reads the contents of a page from the device, as far as they go. */
    method ReadPage(key: nat) returns (r: Result<seq<Byte>, FsError>)
      requires device.Valid()
      ensures r.Ok? ==> |r.value| == Max(0, Min(PAGE_SIZE, |device.data| - key * PAGE_SIZE))
      ensures r.Ok? && r.value != [] ==> r.value == device.data[key * PAGE_SIZE..key * PAGE_SIZE + |r.value|]
    {
      var start := key * PAGE_SIZE;
      var buffer: seq<Byte> := [];
      while |buffer| < PAGE_SIZE
        invariant |buffer| <= Max(0, Min(PAGE_SIZE, |device.data| - start))
        invariant buffer != [] ==> buffer == device.data[start..start + |buffer|]
      {
        var chunk := ReadFile(device, start + |buffer|, PAGE_SIZE - |buffer|);
        if chunk.Err? {
          return Err(chunk.error);
        }
        if chunk.value == [] {
          break;
        }
        buffer := Grown(device.data, start, buffer, chunk.value);
      }
      r := Ok(buffer);
    }

    /** Loads a page from the device; `false` without a frame to put it in, or past the end of the
        device. */
    method LoadPage(key: nat) returns (r: Result<bool, FsError>, ghost starved: bool)
      requires Valid()
      modifies this
      ensures Valid()
      ensures r == Ok(true) ==> key in entries
      ensures r == Ok(false) ==> entries == old(entries) && (starved || |device.data| <= key * PAGE_SIZE)
    {
      hide Coherent;
      starved := false;
      var noFrame: bool := *;
      if noFrame {
        return Ok(false), true;
      }
      var contents := ReadPage(key);
      if contents.Err? {
        return Err(contents.error), false;
      }
      var n := |contents.value|;
      if n == 0 {
        return Ok(false), false;
      }
      var page := Padded(contents.value);
      InsertPage(key, page, n);
      r := Ok(true);
    }

    /** Reads through the cache. What is read is what the array holds; without a shortage of frames
        it is all that was asked for and is there. */
    method Read(offset: nat, len: nat) returns (r: Result<seq<Byte>, FsError>, ghost starved: bool)
      requires Valid()
      modifies this
      ensures Valid()
      ensures r.Ok? ==> |r.value| <= Max(0, Min(len, |device.data| - offset))
      ensures r.Ok? && r.value != [] ==> r.value == device.data[offset..offset + |r.value|]
      ensures r.Ok? && !starved ==> |r.value| == Max(0, Min(len, |device.data| - offset))
    {
      hide Coherent;
      starved := false;
      var copied: seq<Byte> := [];
      while |copied| < len
        invariant Valid() && !starved && |copied| <= Max(0, Min(len, |device.data| - offset))
        invariant copied != [] ==> copied == device.data[offset..offset + |copied|]
        decreases len - |copied|, if KeyOf(offset + |copied|) in entries then 0 else 1
      {
        var key, at := KeyOf(offset + |copied|), OffsetIn(offset + |copied|);
        var chunk, short := CopyCached(key, at, len - |copied|);
        if chunk.Some? {
          if chunk.value == [] {
            break;
          }
          copied := Grown(device.data, offset, copied, chunk.value);
          if short {
            break;
          }
          continue;
        }
        var loaded;
        loaded, starved := LoadPage(key);
        if loaded.Err? {
          return Err(loaded.error), starved;
        }
        if !loaded.value {
          break;
        }
        starved := false;
      }
      r := Ok(copied);
    }

    /** Drops the pages that hold any of the `len` bytes at `offset`. */
    method InvalidateRange(offset: nat, len: nat)
      requires |entries| <= MAX_PAGES
      modifies this`entries
      ensures |entries| <= MAX_PAGES
      ensures entries == map key | key in old(entries) && !InPages(key, offset, len) :: old(entries)[key]
    {
      if len == 0 {
        assert entries == map key | key in entries && !InPages(key, offset, len) :: entries[key];
        return;
      }
      ghost var before := entries;
      var startPage, endPage := offset / PAGE_SIZE, (offset + len - 1) / PAGE_SIZE;
      entries := map key | key in entries && !(startPage <= key <= endPage) :: entries[key];
      Fewer(before, entries);
    }

    /** Writes to the device and drops the pages that the write has outdated. The array changes in
        exactly the bytes reported, and the cache goes on mirroring it. A write that fails has stored a
        prefix and drops nothing, so after it the cache mirrors the array if and only if that prefix
        changed nothing that is cached. */
    method Write(offset: nat, buffer: seq<Byte>) returns (r: Result<nat, FsError>, ghost stored: nat)
      requires Valid()
      modifies this, device
      ensures device.Valid() && |device.data| == old(|device.data|)
      ensures offset >= |device.data| ==> r == Ok(0) && device.data == old(device.data)
      ensures offset < |device.data| ==> WroteSome(old(device.data), device.data, offset, buffer, stored)
      ensures r.Ok? ==> Valid() && (offset < |device.data| ==> r.value == stored)
      ensures r.Err? ==> entries == old(entries) && offset < |device.data|
      ensures r.Err? ==> (Valid() <==> Agrees(entries, old(device.data), offset, buffer[..stored]))
      ensures r.Err? && Agrees(entries, old(device.data), offset, Room(buffer, offset, |device.data|)) ==> Valid()
      ensures r.Err? && NoneCached(entries, offset, |buffer|) ==> Valid()
    {
      hide Coherent, Agrees, Stored, InPages, NoneCached;
      ghost var data, before := device.data, entries;
      r, stored := WriteFile(device, offset, buffer);
      if r.Err? {
        CoherentAfterStore(entries, data, offset, buffer[..stored]);
        PrefixAgrees(entries, data, offset, buffer, stored);
        return;
      }
      InvalidateRange(offset, r.value);
      RestMirrors(before, entries, data, offset, buffer, r.value);
    }

    /** Advice that pages will be needed loads some of them. */
    method Prefetch(offset: nat, len: nat)
      requires Valid()
      modifies this
      ensures Valid()
    {
      hide Coherent;
      var first, count := offset / PAGE_SIZE, Min((len + PAGE_SIZE - 1) / PAGE_SIZE, PREFETCH_LIMIT);
      for page := 0 to count
        invariant Valid()
      {
        if first + page !in entries {
          var _, _ := LoadPage(first + page);
        }
      }
    }

    /** Memory pressure empties the cache. */
    method Reclaim() returns (freed: nat)
      requires Valid()
      modifies this
      ensures Valid() && entries == map[] && freed == |old(entries)|
    {
      freed := |entries|;
      entries, accessEpoch := map[], 1;
    }
  }

  /** Page `key` holds one of the `len` bytes at `offset`. */
  predicate InPages(key: nat, offset: nat, len: nat) {
    len > 0 && offset / PAGE_SIZE <= key <= (offset + len - 1) / PAGE_SIZE
  }

  predicate NoneCached(entries: map<nat, CachedPage>, offset: nat, len: nat) {
    forall key :: key in entries ==> !InPages(key, offset, len)
  }

  /** The bytes of `buffer` that fit into an array of `size` bytes from `offset` on. */
  function Room(buffer: seq<Byte>, offset: nat, size: nat): seq<Byte>
    requires offset <= size
  {
    buffer[..Min(|buffer|, size - offset)]
  }

  lemma PrefixAgrees(entries: map<nat, CachedPage>, data: seq<Byte>, offset: nat, buffer: seq<Byte>, n: nat)
    requires n <= |buffer| && offset + n <= |data|
    ensures Agrees(entries, data, offset, Room(buffer, offset, |data|)) ==> Agrees(entries, data, offset, buffer[..n])
    ensures NoneCached(entries, offset, |buffer|) ==> Agrees(entries, data, offset, buffer[..n])
  {
    if Agrees(entries, data, offset, Room(buffer, offset, |data|)) {
      forall key | key in entries
        ensures AgreesOn(data, offset, buffer[..n], key)
      {
        assert AgreesOn(data, offset, Room(buffer, offset, |data|), key);
      }
    }
    if NoneCached(entries, offset, |buffer|) {
      UncachedAgrees(entries, data, offset, buffer, n);
    }
  }

  lemma UncachedAgrees(entries: map<nat, CachedPage>, data: seq<Byte>, offset: nat, buffer: seq<Byte>, n: nat)
    requires n <= |buffer| && NoneCached(entries, offset, n)
    ensures Agrees(entries, data, offset, buffer[..n])
  {
    forall key | key in entries
      ensures AgreesOn(data, offset, buffer[..n], key)
    {
      assert !InPages(key, offset, n);
    }
  }

  /** No failure of a write can make the cache stale if and only if the bytes to write agree with what is
      cached: a failing flush leaves all of them stored. */
  lemma NoFailureHurts(entries: map<nat, CachedPage>, data: seq<Byte>, offset: nat, buffer: seq<Byte>)
    requires Coherent(entries, data) && offset < |data|
    ensures (forall data', n: nat :: WroteSome(data, data', offset, buffer, n) ==> Coherent(entries, data'))
       <==> Agrees(entries, data, offset, Room(buffer, offset, |data|))
  {
    hide Coherent, Agrees, Stored;
    var all := |Room(buffer, offset, |data|)|;
    assert WroteSome(data, Stored(data, offset, Room(buffer, offset, |data|)), offset, buffer, all);
    CoherentAfterStore(entries, data, offset, Room(buffer, offset, |data|));
    forall data', n: nat | WroteSome(data, data', offset, buffer, n)
      ensures Agrees(entries, data, offset, Room(buffer, offset, |data|)) ==> Coherent(entries, data')
    {
      CoherentAfterStore(entries, data, offset, buffer[..n]);
      PrefixAgrees(entries, data, offset, buffer, n);
    }
  }

  /** A write of the first byte of a cached page whose flush fails leaves a stale page behind. */
  lemma FailedWriteLeavesStalePage() returns (entries: map<nat, CachedPage>, data: seq<Byte>, data': seq<Byte>)
    ensures Coherent(entries, data) && WroteSome(data, data', 0, [1], 1)
    ensures !Agrees(entries, data, 0, [1]) && !Coherent(entries, data')
  {
    data := ZeroPage();
    data' := Stored(data, 0, [1]);
    assert [1][..1] == [1];
    entries := map[0 := CachedPage(data, PAGE_SIZE, 0)];
    assert data[..PAGE_SIZE] == data[0..PAGE_SIZE];
    assert Mirrors(entries[0], data, 0);
    assert KeyOf(0) == 0 && !AgreesOn(data, 0, [1], 0);
    CoherentAfterStore(entries, data, 0, [1]);
  }

  function KeyOf(absolute: nat): nat {
    absolute / PAGE_SIZE
  }

  function OffsetIn(absolute: nat): (at: nat)
    ensures at < PAGE_SIZE && absolute == KeyOf(absolute) * PAGE_SIZE + at
  {
    absolute % PAGE_SIZE
  }

  /** The contents of a page in a frame that was zero before. */
  function Padded(contents: seq<Byte>): (page: seq<Byte>)
    requires |contents| <= PAGE_SIZE
    ensures |page| == PAGE_SIZE && page[..|contents|] == contents
  {
    contents + seq(PAGE_SIZE - |contents|, (i: nat) => 0)
  }

  function Grown(data: seq<Byte>, offset: nat, copied: seq<Byte>, more: seq<Byte>): (r: seq<Byte>)
    requires offset + |copied| + |more| <= |data| && (copied != [] ==> copied == data[offset..offset + |copied|])
    requires more == data[offset + |copied|..offset + |copied| + |more|]
    ensures |r| == |copied| + |more| && r == data[offset..offset + |r|]
  {
    copied + more
  }

  lemma Fewer(entries: map<nat, CachedPage>, fewer: map<nat, CachedPage>)
    requires fewer.Keys <= entries.Keys
    ensures |fewer| <= |entries|
  {
    assert entries.Keys == fewer.Keys + (entries.Keys - fewer.Keys);
    assert |fewer.Keys| == |fewer| && |entries.Keys| == |entries|;
  }

  /** After a write, the pages that are left do not overlap it. */
  lemma RestMirrors(before: map<nat, CachedPage>, entries: map<nat, CachedPage>, data: seq<Byte>, offset: nat,
                    buffer: seq<Byte>, n: nat)
    requires Coherent(before, data) && n <= |buffer|
    requires entries == map key | key in before && !InPages(key, offset, n) :: before[key]
    ensures Coherent(entries, data)
    ensures offset + n <= |data| ==> Coherent(entries, Stored(data, offset, buffer[..n]))
  {
    hide Mirrors, InPages, Agrees, Stored;
    FewerIsCoherent(before, entries, data);
    if offset + n <= |data| {
      UncachedAgrees(entries, data, offset, buffer, n);
      CoherentAfterStore(entries, data, offset, buffer[..n]);
    }
  }
}
