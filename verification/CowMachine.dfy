/** Copy-on-write address spaces over a reference-counting frame allocator. */
module CowMachine {
  import opened Prelude
  import opened UserMemory
  import opened LazyPages
  import opened CowState
  import opened CowWorld
  import opened CowView

  /** Every writable area is an area of the user. */
  predicate AreasOk(spaces: Spaces) {
    forall id :: id in spaces ==> UserAreas(spaces[id].vmas)
  }

  predicate UserAreas(vmas: seq<Vma>) {
    forall i :: 0 <= i < |vmas| && Write in vmas[i].flags ==> User in vmas[i].flags
  }

  lemma {:induction false} MergedFlagsAreUser(vmas: seq<Vma>, lo: nat, hi: nat, base: nat)
    requires UserAreas(vmas) && lo <= hi <= |vmas|
    ensures Write in MergedFlags(Contributors(vmas, lo, hi, base)) ==>
              User in MergedFlags(Contributors(vmas, lo, hi, base))
  {
    if lo < hi {
      MergedFlagsAreUser(vmas, lo, hi - 1, base);
      var s := Contributors(vmas, lo, hi - 1, base);
      assert (s + [vmas[hi - 1]])[..|s|] == s;
    }
  }

  lemma LoadedFlagsAreUser(vmas: seq<Vma>, base: nat, write: bool)
    requires UserAreas(vmas) && LazyLoad(vmas, base, write).Ok? && LazyLoad(vmas, base, write).value.Some?
    ensures Write in LazyLoad(vmas, base, write).value.value.1 ==> User in LazyLoad(vmas, base, write).value.value.1
    ensures write ==> Write in LazyLoad(vmas, base, write).value.value.1
  {
    hide FillAll, SortByOrder;
    var hi := EndIndex(vmas, base + PAGE_SIZE, 0);
    MergedFlagsAreUser(vmas, StartIndex(vmas, hi, base), hi, base);
  }

  /** No page of any space is device memory, that is, neither owned nor shared. */
  predicate NoDevices(spaces: Spaces) {
    forall id, v :: id in spaces && v in spaces[id].mappings ==> spaces[id].mappings[v].Counted()
  }

  /** The pages of a space that are device memory. */
  function Devices(space: Space): set<nat> {
    set v | v in space.mappings && !space.mappings[v].Counted()
  }

  /** The pages of a space that a copying fork needs a frame for. */
  function ToCopy(space: Space): set<nat> {
    set v | v in space.mappings && !space.mappings[v].shared
  }

  /** Of `had` free frames, those for the pages in `done` are spent and `left` are left. */
  predicate Spent(space: Space, done: set<nat>, left: nat, had: nat) {
    left + |ToCopy(space) * done| == had
  }

  function NeedsFrame(m: UserMapping): nat {
    if m.shared then 0 else 1
  }

  lemma SpendOne(space: Space, done: set<nat>, v: nat, left: nat, had: nat)
    requires Spent(space, done, left, had) && v in space.mappings && v !in done
    ensures NeedsFrame(space.mappings[v]) <= left ==>
              Spent(space, done + {v}, left - NeedsFrame(space.mappings[v]), had)
    ensures left < NeedsFrame(space.mappings[v]) ==> had < |ToCopy(space)|
  {
    if space.mappings[v].shared {
      assert ToCopy(space) * (done + {v}) == ToCopy(space) * done;
    } else {
      assert ToCopy(space) * (done + {v}) == ToCopy(space) * done + {v};
      assert |ToCopy(space) - (done + {v})| == |ToCopy(space)| - |ToCopy(space) * (done + {v})|;
    }
  }

  lemma SpendNone(space: Space, had: nat)
    ensures Spent(space, {}, had, had)
  {
    assert ToCopy(space) * {} == {};
  }

  lemma SpendAll(space: Space, left: nat, had: nat)
    requires Spent(space, space.mappings.Keys, left, had)
    ensures had == left + |ToCopy(space)|
  {
    assert ToCopy(space) * space.mappings.Keys == ToCopy(space);
  }

  class Machine {
    var frames: Frames
    var spaces: Spaces
    ghost const outside: map<nat, nat>

    ghost predicate Valid()
      reads this
    {
      Accounted(frames, spaces, outside) && Isolated(spaces) && AreasOk(spaces)
    }

    ghost function Seen(): World
      reads this
    {
      WorldOf(frames, spaces, outside)
    }

    /** No space yet; `counts` are the references of the holders outside. */
    constructor (memory: map<nat, Page>, free: set<nat>, counts: map<nat, nat>, ghost outside: map<nat, nat>)
      requires free !! outside.Keys && free <= memory.Keys && outside.Keys <= memory.Keys
      requires forall f :: f in counts ==> f in outside && counts[f] == outside[f] >= 1
      ensures Valid() && spaces == map[] && this.outside == outside && frames == Frames(memory, counts, free)
    {
      this.frames, this.spaces, this.outside := Frames(memory, counts, free), map[], outside;
      new;
      forall f | f in frames.counts
        ensures CountOk(frames, spaces, outside, f)
      {
        assert Refs(spaces, f) == {};
      }
    }

    method NewSpace(id: nat, vmas: seq<Vma>)
      requires Valid() && id !in spaces && UserAreas(vmas)
      modifies this`spaces
      ensures Valid() && spaces == old(spaces)[id := Space(map[], vmas)]
    {
      EmptySpaceKeepsAccounts(frames, spaces, outside, id, vmas);
      spaces := spaces[id := Space(map[], vmas)];
    }

    // -------------------------------------------------------------- frames

    method Alloc() returns (r: Result<nat, BuildError>)
      modifies this`frames
      ensures r.Err? <==> old(frames.free) == {}
      ensures r.Err? ==> r.error == OutOfMemory && frames == old(frames)
      ensures r.Ok? ==> r.value in old(frames.free)
      ensures r.Ok? ==> frames == old(frames).(counts := old(frames.counts)[r.value := 1],
                                               free := old(frames.free) - {r.value})
    {
      if frames.free == {} {
        return Err(OutOfMemory);
      }
      var f :| f in frames.free;
      frames := frames.(counts := frames.counts[f := 1], free := frames.free - {f});
      r := Ok(f);
    }

    method Retain(f: nat)
      requires f in frames.counts
      modifies this`frames
      ensures frames == Retained(old(frames), f)
    {
      frames := frames.(counts := frames.counts[f := frames.counts[f] + 1]);
    }

    method Release(f: nat)
      requires f in frames.counts && frames.counts[f] > 0
      modifies this`frames
      ensures frames == Released(old(frames), f)
    {
      if frames.counts[f] == 1 {
        frames := frames.(counts := frames.counts - {f}, free := frames.free + {f});
      } else {
        frames := frames.(counts := frames.counts[f := frames.counts[f] - 1]);
      }
    }

    // -------------------------------------------------------------- mapping single pages

    /** Maps a frame that was just taken from the allocator; a failure gives it back. */
    method MapOwnedFrame(id: nat, v: nat, f: nat, flags: MapFlags, ghost before: Frames, ghost page: Page)
      returns (r: Result<(), BuildError>)
      requires Accounted(before, spaces, outside) && Isolated(spaces) && AreasOk(spaces)
      requires f in before.free && frames == Installed(before, f, page) && id in spaces
      requires Write in flags ==> User in flags
      modifies this
      ensures Valid() && spaces.Keys == old(spaces.Keys)
      ensures r == if Maps(old(spaces), id, v) then Err(AlreadyMapped) else Ok(())
      ensures r.Err? ==> spaces == old(spaces) && Seen() == WorldOf(before, spaces, outside)
      ensures r.Ok? ==> spaces == Put(old(spaces), id, v, UserMapping(f, flags, false, true, false))
      ensures r.Ok? ==> frames == old(frames)
      ensures r.Ok? ==> Seen() == WithPage(WorldOf(before, old(spaces), outside), id, v, Private(page, flags))
    {
      hide Accounted, Isolated, WorldOf, Released;
      if v in spaces[id].mappings {
        UninstallKeepsAccounts(before, spaces, outside, f, page);
        FreeStoreView(before, spaces, outside, f, page);
        Release(f);
        return Err(AlreadyMapped);
      }
      var m := UserMapping(f, flags, false, true, false);
      InstallKeepsAccounts(before, spaces, outside, id, v, m, page);
      InstallKeepsIsolation(before, spaces, outside, id, v, m);
      FreeStoreView(before, spaces, outside, f, page);
      SameMemorySameWorld(frames, before.(memory := before.memory[f := page]), spaces, outside);
      PutView(frames, spaces, outside, id, v, m);
      spaces := Put(spaces, id, v, m);
      r := Ok(());
    }

    /** A new private page that holds `bytes` from offset `at` and zeros elsewhere. */
    method MapPage(id: nat, v: nat, flags: MapFlags, at: nat, bytes: seq<Byte>) returns (r: Result<(), BuildError>)
      requires Valid() && id in spaces && at + |bytes| <= PAGE_SIZE
      requires Write in flags ==> User in flags
      modifies this
      ensures Valid() && spaces.Keys == old(spaces.Keys)
      ensures r == if old(frames.free) == {} then Err(OutOfMemory)
                   else if Maps(old(spaces), id, v) then Err(AlreadyMapped) else Ok(())
      ensures r.Err? ==> Seen() == old(Seen())
      ensures r.Ok? ==> Seen() == WithPage(old(Seen()), id, v, Private(Overwrite(ZeroPage(), at, bytes), flags))
      ensures old(NoDevices(spaces)) ==> NoDevices(spaces)
    {
      hide Accounted, Isolated, WorldOf, Overwrite;
      ghost var before := frames;
      var taken := Alloc();
      if taken.Err? {
        return Err(taken.error);
      }
      var page := Overwrite(ZeroPage(), at, bytes);
      frames := frames.(memory := frames.memory[taken.value := page]);
      r := MapOwnedFrame(id, v, taken.value, flags, before, page);
    }

    method MapPhysicalPage(id: nat, v: nat, f: nat, flags: MapFlags) returns (r: Result<(), BuildError>)
      requires Valid() && id in spaces && f in outside && (Write in flags ==> User in flags)
      modifies this`spaces
      ensures Valid() && spaces.Keys == old(spaces.Keys)
      ensures r == if Maps(old(spaces), id, v) then Err(AlreadyMapped) else Ok(())
      ensures spaces == if r.Ok? then Put(old(spaces), id, v, UserMapping(f, flags, false, false, false))
                        else old(spaces)
      ensures Seen() == if r.Ok? then WithPage(old(Seen()), id, v, Alias(f, flags)) else old(Seen())
    {
      if v in spaces[id].mappings {
        return Err(AlreadyMapped);
      }
      hide Accounted, Isolated, WorldOf;
      var m := UserMapping(f, flags, false, false, false);
      UncountedKeepsAccounts(frames, spaces, outside, id, v, m);
      ForeignKeepsIsolation(spaces, id, v, m);
      PutView(frames, spaces, outside, id, v, m);
      spaces := Put(spaces, id, v, m);
      r := Ok(());
    }

    /** Maps shared memory. The reference is taken first, so it is leaked if the page is mapped already. */
    method MapSharedPage(id: nat, v: nat, f: nat, flags: MapFlags) returns (r: Result<(), BuildError>)
      requires Valid() && id in spaces
      requires f in outside && f in frames.counts && (Write in flags ==> User in flags)
      modifies this
      ensures spaces.Keys == old(spaces.Keys)
      ensures r == if Maps(old(spaces), id, v) then Err(AlreadyMapped) else Ok(())
      ensures r.Err? ==> spaces == old(spaces) && frames == Retained(old(frames), f)
      ensures r.Err? ==> Leaked(frames, spaces, outside, f) && !Valid() && Seen() == old(Seen())
      ensures r.Ok? ==> Valid() && spaces == Put(old(spaces), id, v, UserMapping(f, flags, false, false, true))
      ensures frames.free == old(frames.free)
      ensures old(NoDevices(spaces)) ==> NoDevices(spaces)
      ensures r.Ok? ==> Seen() == WithPage(old(Seen()), id, v, Alias(f, flags))
    {
      hide Accounted, Isolated, WorldOf;
      var m := UserMapping(f, flags, false, false, true);
      SameMemorySameWorld(frames, Retained(frames, f), spaces, outside);
      if Maps(spaces, id, v) {
        RetainLeaks(frames, spaces, outside, f);
        Retain(f);
        return Err(AlreadyMapped);
      }
      ShareKeepsAccounts(frames, spaces, outside, id, v, m);
      ForeignKeepsIsolation(spaces, id, v, m);
      Retain(f);
      PutView(frames, spaces, outside, id, v, m);
      spaces := Put(spaces, id, v, m);
      r := Ok(());
    }

    /** Takes the mapping of one page away, with its reference. */
    method RemoveMapping(id: nat, v: nat)
      requires Valid() && Maps(spaces, id, v)
      modifies this
      ensures Valid() && spaces == Del(old(spaces), id, v)
      ensures id in old(Seen()).spaces && Seen() == Unmapped(old(Seen()), id, v)
      ensures old(NoDevices(spaces)) ==> NoDevices(spaces)
    {
      var m := At(spaces, id, v);
      ViewAt(frames, spaces, outside, id, v);
      CountsOf(frames, spaces, outside, id, v);
      hide Accounted, Isolated, WorldOf, Released;
      DropKeepsIsolation(spaces, id, v);
      DelView(frames, spaces, outside, id, v);
      if m.owned || m.shared {
        DropKeepsAccounts(frames, spaces, outside, id, v);
        ReleasedMemory(frames, m.frame);
        SameMemorySameWorld(frames, Released(frames, m.frame), Del(spaces, id, v), outside);
        Release(m.frame);
      } else {
        DropUncountedKeepsAccounts(frames, spaces, outside, id, v);
      }
      spaces := Del(spaces, id, v);
    }

    method UnmapPage(id: nat, address: nat) returns (r: Result<(), BuildError>)
      requires Valid() && id in spaces
      modifies this
      ensures Valid() && spaces.Keys == old(spaces.Keys)
      ensures r == if Maps(old(spaces), id, AlignDown(address)) then Ok(()) else Err(NotMapped)
      ensures r.Err? ==> frames == old(frames) && spaces == old(spaces)
      ensures r.Ok? ==> spaces == Del(old(spaces), id, AlignDown(address))
      ensures id in old(Seen()).spaces && (r.Ok? ==> Seen() == Unmapped(old(Seen()), id, AlignDown(address)))
      ensures old(NoDevices(spaces)) ==> NoDevices(spaces)
    {
      hide Accounted, Isolated, WorldOf, Unmapped;
      var v := AlignDown(address);
      ViewAt(frames, spaces, outside, id, v);
      if v !in spaces[id].mappings {
        return Err(NotMapped);
      }
      RemoveMapping(id, v);
      r := Ok(());
    }

    /** The end of a space gives back every reference it holds. */
    method DropSpace(id: nat)
      requires Valid() && id in spaces
      modifies this
      ensures Valid() && spaces == old(spaces) - {id}
      ensures Seen() == Ended(old(Seen()), id)
      ensures old(NoDevices(spaces)) ==> NoDevices(spaces)
    {
      hide Accounted, Isolated, WorldOf, Ended, Unmapped;
      ghost var w := Seen();
      while spaces[id].mappings.Keys != {}
        invariant Valid() && id in spaces && spaces - {id} == old(spaces) - {id}
        invariant Ended(Seen(), id) == Ended(w, id)
        invariant old(NoDevices(spaces)) ==> NoDevices(spaces)
        decreases spaces[id].mappings.Keys
      {
        var v :| v in spaces[id].mappings.Keys;
        ghost var before := Seen();
        RemoveMapping(id, v);
        EndAfterUnmap(before, id, v);
      }
      assert spaces[id].mappings == map[];
      EmptySpaceKeepsAccounts(frames, spaces, outside, id, []);
      RemovedSpaceView(frames, spaces, outside, id);
      spaces := spaces - {id};
    }

    // -------------------------------------------------------------- faults

    /** Makes a copy-on-write page writable: in place if its frame has no other user, with a copy of
        the frame otherwise. Nobody can see the difference. */
    method ResolveCowFault(id: nat, v: nat) returns (r: Result<(), BuildError>)
      requires Valid() && Maps(spaces, id, v) && At(spaces, id, v).cow
      modifies this
      ensures Valid() && spaces.Keys == old(spaces.Keys)
      ensures Seen() == old(Seen())
      ensures r.Err? <==> old(frames.free) == {} && Refs(old(spaces), At(old(spaces), id, v).frame) != {(id, v)}
      ensures r.Err? ==> r.error == OutOfMemory && frames == old(frames) && spaces == old(spaces)
      ensures r.Ok? ==> Maps(spaces, id, v) && At(spaces, id, v).StoresInPlace()
      ensures r.Ok? ==> (At(spaces, id, v).frame == At(old(spaces), id, v).frame <==>
                         Refs(old(spaces), At(old(spaces), id, v).frame) == {(id, v)})
      ensures old(NoDevices(spaces)) ==> NoDevices(spaces)
    {
      var m := At(spaces, id, v);
      CountsOf(frames, spaces, outside, id, v);
      SoleReference(frames, spaces, outside, id, v);
      hide Accounted, Isolated, WorldOf, Released, Refs;
      if frames.counts[m.frame] > 1 {
        r := CopyPrivately(id, v);
      } else {
        var m' := m.(flags := m.flags + {Write}, cow := false);
        RetagKeepsAccounts(frames, spaces, outside, id, v, m');
        SoleOwnerKeepsIsolation(frames, spaces, outside, id, v, m');
        PutView(frames, spaces, outside, id, v, m');
        ViewAt(frames, spaces, outside, id, v);
        SamePageSameWorld(Seen(), id, v);
        spaces := Put(spaces, id, v, m');
        r := Ok(());
      }
    }

    /** The copying half of `ResolveCowFault`. */
    method CopyPrivately(id: nat, v: nat) returns (r: Result<(), BuildError>)
      requires Valid() && Maps(spaces, id, v) && At(spaces, id, v).cow
      requires At(spaces, id, v).frame in frames.counts && frames.counts[At(spaces, id, v).frame] > 1
      modifies this
      ensures Valid() && spaces.Keys == old(spaces.Keys)
      ensures Seen() == old(Seen())
      ensures r.Err? <==> old(frames.free) == {}
      ensures r.Err? ==> r.error == OutOfMemory && frames == old(frames) && spaces == old(spaces)
      ensures r.Ok? ==> Maps(spaces, id, v) && At(spaces, id, v).StoresInPlace()
      ensures r.Ok? ==> At(spaces, id, v).frame != At(old(spaces), id, v).frame
      ensures old(NoDevices(spaces)) ==> NoDevices(spaces)
    {
      hide ZeroPage, Refs;
      var m := At(spaces, id, v);
      CountsOf(frames, spaces, outside, id, v);
      FreeIsNotCounted(frames, spaces, outside);
      hide Accounted, Isolated, WorldOf, Released, Installed;
      ghost var fr, t := frames, spaces;
      var taken := Alloc();
      if taken.Err? {
        return Err(taken.error);
      }
      var f := taken.value;
      var page := frames.memory[m.frame];
      frames := frames.(memory := frames.memory[f := page]);
      Release(m.frame);
      var m' := m.(frame := f, flags := m.flags + {Write}, cow := false);
      spaces := Put(spaces, id, v, m');
      TakeCommutesWithRelease(fr, m.frame, f, page);
      RedirectKeeps(fr, t, outside, id, v, m');
      r := Ok(());
    }

    method MapLazyPage(id: nat, v: nat, write: bool) returns (r: Result<bool, BuildError>)
      requires Valid() && id in spaces && !Maps(spaces, id, v)
      modifies this
      ensures Valid() && spaces.Keys == old(spaces.Keys)
      ensures r.Err? ==> r.error == OutOfMemory || LazyLoad(old(spaces)[id].vmas, v, write) == Err(r.error)
      ensures r == Ok(false) ==> LazyLoad(old(spaces)[id].vmas, v, write) == Ok(None)
      ensures r != Ok(true) ==> Seen() == old(Seen())
      ensures r == Ok(true) ==> LazyLoad(old(spaces)[id].vmas, v, write).Ok?
      ensures r == Ok(true) ==> LazyLoad(old(spaces)[id].vmas, v, write).value.Some?
      ensures r == Ok(true) ==> Seen() == WithPage(old(Seen()), id, v,
                Private(LazyLoad(old(spaces)[id].vmas, v, write).value.value.0,
                        LazyLoad(old(spaces)[id].vmas, v, write).value.value.1))
      ensures r == Ok(true) ==> Maps(spaces, id, v) && (write ==> At(spaces, id, v).StoresInPlace())
      ensures old(NoDevices(spaces)) ==> NoDevices(spaces)
    {
      hide Accounted, Isolated, WorldOf, LazyLoad;
      var load := LoadLazyPage(spaces[id].vmas, v, write);
      if load.Ok? && load.value.None? {
        return Ok(false);
      }
      ghost var before := frames;
      var taken := Alloc();
      if taken.Err? {
        return Err(taken.error);
      }
      var f := taken.value;
      if load.Err? {
        UninstallKeepsAccounts(before, spaces, outside, f, ZeroPage());
        FreeStoreView(before, spaces, outside, f, ZeroPage());
        frames := frames.(memory := frames.memory[f := ZeroPage()]);
        Release(f);
        return Err(load.error);
      }
      var (page, flags) := load.value.value;
      LoadedFlagsAreUser(spaces[id].vmas, v, write);
      frames := frames.(memory := frames.memory[f := page]);
      var mapped := MapOwnedFrame(id, v, f, flags, before, page);
      assert mapped.Ok?;
      r := Ok(true);
    }

    /** `r` and what is seen now are what an access to `address` gives in the world `w`. */
    ghost predicate AccessDone(w: World, id: nat, address: nat, write: bool, r: Result<(), BuildError>)
      requires id in w.spaces
      reads this
    {
      match Accessed(w, id, address, write)
      case Err(e) => r == Err(e) && Seen() == w
      case Ok(w') => r.Ok? && Seen() == w'
    }

    method EnsureAccess(id: nat, address: nat, write: bool) returns (r: Result<(), BuildError>)
      requires Valid() && id in spaces
      modifies this
      ensures Valid() && spaces.Keys == old(spaces.Keys)
      ensures id in old(Seen()).spaces
      ensures (r == Err(OutOfMemory) && Seen() == old(Seen())) || AccessDone(old(Seen()), id, address, write, r)
      ensures r.Ok? ==> Maps(spaces, id, AlignDown(address))
      ensures r.Ok? && write ==>
                At(spaces, id, AlignDown(address)).StoresInPlace() || !At(spaces, id, AlignDown(address)).owned
      ensures old(NoDevices(spaces)) ==> NoDevices(spaces)
    {
      var v := AlignDown(address);
      hide Accounted, Isolated, WorldOf, LazyLoad;
      ViewAt(frames, spaces, outside, id, v);
      if v in spaces[id].mappings {
        var m := At(spaces, id, v);
        CountsOf(frames, spaces, outside, id, v);
        if write {
          if m.cow {
            assert Write in PageAt(Seen(), id, v).flags;
            r := ResolveCowFault(id, v);
            return;
          }
          if Write !in m.flags {
            return Err(NotMapped);
          }
        }
        return Ok(());
      }
      var loaded := MapLazyPage(id, v, write);
      if loaded.Err? {
        return Err(loaded.error);
      }
      r := if loaded.value then Ok(()) else Err(NotMapped);
    }

    // -------------------------------------------------------------- reading and writing

    method ReadBytes(id: nat, address: nat, len: nat) returns (r: Result<seq<Byte>, BuildError>)
      requires Valid() && id in spaces
      modifies this
      ensures Valid() && spaces.Keys == old(spaces.Keys)
      ensures id in old(Seen()).spaces
      ensures r == Err(OutOfMemory) || (Seen(), r) == ReadFrom(old(Seen()), id, address, len)
      ensures old(NoDevices(spaces)) ==> NoDevices(spaces)
    {
      hide Accounted, Isolated, WorldOf, Accessed, ReadFrom, AfterPrefix, Bytes, NoDevices, AreasOk;
      ghost var w := Seen();
      ViewAt(frames, spaces, outside, id, 0);
      var buffer: seq<Byte>, current: nat := [], address;
      AfterNothing(ReadFrom(w, id, address, len));
      while |buffer| < len
        invariant |buffer| <= len && Valid() && id in spaces && spaces.Keys == old(spaces.Keys)
        invariant id in Seen().spaces && (old(NoDevices(spaces)) ==> NoDevices(spaces))
        invariant ReadFrom(w, id, address, len) == AfterPrefix(buffer, ReadFrom(Seen(), id, current, len - |buffer|))
      {
        ghost var before, rest := Seen(), len - |buffer|;
        var access := EnsureAccess(id, current, false);
        if access.Err? {
          if access.error != OutOfMemory {
            ReadFails(before, id, current, rest);
            FailedRead(buffer, before, access.error);
          }
          return Err(access.error);
        }
        ViewAt(frames, spaces, outside, id, 0);
        var v := AlignDown(current);
        BytesSeen(frames, spaces, outside, id, v);
        var page := frames.memory[spaces[id].mappings[v].frame];
        var at, n := current - v, ChunkLen(current, len - |buffer|);
        var chunk := page[at..at + n];
        ReadProceeds(before, Seen(), id, current, rest, n, chunk);
        if current + n > U64_MAX {
          FailedRead(buffer, Seen(), AddressOverflow);
          return Err(AddressOverflow);
        }
        AfterPrefixes(buffer, chunk, ReadFrom(Seen(), id, current + n, rest - n));
        buffer := buffer + chunk;
        current := current + n;
      }
      FinishedRead(Seen(), id, current, buffer);
      r := Ok(buffer);
    }

    method WriteBytes(id: nat, address: nat, bytes: seq<Byte>) returns (r: Result<nat, BuildError>)
      requires Valid() && id in spaces
      modifies this
      ensures Valid() && spaces.Keys == old(spaces.Keys)
      ensures id in old(Seen()).spaces
      ensures r == Err(OutOfMemory) || (Seen(), r) == WriteTo(old(Seen()), id, address, bytes)
      ensures old(NoDevices(spaces)) ==> NoDevices(spaces)
    {
      hide Accounted, Isolated, WorldOf, Accessed, Stored, Overwrite, WriteTo, NoDevices, AreasOk;
      ghost var w := Seen();
      ViewAt(frames, spaces, outside, id, 0);
      var copied: nat, current: nat := 0, address;
      assert bytes[0..] == bytes;
      while copied < |bytes|
        invariant copied <= |bytes| && Valid() && id in spaces && spaces.Keys == old(spaces.Keys)
        invariant id in Seen().spaces && (old(NoDevices(spaces)) ==> NoDevices(spaces))
        invariant WriteTo(w, id, address, bytes) == AfterCount(copied, WriteTo(Seen(), id, current, bytes[copied..]))
      {
        ghost var before, rest := Seen(), bytes[copied..];
        var access := EnsureAccess(id, current, true);
        if access.Err? {
          if access.error != OutOfMemory {
            WriteFails(before, id, current, rest);
          }
          return Err(access.error);
        }
        var v := AlignDown(current);
        var n := ChunkLen(current, |bytes| - copied);
        ghost var ready := Seen();
        StoreChunk(id, v, current - v, bytes[copied..copied + n]);
        ViewAt(frames, spaces, outside, id, 0);
        assert rest[..n] == bytes[copied..copied + n] && rest[n..] == bytes[copied + n..];
        WriteProceeds(before, ready, Seen(), id, current, rest, n);
        if current + n > U64_MAX {
          return Err(AddressOverflow);
        }
        copied := copied + n;
        current := current + n;
      }
      assert bytes[copied..] == [];
      FinishedWrite(Seen(), id, current);
      r := Ok(copied);
    }

    method StoreChunk(id: nat, v: nat, at: nat, chunk: seq<Byte>)
      requires Valid() && Maps(spaces, id, v) && at + |chunk| <= PAGE_SIZE
      requires At(spaces, id, v).StoresInPlace() || !At(spaces, id, v).owned
      modifies this`frames
      ensures Valid() && Has(old(Seen()), id, v)
      ensures Seen() == Stored(old(Seen()), id, v, at, chunk)
    {
      hide Accounted, Isolated, WorldOf, Stored, Overwrite;
      var f := spaces[id].mappings[v].frame;
      StoreSeen(frames, spaces, outside, id, v, at, chunk);
      var page := Overwrite(frames.memory[f], at, chunk);
      StoreKeepsAccounts(frames, spaces, outside, f, page);
      frames := frames.(memory := frames.memory[f := page]);
    }

    // -------------------------------------------------------------- forking

    /** Gives the child the parent's page `v`: the same frame, which neither may store to in place
        any more. */
    method SharePage(parent: nat, child: nat, v: nat)
      requires Valid() && Maps(spaces, parent, v) && child in spaces && !Maps(spaces, child, v) && parent != child
      modifies this
      ensures Valid() && spaces.Keys == old(spaces.Keys) && frames.memory == old(frames.memory)
      ensures spaces[parent].mappings.Keys == old(spaces[parent].mappings.Keys)
      ensures spaces[child].mappings.Keys == old(spaces[child].mappings.Keys) + {v}
      ensures Has(old(Seen()), parent, v) && child in old(Seen()).spaces
      ensures Seen() == WithPage(old(Seen()), child, v, PageAt(old(Seen()), parent, v))
      ensures old(NoDevices(spaces)) ==> NoDevices(spaces)
    {
      hide ZeroPage;
      hide Accounted, Isolated, WorldOf;
      var m := spaces[parent].mappings[v];
      ViewAt(frames, spaces, outside, parent, v);
      ViewAt(frames, spaces, outside, child, v);
      CountsOf(frames, spaces, outside, parent, v);
      if !m.owned {
        ShareForeign(child, v, m.(cow := false));
        return;
      }
      var _, _ := ShareOwned(parent, child, v);
    }

    /** Both spaces map the private frame, and neither stores to it in place any more. */
    method ShareOwned(parent: nat, child: nat, v: nat) returns (ghost marked: UserMapping, ghost copied: UserMapping)
      requires Valid() && Maps(spaces, parent, v) && At(spaces, parent, v).owned
      requires child in spaces && !Maps(spaces, child, v) && parent != child
      modifies this
      ensures Valid() && frames.memory == old(frames.memory)
      ensures marked.owned && copied.owned && spaces == Put(Put(old(spaces), parent, v, marked), child, v, copied)
      ensures Has(old(Seen()), parent, v) && child in old(Seen()).spaces
      ensures Seen() == WithPage(old(Seen()), child, v, PageAt(old(Seen()), parent, v))
    {
      CountsOf(frames, spaces, outside, parent, v);
      hide Accounted, Isolated, WorldOf;
      var m := spaces[parent].mappings[v];
      var shared := m.cow || {Flag.Write, User} <= m.flags;
      var childFlags := if shared then m.flags - {Flag.Write} else m.flags;
      var copy := UserMapping(m.frame, childFlags, shared, true, false);
      marked, copied := if shared && !m.cow then m.(flags := childFlags, cow := true) else m, copy;
      ShareOwnedKeeps(frames, spaces, outside, parent, child, v, copy, marked);
      Retain(m.frame);
      ghost var before := spaces;
      spaces := Put(spaces, child, v, copy);
      if shared && !m.cow {
        spaces := Put(spaces, parent, v, m.(flags := childFlags, cow := true));
      }
      TwoPuts(before, parent, child, v, marked, copy);
    }

    /** The child gets the same shared or device page. */
    method ShareForeign(id: nat, v: nat, m: UserMapping)
      requires Valid() && id in spaces && !Maps(spaces, id, v) && !m.owned && MappingOk(m, frames, outside)
      modifies this
      ensures Valid() && frames.memory == old(frames.memory) && spaces == Put(old(spaces), id, v, m)
      ensures id in old(Seen()).spaces && Seen() == WithPage(old(Seen()), id, v, Alias(m.frame, m.flags))
    {
      hide Accounted, Isolated, WorldOf;
      ViewAt(frames, spaces, outside, id, v);
      ForeignKeepsIsolation(spaces, id, v, m);
      if m.shared {
        ShareKeepsAccounts(frames, spaces, outside, id, v, m);
        SameMemorySameWorld(frames, Retained(frames, m.frame), spaces, outside);
        Retain(m.frame);
      } else {
        UncountedKeepsAccounts(frames, spaces, outside, id, v, m);
      }
      PutView(frames, spaces, outside, id, v, m);
      spaces := Put(spaces, id, v, m);
    }

    /** The step of a fork that cannot map the page in the child: it leaks a reference if and only if the page
        is a counted one. */
    method FailToShare(parent: nat, v: nat)
      requires Valid() && Maps(spaces, parent, v)
      modifies this`frames
      ensures At(spaces, parent, v).Counted() ==>
                Leaked(frames, spaces, outside, At(spaces, parent, v).frame) && !Valid()
      ensures !At(spaces, parent, v).Counted() ==> Valid() && frames == old(frames)
      ensures Seen() == old(Seen())
    {
      CountsOf(frames, spaces, outside, parent, v);
      hide Accounted, Isolated, WorldOf;
      var m := spaces[parent].mappings[v];
      if m.Counted() {
        RetainLeaks(frames, spaces, outside, m.frame);
        SameMemorySameWorld(frames, Retained(frames, m.frame), spaces, outside);
        Retain(m.frame);
      }
    }

    /** The child sees what the parent sees, and the parent what it saw before. No frame is copied. */
    method ForkCow(parent: nat, child: nat)
      requires Valid() && parent in spaces && child !in spaces
      modifies this
      ensures Valid() && spaces.Keys == old(spaces.Keys) + {child} && frames.memory == old(frames.memory)
      ensures parent in old(Seen()).spaces && Seen() == Forked(old(Seen()), parent, child)
      ensures old(NoDevices(spaces)) ==> NoDevices(spaces)
    {
      hide UserAreas, WithPage, CopiedPage, NoDevices;
      hide Accounted, Isolated, WorldOf, PartlyForked, Forked;
      ghost var w := Seen();
      EmptySpaceKeepsAccounts(frames, spaces, outside, child, spaces[parent].vmas);
      EmptySpaceView(frames, spaces, outside, parent, child, {});
      NoDevicesInEmptySpace(spaces, child, spaces[parent].vmas);
      PagesSeen(frames, spaces, outside, parent);
      var todo := spaces[parent].mappings.Keys;
      ghost var all, done := todo, {};
      spaces := spaces[child := Space(map[], spaces[parent].vmas)];
      while todo != {}
        invariant Valid() && parent in spaces && child in spaces && parent != child
        invariant spaces.Keys == old(spaces.Keys) + {child} && frames.memory == old(frames.memory)
        invariant spaces[parent].mappings.Keys == all && spaces[child].mappings.Keys == done
        invariant all == todo + done && todo !! done
        invariant Seen() == PartlyForked(w, parent, child, done, {})
        invariant old(NoDevices(spaces)) ==> NoDevices(spaces)
        decreases todo
      {
        var v :| v in todo;
        ghost var before := Seen();
        SharePage(parent, child, v);
        ParentUntouched(w, parent, child, done, {}, v);
        ForkProceeds(w, parent, child, done, {}, v);
        todo, done := todo - {v}, done + {v};
      }
      assert done == all;
      ForksLookAlike(w, parent, child, {});
    }

    /** Gives the child a page of its own with the contents of the parent's page `v`, unless the page is
        shared memory. */
    method CopyPage(parent: nat, child: nat, v: nat) returns (r: Result<(), BuildError>)
      requires Valid() && Maps(spaces, parent, v) && child in spaces && !Maps(spaces, child, v) && parent != child
      modifies this
      ensures Valid() && spaces.Keys == old(spaces.Keys)
      ensures old(NoDevices(spaces)) ==> NoDevices(spaces)
      ensures r.Err? <==> |old(frames.free)| < NeedsFrame(At(old(spaces), parent, v))
      ensures r.Err? ==> r.error == OutOfMemory && frames == old(frames) && spaces == old(spaces)
      ensures r.Ok? ==> |frames.free| + NeedsFrame(At(old(spaces), parent, v)) == |old(frames.free)|
      ensures r.Ok? ==> spaces - {child} == old(spaces) - {child}
      ensures r.Ok? ==> spaces[child].mappings.Keys == old(spaces[child].mappings.Keys) + {v}
      ensures Has(old(Seen()), parent, v) && child in old(Seen()).spaces
      ensures r.Ok? ==>
                Seen() ==
                WithPage(old(Seen()), child, v, CopiedPage(old(Seen()), parent, v, Devices(old(spaces)[parent])))
    {
      hide Accounted, Isolated, WorldOf, CopiedPage, Devices, MappingOk;
      var m := spaces[parent].mappings[v];
      CopySeen(frames, spaces, outside, parent, v);
      ViewAt(frames, spaces, outside, child, v);
      if m.shared {
        r := MapSharedPage(child, v, m.frame, m.flags);
        return;
      }
      var flags := m.flags + if m.cow then {Flag.Write} else {};
      assert flags == m.Permits();
      r := MapCopy(child, v, m.frame, flags);
    }

    /** A new private page with the contents of frame `f`. */
    method MapCopy(id: nat, v: nat, f: nat, flags: MapFlags) returns (r: Result<(), BuildError>)
      requires Valid() && id in spaces && !Maps(spaces, id, v) && f in frames.memory
               && (Flag.Write in flags ==> User in flags)
      modifies this
      ensures Valid() && (old(NoDevices(spaces)) ==> NoDevices(spaces))
      ensures r.Err? <==> old(frames.free) == {}
      ensures r.Err? ==> r.error == OutOfMemory && frames == old(frames) && spaces == old(spaces)
      ensures r.Ok? ==> |frames.free| + 1 == |old(frames.free)|
      ensures r.Ok? ==> exists g :: spaces == Put(old(spaces), id, v, UserMapping(g, flags, false, true, false))
      ensures id in old(Seen()).spaces
      ensures r.Ok? ==> Seen() == WithPage(old(Seen()), id, v, Private(old(frames.memory)[f], flags))
    {
      hide Accounted, Isolated, WorldOf;
      ViewAt(frames, spaces, outside, id, v);
      ghost var before := frames;
      var taken := Alloc();
      if taken.Err? {
        return Err(taken.error);
      }
      var page := frames.memory[f];
      frames := frames.(memory := frames.memory[taken.value := page]);
      r := MapOwnedFrame(id, v, taken.value, flags, before, page);
    }

    /** A copying fork of `original` has copied the pages in `done`, with `had` free frames at the start. */
    ghost predicate MidFork(original: Spaces, w: World, parent: nat, child: nat, done: set<nat>, had: nat)
      requires parent in original && parent in w.spaces
      reads this
    {
      && Valid() && (NoDevices(original) ==> NoDevices(spaces))
      && child in spaces && spaces - {child} == original && spaces[child].mappings.Keys == done
      && Seen() == PartlyForked(w, parent, child, done, Devices(original[parent]))
      && Spent(original[parent], done, |frames.free|, had)
    }

    method CopyNext(parent: nat, child: nat, v: nat,
                    ghost original: Spaces, ghost w: World, ghost done: set<nat>, ghost had: nat)
      returns (r: Result<(), BuildError>)
      requires parent in original && child !in original && parent in w.spaces && v !in done
      requires v in original[parent].mappings && v in w.spaces[parent].pages
      requires MidFork(original, w, parent, child, done, had)
      modifies this
      ensures r.Ok? ==> MidFork(original, w, parent, child, done + {v}, had)
      ensures r.Err? ==> r.error == OutOfMemory && MidFork(original, w, parent, child, done, had)
      ensures r.Err? ==> had < |ToCopy(original[parent])|
    {
      hide WithPage, Devices, CopiedPage, NoDevices, ToCopy, Spent, NeedsFrame;
      hide Accounted, Isolated, WorldOf, PartlyForked;
      assert spaces[parent] == (spaces - {child})[parent] == original[parent];
      SpendOne(original[parent], done, v, |frames.free|, had);
      r := CopyPage(parent, child, v);
      if r.Ok? {
        ParentUntouched(w, parent, child, done, Devices(original[parent]), v);
        ForkProceeds(w, parent, child, done, Devices(original[parent]), v);
      }
    }

    /** The child of a copying fork, with no pages yet. */
    method StartCopy(parent: nat, child: nat)
      requires Valid() && parent in spaces && child !in spaces
      modifies this`spaces
      ensures parent in old(Seen()).spaces && child !in old(Seen()).spaces
      ensures MidFork(old(spaces), old(Seen()), parent, child, {}, |frames.free|)
    {
      hide Devices, NoDevices, ToCopy, Spent, Accounted, Isolated, WorldOf, PartlyForked;
      SpendNone(spaces[parent], |frames.free|);
      EmptySpaceKeepsAccounts(frames, spaces, outside, child, spaces[parent].vmas);
      EmptySpaceView(frames, spaces, outside, parent, child, Devices(spaces[parent]));
      PagesSeen(frames, spaces, outside, parent);
      NoDevicesInEmptySpace(spaces, child, spaces[parent].vmas);
      ghost var original := spaces;
      spaces := spaces[child := Space(map[], spaces[parent].vmas)];
      assert spaces - {child} == original;
    }

    /** Gives up a copying fork. */
    method AbandonCopy(parent: nat, child: nat, ghost original: Spaces, ghost w: World, ghost done: set<nat>,
                       ghost had: nat)
      requires parent in original && parent in w.spaces && child !in w.spaces
      requires MidFork(original, w, parent, child, done, had)
      modifies this
      ensures Valid() && (NoDevices(original) ==> NoDevices(spaces)) && spaces == original && Seen() == w
    {
      hide Devices, NoDevices, Spent, Accounted, Isolated, WorldOf, PartlyForked, Ended;
      DropSpace(child);
      AbandonedFork(w, parent, child, done, Devices(original[parent]));
    }

    lemma CopyIsDone(original: Spaces, w: World, parent: nat, child: nat, had: nat)
      requires parent in original && parent in w.spaces && child !in w.spaces && parent != child
      requires MidFork(original, w, parent, child, original[parent].mappings.Keys, had)
      requires w.spaces[parent].pages.Keys == original[parent].mappings.Keys
      requires forall v :: v in Devices(original[parent]) ==>
                 v in w.spaces[parent].pages && w.spaces[parent].pages[v].Alias?
      ensures Valid() && (NoDevices(original) ==> NoDevices(spaces)) && had >= |ToCopy(original[parent])|
      ensures spaces.Keys == original.Keys + {child}
      ensures Seen() == EagerlyForked(w, parent, child, Devices(original[parent]))
      ensures Seen() == Forked(w, parent, child) <==> Devices(original[parent]) == {}
    {
      hide Devices, NoDevices, Spent, Accounted, Isolated, WorldOf, PartlyForked, Forked, ToCopy;
      SpendAll(original[parent], |frames.free|, had);
      ForksLookAlike(w, parent, child, Devices(original[parent]));
      assert spaces.Keys == (spaces - {child}).Keys + {child};
    }

    /** The eager fork. It makes private copies of device pages, too. */
    method ForkCopy(parent: nat, child: nat) returns (r: Result<(), BuildError>)
      requires Valid() && parent in spaces && child !in spaces
      modifies this
      ensures Valid() && (old(NoDevices(spaces)) ==> NoDevices(spaces))
      ensures r.Err? <==> |old(frames.free)| < |ToCopy(old(spaces)[parent])|
      ensures r.Err? ==> r.error == OutOfMemory && spaces == old(spaces) && Seen() == old(Seen())
      ensures r.Ok? ==> spaces.Keys == old(spaces.Keys) + {child}
      ensures parent in old(Seen()).spaces
      ensures r.Ok? ==> Seen() == EagerlyForked(old(Seen()), parent, child, Devices(old(spaces)[parent]))
      ensures r.Ok? ==> (Seen() == Forked(old(Seen()), parent, child) <==> Devices(old(spaces)[parent]) == {})
    {
      hide MidFork, Devices, NoDevices, ToCopy, WorldOf, Forked, EagerlyForked, Accounted, Isolated;
      ghost var w, original, had := Seen(), spaces, |frames.free|;
      PagesSeen(frames, spaces, outside, parent);
      DevicesAreAliases(frames, spaces, outside, parent);
      var todo := spaces[parent].mappings.Keys;
      ghost var done: set<nat> := {};
      StartCopy(parent, child);
      while todo != {}
        invariant MidFork(original, w, parent, child, done, had)
        invariant original[parent].mappings.Keys == todo + done && todo !! done
        decreases todo
      {
        var v :| v in todo;
        var copied := CopyNext(parent, child, v, original, w, done, had);
        if copied.Err? {
          AbandonCopy(parent, child, original, w, done, had);
          return Err(copied.error);
        }
        todo, done := todo - {v}, done + {v};
      }
      assert done == original[parent].mappings.Keys;
      CopyIsDone(original, w, parent, child, had);
      r := Ok(());
    }

    // -------------------------------------------------------------- page faults and protection

    /** A write fault that is handled leaves a page that may be stored to. A fault is turned down
        only if the access is not allowed. */
    method HandlePageFault(id: nat, address: nat, write: bool, user: bool, instruction: bool)
      returns (r: Result<PageFaultHandling, BuildError>)
      requires Valid() && id in spaces
      modifies this
      ensures Valid() && spaces.Keys == old(spaces.Keys)
      ensures id in old(Seen()).spaces
      ensures Seen() == old(Seen()) || Accessed(old(Seen()), id, address, write) == Ok(Seen())
      ensures r.Ok? && r.value != Unhandled ==> Maps(spaces, id, AlignDown(address))
      ensures r.Ok? && r.value != Unhandled && write ==>
                At(spaces, id, AlignDown(address)).StoresInPlace() || !At(spaces, id, AlignDown(address)).owned
      ensures Maps(old(spaces), id, AlignDown(address)) && !(write && At(old(spaces), id, AlignDown(address)).cow) ==>
                frames == old(frames) && spaces == old(spaces)
      ensures Maps(old(spaces), id, AlignDown(address)) && !(write && At(old(spaces), id, AlignDown(address)).cow) ==>
                r == Ok(if FaultAllowed(At(old(spaces), id, AlignDown(address)), write, user, instruction)
                        then InvalidateTlb
                        else Unhandled)
      ensures r.Ok? && !(Maps(old(spaces), id, AlignDown(address))
                         && !(write && At(old(spaces), id, AlignDown(address)).cow)) ==>
                r.value != InvalidateTlb
      ensures r == Ok(Unhandled) && !user && !instruction ==>
                Accessed(old(Seen()), id, address, write) == Err(NotMapped)
      ensures old(NoDevices(spaces)) ==> NoDevices(spaces)
    {
      var v := AlignDown(address);
      hide Accounted, Isolated, WorldOf, LazyLoad;
      ViewAt(frames, spaces, outside, id, v);
      if v in spaces[id].mappings {
        var m := At(spaces, id, v);
        CountsOf(frames, spaces, outside, id, v);
        if write && m.cow {
          var resolved := ResolveCowFault(id, v);
          r := if resolved.Err? then Err(resolved.error) else Ok(Resolved);
          return;
        }
        return Ok(if FaultAllowed(m, write, user, instruction) then InvalidateTlb else Unhandled);
      }
      var loaded := MapLazyPage(id, v, write);
      if loaded.Err? {
        return Err(loaded.error);
      }
      r := Ok(if loaded.value then Resolved else Unhandled);
    }

    /** Changing permissions keeps the accounts. It drops copy-on-write marks whatever the counts
        are, so it keeps spaces isolated exactly if it does not make writable a private page whose
        frame has other users. */
    method ProtectPages(id: nat, start: nat, end: nat, flags: MapFlags)
      requires Valid() && id in spaces && (Flag.Write in flags ==> User in flags)
      modifies this`spaces
      ensures Accounted(frames, spaces, outside) && AreasOk(spaces) && spaces.Keys == old(spaces.Keys)
      ensures Reprotected(old(spaces), spaces, id, start, end, flags)
      ensures Isolated(spaces) <==> MayProtect(frames, old(spaces), id, start, end, flags)
    {
      hide Accounted, Isolated;
      ghost var original := spaces;
      var todo := set v | v in spaces[id].mappings && start <= v < end;
      ghost var done: set<nat> := {};
      while todo != {}
        invariant Accounted(frames, spaces, outside) && AreasOk(spaces) && spaces.Keys == original.Keys
        invariant PartlyReprotected(original, spaces, id, done, flags)
        invariant todo + done == set v | v in original[id].mappings && start <= v < end
        invariant todo !! done
        decreases todo
      {
        var v :| v in todo;
        assert Maps(original, id, v) && Maps(spaces, id, v);
        CountsOf(frames, spaces, outside, id, v);
        var m := spaces[id].mappings[v].(flags := flags, cow := false);
        RetagKeepsAccounts(frames, spaces, outside, id, v, m);
        ProtectProceeds(original, spaces, id, done, flags, v);
        spaces := Put(spaces, id, v, m);
        todo, done := todo - {v}, done + {v};
      }
      assert Reprotected(original, spaces, id, start, end, flags);
      ProtectIsolates(frames, original, spaces, outside, id, start, end, flags);
    }
  }

  /** The mapping permits the access that faulted. */
  predicate FaultAllowed(m: UserMapping, write: bool, user: bool, instruction: bool) {
    (write ==> Write in m.flags) && (user ==> User in m.flags) && (instruction ==> Execute in m.flags)
  }

  datatype PageFaultHandling = Resolved | InvalidateTlb | Unhandled

  /** `t` is `spaces` after the pages `done` of `id` have got new permissions. */
  ghost predicate PartlyReprotected(spaces: Spaces, t: Spaces, id: nat, done: set<nat>, flags: MapFlags) {
    && (forall j: nat, u: nat :: Maps(t, j, u) <==> Maps(spaces, j, u))
    && (forall j: nat, u: nat :: Maps(t, j, u) ==>
          At(t, j, u) ==
          if j == id && u in done then At(spaces, j, u).(flags := flags, cow := false) else At(spaces, j, u))
  }

  ghost predicate Reprotected(spaces: Spaces, t: Spaces, id: nat, start: nat, end: nat, flags: MapFlags) {
    && (forall j: nat, u: nat :: Maps(t, j, u) <==> Maps(spaces, j, u))
    && (forall j: nat, u: nat :: Maps(t, j, u) ==>
          At(t, j, u) ==
          if j == id && start <= u < end then At(spaces, j, u).(flags := flags, cow := false) else At(spaces, j, u))
  }

  lemma ProtectProceeds(spaces: Spaces, t: Spaces, id: nat, done: set<nat>, flags: MapFlags, v: nat)
    requires PartlyReprotected(spaces, t, id, done, flags) && Maps(t, id, v) && v !in done
    ensures PartlyReprotected(spaces, Put(t, id, v, At(t, id, v).(flags := flags, cow := false)), id, done + {v}, flags)
  {
    var m := At(t, id, v).(flags := flags, cow := false);
    forall j: nat, u: nat
      ensures Maps(Put(t, id, v, m), j, u) <==> Maps(spaces, j, u)
      ensures Maps(Put(t, id, v, m), j, u) ==>
                At(Put(t, id, v, m), j, u) ==
                if j == id && u in done + {v} then At(spaces, j, u).(flags := flags, cow := false)
                                              else At(spaces, j, u)
    {
      LookupOfPut(t, id, v, m, j, u);
    }
  }

  /** No private page of the range whose frame has another user becomes writable. */
  predicate MayProtect(fr: Frames, spaces: Spaces, id: nat, start: nat, end: nat, flags: MapFlags)
    requires id in spaces
  {
    Write in flags ==>
      forall v :: v in spaces[id].mappings && start <= v < end && spaces[id].mappings[v].owned ==>
        spaces[id].mappings[v].frame in fr.counts && fr.counts[spaces[id].mappings[v].frame] == 1
  }

  lemma ProtectIsolates(fr: Frames, spaces: Spaces, t: Spaces, outside: map<nat, nat>,
                        id: nat, start: nat, end: nat, flags: MapFlags)
    requires Accounted(fr, spaces, outside) && Isolated(spaces) && id in spaces
    requires Reprotected(spaces, t, id, start, end, flags)
    ensures Isolated(t) <==> MayProtect(fr, spaces, id, start, end, flags)
  {
    hide Accounted;
    if MayProtect(fr, spaces, id, start, end, flags) {
      forall i: nat, u: nat, j: nat, w: nat
        ensures NoClash(t, i, u, j, w)
      {
        assert NoClash(spaces, i, u, j, w);
        if Maps(t, i, u) && Maps(t, j, w) && i == id && start <= u < end && Write in flags && At(t, i, u).owned
           && At(t, j, w).frame == At(t, i, u).frame {
          CountOneIsExclusive(fr, spaces, outside, i, u, j, w);
        }
      }
    } else {
      var v :| v in spaces[id].mappings && start <= v < end && spaces[id].mappings[v].owned &&
               !(spaces[id].mappings[v].frame in fr.counts && fr.counts[spaces[id].mappings[v].frame] == 1);
      assert Maps(spaces, id, v);
      var j, w := OtherUser(fr, spaces, outside, id, v);
      assert Maps(t, id, v) && Maps(t, j, w);
      assert !NoClash(t, id, v, j, w);
    }
  }

  /** Two spaces that share a page copy-on-write: making it writable in one of them lets both see what
      that one stores. */
  lemma ProtectCanBreakIsolation() returns (fr: Frames, spaces: Spaces, t: Spaces)
    ensures Accounted(fr, spaces, map[]) && Isolated(spaces) && 0 in spaces
    ensures Reprotected(spaces, t, 0, 0, PAGE_SIZE, {Read, Write, User})
    ensures !MayProtect(fr, spaces, 0, 0, PAGE_SIZE, {Read, Write, User}) && !Isolated(t)
  {
    var m := UserMapping(7, {Read, User}, true, true, false);
    spaces := map[0 := Space(map[0 := m], []), 1 := Space(map[0 := m], [])];
    fr := Frames(map[7 := ZeroPage()], map[7 := 2], {});
    t := Put(spaces, 0, 0, m.(flags := {Read, Write, User}, cow := false));
    assert Refs(spaces, 7) == {(0, 0), (1, 0)} by {
      assert spaces[0].mappings[0] == m && spaces[1].mappings[0] == m;
    }
    assert Accounted(fr, spaces, map[]) by {
      assert CountOk(fr, spaces, map[], 7);
    }
    assert Isolated(spaces);
    assert 0 in spaces[0].mappings && spaces[0].mappings[0] == m;
    ProtectIsolates(fr, spaces, t, map[], 0, 0, PAGE_SIZE, {Read, Write, User});
  }

  /** A private frame with a count other than one has a second mapping. */
  lemma OtherUser(fr: Frames, spaces: Spaces, outside: map<nat, nat>, id: nat, v: nat) returns (j: nat, w: nat)
    requires Accounted(fr, spaces, outside) && Maps(spaces, id, v) && At(spaces, id, v).owned
    requires At(spaces, id, v).frame in fr.counts ==> fr.counts[At(spaces, id, v).frame] != 1
    ensures Maps(spaces, j, w) && (j, w) != (id, v) && At(spaces, j, w).owned
    ensures At(spaces, j, w).frame == At(spaces, id, v).frame
  {
    SoleReference(fr, spaces, outside, id, v);
    var f := At(spaces, id, v).frame;
    assert (id, v) in Refs(spaces, f);
    var others := Refs(spaces, f) - {(id, v)};
    assert others != {};
    var k :| k in others;
    j, w := k.0, k.1;
    assert Maps(spaces, j, w) && MappingOk(At(spaces, j, w), fr, outside) && MappingOk(At(spaces, id, v), fr, outside);
  }

  lemma EndAfterUnmap(w: World, id: nat, v: nat)
    requires id in w.spaces
    ensures Ended(Unmapped(w, id, v), id) == Ended(w, id)
  {
    assert Ended(Unmapped(w, id, v), id).spaces == Ended(w, id).spaces;
  }

  lemma AbandonedFork(w: World, parent: nat, child: nat, done: set<nat>, devices: set<nat>)
    requires parent in w.spaces && child !in w.spaces
    ensures Ended(PartlyForked(w, parent, child, done, devices), child) == w
  {
    assert Ended(PartlyForked(w, parent, child, done, devices), child).spaces == w.spaces;
  }

  /** Until it is finished, a fork does not change what the parent sees. */
  lemma ParentUntouched(w: World, parent: nat, child: nat, done: set<nat>, devices: set<nat>, v: nat)
    requires parent in w.spaces && v in w.spaces[parent].pages && parent != child
    ensures Has(PartlyForked(w, parent, child, done, devices), parent, v)
    ensures PageAt(PartlyForked(w, parent, child, done, devices), parent, v) == PageAt(w, parent, v)
    ensures CopiedPage(PartlyForked(w, parent, child, done, devices), parent, v, devices) ==
              CopiedPage(w, parent, v, devices)
    ensures devices == {} ==> CopiedPage(w, parent, v, devices) == PageAt(w, parent, v)
  {
  }

  lemma DevicesAreAliases(fr: Frames, spaces: Spaces, outside: map<nat, nat>, id: nat)
    requires Accounted(fr, spaces, outside) && id in spaces
    ensures Devices(spaces[id]) <= spaces[id].mappings.Keys
    ensures id in WorldOf(fr, spaces, outside).spaces
    ensures forall v :: v in Devices(spaces[id]) ==>
              v in WorldOf(fr, spaces, outside).spaces[id].pages
              && WorldOf(fr, spaces, outside).spaces[id].pages[v].Alias?
  {
    forall v | v in Devices(spaces[id])
      ensures v in WorldOf(fr, spaces, outside).spaces[id].pages
              && WorldOf(fr, spaces, outside).spaces[id].pages[v].Alias?
    {
      ViewAt(fr, spaces, outside, id, v);
    }
  }

  lemma TwoPuts(spaces: Spaces, parent: nat, child: nat, v: nat, marked: UserMapping, copy: UserMapping)
    requires Maps(spaces, parent, v) && child in spaces && parent != child
    ensures Put(Put(spaces, child, v, copy), parent, v, marked) == Put(Put(spaces, parent, v, marked), child, v, copy)
    ensures marked == At(spaces, parent, v) ==>
              Put(spaces, child, v, copy) == Put(Put(spaces, parent, v, marked), child, v, copy)
  {
    if marked == At(spaces, parent, v) {
      assert spaces[parent].mappings[v := marked] == spaces[parent].mappings;
      assert Put(spaces, parent, v, marked) == spaces;
    }
  }

  /** What copying a page has to go by, and what it shows. */
  lemma CopySeen(fr: Frames, spaces: Spaces, outside: map<nat, nat>, id: nat, v: nat)
    requires Accounted(fr, spaces, outside) && Maps(spaces, id, v)
    ensures Has(WorldOf(fr, spaces, outside), id, v) && At(spaces, id, v).frame in fr.memory
    ensures Write in At(spaces, id, v).Permits() ==> User in At(spaces, id, v).flags
    ensures At(spaces, id, v).shared ==> At(spaces, id, v).frame in outside && At(spaces, id, v).frame in fr.counts
    ensures At(spaces, id, v).shared ==> !At(spaces, id, v).cow
    ensures CopiedPage(WorldOf(fr, spaces, outside), id, v, Devices(spaces[id])) ==
            if At(spaces, id, v).shared then Alias(At(spaces, id, v).frame, At(spaces, id, v).flags)
            else Private(fr.memory[At(spaces, id, v).frame], At(spaces, id, v).Permits())
  {
    ViewAt(fr, spaces, outside, id, v);
    BytesSeen(fr, spaces, outside, id, v);
    assert MappingOk(At(spaces, id, v), fr, outside);
  }

  lemma NoDevicesInEmptySpace(spaces: Spaces, id: nat, vmas: seq<Vma>)
    requires id !in spaces
    ensures NoDevices(spaces) ==> NoDevices(spaces[id := Space(map[], vmas)])
  {
  }

  lemma ShareOwnedKeeps(fr: Frames, spaces: Spaces, outside: map<nat, nat>, parent: nat, child: nat, v: nat,
                        copy: UserMapping, marked: UserMapping)
    requires Accounted(fr, spaces, outside) && Isolated(spaces)
    requires Maps(spaces, parent, v) && At(spaces, parent, v).owned
    requires child in spaces && !Maps(spaces, child, v) && parent != child
    requires marked.frame == copy.frame == At(spaces, parent, v).frame
    requires marked.owned && !marked.shared && copy.owned && !copy.shared
    requires !marked.StoresInPlace() && !copy.StoresInPlace()
    requires MappingOk(marked, fr, outside) && MappingOk(copy, fr, outside)
    requires marked.Permits() == copy.Permits() == At(spaces, parent, v).Permits()
    ensures copy.frame in fr.counts
    ensures Accounted(Retained(fr, copy.frame), Put(Put(spaces, parent, v, marked), child, v, copy), outside)
    ensures Isolated(Put(Put(spaces, parent, v, marked), child, v, copy))
    ensures Has(WorldOf(fr, spaces, outside), parent, v) && child in WorldOf(fr, spaces, outside).spaces
    ensures WorldOf(Retained(fr, copy.frame), Put(Put(spaces, parent, v, marked), child, v, copy), outside) ==
            WithPage(WorldOf(fr, spaces, outside), child, v, PageAt(WorldOf(fr, spaces, outside), parent, v))
  {
    CountsOf(fr, spaces, outside, parent, v);
    hide Accounted, Isolated, WorldOf;
    var t := Put(spaces, parent, v, marked);
    RetagKeepsAccounts(fr, spaces, outside, parent, v, marked);
    CalmRetagKeepsIsolation(spaces, parent, v, marked);
    LookupOfPut(spaces, parent, v, marked, parent, v);
    LookupOfPut(spaces, parent, v, marked, child, v);
    ShareKeepsAccounts(fr, t, outside, child, v, copy);
    ShareKeepsIsolation(t, child, v, copy, parent, v);
    ViewAt(fr, spaces, outside, parent, v);
    ViewAt(fr, spaces, outside, child, v);
    PutView(fr, spaces, outside, parent, v, marked);
    SamePageSameWorld(WorldOf(fr, spaces, outside), parent, v);
    PutView(fr, t, outside, child, v, copy);
    SameMemorySameWorld(fr, Retained(fr, copy.frame), Put(t, child, v, copy), outside);
  }

  lemma FailedRead(buffer: seq<Byte>, w: World, e: BuildError)
    ensures AfterPrefix(buffer, (w, Err(e))) == (w, Err(e))
  {
  }

  lemma FinishedRead(w: World, id: nat, address: nat, buffer: seq<Byte>)
    requires id in w.spaces
    ensures AfterPrefix(buffer, ReadFrom(w, id, address, 0)) == (w, Ok(buffer))
  {
    assert buffer + [] == buffer;
  }

  lemma FinishedWrite(w: World, id: nat, address: nat)
    requires id in w.spaces
    ensures WriteTo(w, id, address, []) == (w, Ok(0))
  {
  }

  lemma FreeIsNotCounted(fr: Frames, spaces: Spaces, outside: map<nat, nat>)
    requires Accounted(fr, spaces, outside)
    ensures fr.free !! fr.counts.Keys && fr.counts.Keys <= fr.memory.Keys
  {
  }

  /** Taking and filling one frame and releasing another can be done in either order. */
  lemma TakeCommutesWithRelease(fr: Frames, g: nat, f: nat, page: Page)
    requires g in fr.counts && fr.counts[g] > 1 && f in fr.free && f !in fr.counts
    ensures Released(Installed(fr, f, page), g) == Installed(Released(fr, g), f, page)
    ensures Installed(fr, f, page) ==
            Frames(fr.memory[f := page], fr.counts[f := 1], fr.free - {f})
  {
    assert fr.counts[f := 1][g := fr.counts[g] - 1] == fr.counts[g := fr.counts[g] - 1][f := 1];
  }

  lemma SoleReference(fr: Frames, spaces: Spaces, outside: map<nat, nat>, id: nat, v: nat)
    requires Accounted(fr, spaces, outside) && Maps(spaces, id, v) && At(spaces, id, v).owned
    ensures At(spaces, id, v).frame in fr.counts
    ensures fr.counts[At(spaces, id, v).frame] == 1 <==> Refs(spaces, At(spaces, id, v).frame) == {(id, v)}
  {
    var f := At(spaces, id, v).frame;
    assert MappingOk(At(spaces, id, v), fr, outside) && CountOk(fr, spaces, outside, f);
    var r := Refs(spaces, f);
    assert (id, v) in r;
    assert |r - {(id, v)}| == |r| - 1;
    assert r == (r - {(id, v)}) + {(id, v)};
  }

  /** A copy-on-write page moves to a frame of its own, with the same contents. */
  lemma RedirectKeeps(fr: Frames, spaces: Spaces, outside: map<nat, nat>, id: nat, v: nat, m': UserMapping)
    requires Accounted(fr, spaces, outside) && Isolated(spaces)
    requires Maps(spaces, id, v) && At(spaces, id, v).cow && At(spaces, id, v).owned && m'.frame in fr.free
    requires At(spaces, id, v).frame in fr.counts && fr.counts[At(spaces, id, v).frame] > 1
    requires At(spaces, id, v).frame in fr.memory
    requires m' == At(spaces, id, v).(frame := m'.frame, flags := At(spaces, id, v).flags + {Write}, cow := false)
    ensures Accounted(Installed(Released(fr, At(spaces, id, v).frame), m'.frame, fr.memory[At(spaces, id, v).frame]),
                      Put(spaces, id, v, m'), outside)
    ensures Isolated(Put(spaces, id, v, m'))
    ensures WorldOf(Installed(Released(fr, At(spaces, id, v).frame), m'.frame, fr.memory[At(spaces, id, v).frame]),
                    Put(spaces, id, v, m'), outside) ==
            WorldOf(fr, spaces, outside)
  {
    var m := At(spaces, id, v);
    var page := fr.memory[m.frame];
    CountsOf(fr, spaces, outside, id, v);
    hide Accounted, Isolated, WorldOf;
    var fr1, t := Released(fr, m.frame), Del(spaces, id, v);
    var fr2 := Installed(fr1, m'.frame, page);
    DropKeepsAccounts(fr, spaces, outside, id, v);
    DropKeepsIsolation(spaces, id, v);
    LookupOfDel(spaces, id, v, id, v);
    InstallKeepsAccounts(fr1, t, outside, id, v, m', page);
    InstallKeepsIsolation(fr1, t, outside, id, v, m');
    PutOverDel(spaces, id, v, m');
    RedirectView(fr, spaces, outside, id, v, m');
  }

  lemma RedirectView(fr: Frames, spaces: Spaces, outside: map<nat, nat>, id: nat, v: nat, m': UserMapping)
    requires Accounted(fr, spaces, outside)
    requires Maps(spaces, id, v) && At(spaces, id, v).cow && At(spaces, id, v).owned && m'.frame in fr.free
    requires At(spaces, id, v).frame in fr.counts && fr.counts[At(spaces, id, v).frame] > 1
    requires At(spaces, id, v).frame in fr.memory
    requires m' == At(spaces, id, v).(frame := m'.frame, flags := At(spaces, id, v).flags + {Write}, cow := false)
    ensures WorldOf(Installed(Released(fr, At(spaces, id, v).frame), m'.frame, fr.memory[At(spaces, id, v).frame]),
                    Put(spaces, id, v, m'), outside) ==
            WorldOf(fr, spaces, outside)
  {
    hide Accounted, WorldOf;
    var m := At(spaces, id, v);
    var page := fr.memory[m.frame];
    var fr2 := Installed(Released(fr, m.frame), m'.frame, page);
    var fr3 := fr.(memory := fr.memory[m'.frame := page]);
    FreeStoreView(fr, spaces, outside, m'.frame, page);
    SameMemorySameWorld(fr3, fr2, spaces, outside);
    PutView(fr2, spaces, outside, id, v, m');
    ViewAt(fr, spaces, outside, id, v);
    assert ViewPage(fr2, m') == ViewPage(fr, m);
    SamePageSameWorld(WorldOf(fr, spaces, outside), id, v);
  }

  lemma CountsOf(fr: Frames, spaces: Spaces, outside: map<nat, nat>, id: nat, v: nat)
    requires Accounted(fr, spaces, outside) && Maps(spaces, id, v)
    ensures MappingOk(At(spaces, id, v), fr, outside)
    ensures At(spaces, id, v).Counted() ==>
              At(spaces, id, v).frame in fr.counts && fr.counts[At(spaces, id, v).frame] > 0
    ensures At(spaces, id, v).frame in fr.memory
  {
    assert MappingOk(At(spaces, id, v), fr, outside);
    assert At(spaces, id, v).Counted() ==> CountOk(fr, spaces, outside, At(spaces, id, v).frame);
  }

  lemma ReleasedMemory(fr: Frames, f: nat)
    requires f in fr.counts && fr.counts[f] > 0
    ensures Released(fr, f).memory == fr.memory
  {
  }
}
