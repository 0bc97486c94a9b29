/** How steps on frames and mappings look to the processes. */
module CowView {
  import opened Prelude
  import opened UserMemory
  import opened CowState
  import opened CowWorld

  function FrameBytes(fr: Frames, f: nat): Page {
    if f in fr.memory then fr.memory[f] else ZeroPage()
  }

  function ViewPage(fr: Frames, m: UserMapping): PageView {
    if m.owned then Private(FrameBytes(fr, m.frame), m.Permits()) else Alias(m.frame, m.flags)
  }

  function ViewSpace(fr: Frames, space: Space): SpaceView {
    SpaceView(map v | v in space.mappings :: ViewPage(fr, space.mappings[v]), space.vmas)
  }

  ghost function WorldOf(fr: Frames, spaces: Spaces, outside: map<nat, nat>): World {
    World(map id | id in spaces :: ViewSpace(fr, spaces[id]), map f | f in outside :: FrameBytes(fr, f))
  }

  lemma PutView(fr: Frames, spaces: Spaces, outside: map<nat, nat>, id: nat, v: nat, m: UserMapping)
    requires id in spaces
    ensures WorldOf(fr, Put(spaces, id, v, m), outside) ==
            WithPage(WorldOf(fr, spaces, outside), id, v, ViewPage(fr, m))
  {
    var space := spaces[id];
    assert ViewSpace(fr, space.(mappings := space.mappings[v := m])).pages ==
           ViewSpace(fr, space).pages[v := ViewPage(fr, m)];
    assert WorldOf(fr, Put(spaces, id, v, m), outside).spaces ==
           WithPage(WorldOf(fr, spaces, outside), id, v, ViewPage(fr, m)).spaces;
  }

  lemma DelView(fr: Frames, spaces: Spaces, outside: map<nat, nat>, id: nat, v: nat)
    requires id in spaces
    ensures WorldOf(fr, Del(spaces, id, v), outside) == Unmapped(WorldOf(fr, spaces, outside), id, v)
  {
    var space := spaces[id];
    assert ViewSpace(fr, space.(mappings := space.mappings - {v})).pages == ViewSpace(fr, space).pages - {v};
    assert WorldOf(fr, Del(spaces, id, v), outside).spaces == Unmapped(WorldOf(fr, spaces, outside), id, v).spaces;
  }

  /** Putting back a page that looks the same changes nothing. */
  lemma SamePageSameWorld(w: World, id: nat, v: nat)
    requires Has(w, id, v)
    ensures WithPage(w, id, v, PageAt(w, id, v)) == w
  {
    assert w.spaces[id].pages[v := w.spaces[id].pages[v]] == w.spaces[id].pages;
    assert WithPage(w, id, v, PageAt(w, id, v)).spaces == w.spaces;
  }

  lemma ViewAt(fr: Frames, spaces: Spaces, outside: map<nat, nat>, id: nat, v: nat)
    requires id in spaces
    ensures id in WorldOf(fr, spaces, outside).spaces
    ensures WorldOf(fr, spaces, outside).spaces[id].vmas == spaces[id].vmas
    ensures Has(WorldOf(fr, spaces, outside), id, v) <==> Maps(spaces, id, v)
    ensures Maps(spaces, id, v) ==> PageAt(WorldOf(fr, spaces, outside), id, v) == ViewPage(fr, At(spaces, id, v))
  {
  }

  /** Only the frames that are mapped or shared with others can be seen. */
  lemma UnseenFrames(fr: Frames, fr': Frames, spaces: Spaces, outside: map<nat, nat>)
    requires forall id: nat, v: nat :: Maps(spaces, id, v) && At(spaces, id, v).owned ==>
               FrameBytes(fr', At(spaces, id, v).frame) == FrameBytes(fr, At(spaces, id, v).frame)
    requires forall f :: f in outside ==> FrameBytes(fr', f) == FrameBytes(fr, f)
    ensures WorldOf(fr', spaces, outside) == WorldOf(fr, spaces, outside)
  {
    forall id | id in spaces
      ensures ViewSpace(fr', spaces[id]) == ViewSpace(fr, spaces[id])
    {
      forall v | v in spaces[id].mappings
        ensures ViewPage(fr', spaces[id].mappings[v]) == ViewPage(fr, spaces[id].mappings[v])
      {
        assert Maps(spaces, id, v) && At(spaces, id, v) == spaces[id].mappings[v];
      }
      assert ViewSpace(fr', spaces[id]).pages == ViewSpace(fr, spaces[id]).pages;
    }
    assert WorldOf(fr', spaces, outside).spaces == WorldOf(fr, spaces, outside).spaces;
    assert WorldOf(fr', spaces, outside).store == WorldOf(fr, spaces, outside).store;
  }

  /** A store into a frame that one private page of one space uses is seen there and nowhere else. */
  lemma PrivateStoreView(fr: Frames, spaces: Spaces, outside: map<nat, nat>, id: nat, v: nat, page: Page)
    requires Accounted(fr, spaces, outside) && Isolated(spaces)
    requires Maps(spaces, id, v) && At(spaces, id, v).StoresInPlace()
    ensures WorldOf(fr.(memory := fr.memory[At(spaces, id, v).frame := page]), spaces, outside) ==
            WithPage(WorldOf(fr, spaces, outside), id, v, Private(page, At(spaces, id, v).flags))
  {
    var m := At(spaces, id, v);
    var fr' := fr.(memory := fr.memory[m.frame := page]);
    var w, w' := WorldOf(fr, spaces, outside), WorldOf(fr', spaces, outside);
    assert MappingOk(m, fr, outside);
    var t := Del(spaces, id, v);
    forall j: nat, u: nat | Maps(t, j, u) && At(t, j, u).owned
      ensures FrameBytes(fr', At(t, j, u).frame) == FrameBytes(fr, At(t, j, u).frame)
    {
      LookupOfDel(spaces, id, v, j, u);
      assert NoClash(spaces, id, v, j, u);
    }
    UnseenFrames(fr, fr', t, outside);
    PutView(fr', t, outside, id, v, m);
    PutView(fr, t, outside, id, v, m);
    PutOverDel(spaces, id, v, m);
    OverwritePage(WorldOf(fr, t, outside), id, v, ViewPage(fr, m), ViewPage(fr', m));
    assert Put(t, id, v, m) == spaces by {
      assert spaces[id].mappings[v := m] == spaces[id].mappings;
      assert Put(spaces, id, v, m) == spaces;
    }
  }

  lemma PutOverDel(spaces: Spaces, id: nat, v: nat, m: UserMapping)
    requires id in spaces
    ensures Put(Del(spaces, id, v), id, v, m) == Put(spaces, id, v, m)
  {
    assert (spaces[id].mappings - {v})[v := m] == spaces[id].mappings[v := m];
  }

  lemma OverwritePage(w: World, id: nat, v: nat, p: PageView, q: PageView)
    requires id in w.spaces
    ensures WithPage(WithPage(w, id, v, p), id, v, q) == WithPage(w, id, v, q)
  {
    assert w.spaces[id].pages[v := p][v := q] == w.spaces[id].pages[v := q];
    assert WithPage(WithPage(w, id, v, p), id, v, q).spaces == WithPage(w, id, v, q).spaces;
  }

  /** A store into shared memory is seen in the shared memory and in no private page. */
  lemma SharedStoreView(fr: Frames, spaces: Spaces, outside: map<nat, nat>, f: nat, page: Page)
    requires Accounted(fr, spaces, outside) && f in outside
    ensures WorldOf(fr.(memory := fr.memory[f := page]), spaces, outside) ==
            WorldOf(fr, spaces, outside).(store := WorldOf(fr, spaces, outside).store[f := page])
  {
    var fr' := fr.(memory := fr.memory[f := page]);
    forall id | id in spaces
      ensures ViewSpace(fr', spaces[id]) == ViewSpace(fr, spaces[id])
    {
      forall v | v in spaces[id].mappings
        ensures ViewPage(fr', spaces[id].mappings[v]) == ViewPage(fr, spaces[id].mappings[v])
      {
        assert Maps(spaces, id, v) && MappingOk(At(spaces, id, v), fr, outside);
      }
      assert ViewSpace(fr', spaces[id]).pages == ViewSpace(fr, spaces[id]).pages;
    }
    assert WorldOf(fr', spaces, outside).spaces == WorldOf(fr, spaces, outside).spaces;
    assert WorldOf(fr', spaces, outside).store == WorldOf(fr, spaces, outside).store[f := page];
  }

  /** Filling a free frame is not seen. */
  lemma FreeStoreView(fr: Frames, spaces: Spaces, outside: map<nat, nat>, f: nat, page: Page)
    requires Accounted(fr, spaces, outside) && f in fr.free
    ensures WorldOf(fr.(memory := fr.memory[f := page]), spaces, outside) == WorldOf(fr, spaces, outside)
  {
    FreeIsUnused(fr, spaces, outside, f);
    UnseenFrames(fr, fr.(memory := fr.memory[f := page]), spaces, outside);
  }

  /** Counts are not seen. */
  lemma SameMemorySameWorld(fr: Frames, fr': Frames, spaces: Spaces, outside: map<nat, nat>)
    requires fr.memory == fr'.memory
    ensures WorldOf(fr, spaces, outside) == WorldOf(fr', spaces, outside)
  {
    UnseenFrames(fr, fr', spaces, outside);
  }

  lemma BytesSeen(fr: Frames, spaces: Spaces, outside: map<nat, nat>, id: nat, v: nat)
    requires Accounted(fr, spaces, outside) && Maps(spaces, id, v)
    ensures Has(WorldOf(fr, spaces, outside), id, v) && At(spaces, id, v).frame in fr.memory
    ensures Bytes(WorldOf(fr, spaces, outside), id, v) == fr.memory[At(spaces, id, v).frame]
  {
    assert MappingOk(At(spaces, id, v), fr, outside);
    ViewAt(fr, spaces, outside, id, v);
  }

  /** A store through a mapping that passed the write check is seen as a store to that page. */
  lemma StoreSeen(fr: Frames, spaces: Spaces, outside: map<nat, nat>, id: nat, v: nat, at: nat, bytes: seq<Byte>)
    requires Accounted(fr, spaces, outside) && Isolated(spaces) && at + |bytes| <= PAGE_SIZE
    requires Maps(spaces, id, v) && (At(spaces, id, v).StoresInPlace() || !At(spaces, id, v).owned)
    ensures Has(WorldOf(fr, spaces, outside), id, v) && At(spaces, id, v).frame in fr.memory
    ensures WorldOf(fr.(memory := fr.memory[At(spaces, id, v).frame :=
                                            Overwrite(fr.memory[At(spaces, id, v).frame], at, bytes)]), spaces, outside)
         == Stored(WorldOf(fr, spaces, outside), id, v, at, bytes)
  {
    var m := At(spaces, id, v);
    BytesSeen(fr, spaces, outside, id, v);
    ViewAt(fr, spaces, outside, id, v);
    assert MappingOk(m, fr, outside);
    var page := Overwrite(fr.memory[m.frame], at, bytes);
    hide Accounted, Isolated, WorldOf, Overwrite;
    if m.owned {
      PrivateStoreView(fr, spaces, outside, id, v, page);
    } else {
      SharedStoreView(fr, spaces, outside, m.frame, page);
    }
  }

  /** A new space without pages. */
  lemma EmptySpaceView(fr: Frames, spaces: Spaces, outside: map<nat, nat>, parent: nat, child: nat, devices: set<nat>)
    requires parent in spaces && child !in spaces
    ensures parent in WorldOf(fr, spaces, outside).spaces
    ensures WorldOf(fr, spaces[child := Space(map[], spaces[parent].vmas)], outside) ==
            PartlyForked(WorldOf(fr, spaces, outside), parent, child, {}, devices)
  {
    var t := spaces[child := Space(map[], spaces[parent].vmas)];
    var w := PartlyForked(WorldOf(fr, spaces, outside), parent, child, {}, devices);
    assert ViewSpace(fr, t[child]).pages == w.spaces[child].pages;
    assert WorldOf(fr, t, outside).spaces == w.spaces;
  }

  lemma RemovedSpaceView(fr: Frames, spaces: Spaces, outside: map<nat, nat>, id: nat)
    ensures WorldOf(fr, spaces - {id}, outside) == Ended(WorldOf(fr, spaces, outside), id)
  {
    assert WorldOf(fr, spaces - {id}, outside).spaces == Ended(WorldOf(fr, spaces, outside), id).spaces;
  }

  lemma PagesSeen(fr: Frames, spaces: Spaces, outside: map<nat, nat>, id: nat)
    requires id in spaces
    ensures id in WorldOf(fr, spaces, outside).spaces
    ensures WorldOf(fr, spaces, outside).spaces[id].pages.Keys == spaces[id].mappings.Keys
    ensures WorldOf(fr, spaces, outside).spaces.Keys == spaces.Keys
  {
  }
}
