/** Frames, reference counts and mappings of all live address spaces. */
module CowState {
  import opened Prelude
  import opened UserMemory

  datatype UserMapping = UserMapping(frame: nat, flags: MapFlags, cow: bool, owned: bool, shared: bool) {
    /** The mapping holds a reference on its frame. */
    predicate Counted() {
      owned || shared
    }

    predicate Refers(f: nat) {
      Counted() && frame == f
    }

    /** A store through the mapping goes straight to the frame. */
    predicate StoresInPlace() {
      owned && !cow && Write in flags
    }

    /** What the owner of the space may do: a copy-on-write page is writable to the owner. */
    function Permits(): MapFlags {
      if cow then flags + {Write} else flags
    }
  }

  datatype Space = Space(mappings: map<nat, UserMapping>, vmas: seq<Vma>)
  type Spaces = map<nat, Space>

  /** Physical memory with the allocator's reference counts; frames without a count that are not in
      `free` are not managed by the allocator. */
  datatype Frames = Frames(memory: map<nat, Page>, counts: map<nat, nat>, free: set<nat>)

  predicate Maps(spaces: Spaces, id: nat, v: nat) {
    id in spaces && v in spaces[id].mappings
  }

  function At(spaces: Spaces, id: nat, v: nat): UserMapping
    requires Maps(spaces, id, v)
  {
    spaces[id].mappings[v]
  }

  function Put(spaces: Spaces, id: nat, v: nat, m: UserMapping): Spaces
    requires id in spaces
  {
    spaces[id := spaces[id].(mappings := spaces[id].mappings[v := m])]
  }

  function Del(spaces: Spaces, id: nat, v: nat): Spaces
    requires id in spaces
  {
    spaces[id := spaces[id].(mappings := spaces[id].mappings - {v})]
  }

  // ---------------------------------------------------------------- references

  /** The mappings that hold a reference on `f`, over all live spaces. */
  ghost function Refs(spaces: Spaces, f: nat): set<(nat, nat)> {
    set id, v | id in spaces && v in spaces[id].mappings && spaces[id].mappings[v].Refers(f) :: (id, v)
  }

  lemma RefsOfPut(spaces: Spaces, id: nat, v: nat, m: UserMapping, f: nat)
    requires id in spaces
    ensures Refs(Put(spaces, id, v, m), f) ==
            if m.Refers(f) then Refs(spaces, f) + {(id, v)} else Refs(spaces, f) - {(id, v)}
  {
    var r := Refs(Put(spaces, id, v, m), f);
    forall k: (nat, nat)
      ensures k in r <==> if k == (id, v) then m.Refers(f) else k in Refs(spaces, f)
    {
    }
  }

  lemma RefsOfDel(spaces: Spaces, id: nat, v: nat, f: nat)
    requires id in spaces
    ensures Refs(Del(spaces, id, v), f) == Refs(spaces, f) - {(id, v)}
  {
    var r := Refs(Del(spaces, id, v), f);
    forall k: (nat, nat)
      ensures k in r <==> k != (id, v) && k in Refs(spaces, f)
    {
    }
  }

  // ---------------------------------------------------------------- accounting

  function Outside(outside: map<nat, nat>, f: nat): nat {
    if f in outside then outside[f] else 0
  }

  /** `outside` gives, for the frames that are not private to address spaces, the references that
      others hold; for unmanaged frames it is meaningless. */
  ghost predicate FramesOk(fr: Frames, outside: map<nat, nat>) {
    && fr.free !! fr.counts.Keys && fr.free !! outside.Keys
    && fr.free <= fr.memory.Keys && fr.counts.Keys <= fr.memory.Keys && outside.Keys <= fr.memory.Keys
    && (forall f :: f in outside && f in fr.counts ==> outside[f] >= 1)
  }

  predicate MappingOk(m: UserMapping, fr: Frames, outside: map<nat, nat>) {
    && (m.owned ==> !m.shared && m.frame in fr.counts && m.frame !in outside)
    && (m.shared ==> m.frame in fr.counts)
    && (!m.owned ==> m.frame in outside && !m.cow)
    && (m.cow ==> Write !in m.flags)
    && (Write in m.Permits() ==> User in m.flags)
  }

  ghost predicate MappingsOk(fr: Frames, spaces: Spaces, outside: map<nat, nat>) {
    forall id: nat, v: nat :: Maps(spaces, id, v) ==> MappingOk(At(spaces, id, v), fr, outside)
  }

  /** The count of a frame is the number of its owned and shared mappings plus outside holders. */
  ghost predicate CountOk(fr: Frames, spaces: Spaces, outside: map<nat, nat>, f: nat) {
    f in fr.counts && fr.counts[f] == |Refs(spaces, f)| + Outside(outside, f) && fr.counts[f] > 0
  }

  ghost predicate Accounted(fr: Frames, spaces: Spaces, outside: map<nat, nat>) {
    && FramesOk(fr, outside)
    && MappingsOk(fr, spaces, outside)
    && (forall f :: f in fr.counts ==> CountOk(fr, spaces, outside, f))
  }

  // ---------------------------------------------------------------- isolation

  /** Two mappings of the same private frame: neither stores in place. */
  predicate NoClash(spaces: Spaces, i: nat, v: nat, j: nat, w: nat) {
    Maps(spaces, i, v) && Maps(spaces, j, w) && (i, v) != (j, w)
    && At(spaces, i, v).owned && At(spaces, j, w).owned
    && At(spaces, i, v).frame == At(spaces, j, w).frame
    ==> !At(spaces, i, v).StoresInPlace()
  }

  ghost predicate Isolated(spaces: Spaces) {
    forall i: nat, v: nat, j: nat, w: nat :: NoClash(spaces, i, v, j, w)
  }

  /** A frame of count one that is mapped and private has no other mapping. */
  lemma CountOneIsExclusive(fr: Frames, spaces: Spaces, outside: map<nat, nat>, i: nat, v: nat, j: nat, w: nat)
    requires Accounted(fr, spaces, outside)
    requires Maps(spaces, i, v) && At(spaces, i, v).owned && fr.counts[At(spaces, i, v).frame] == 1
    requires Maps(spaces, j, w) && At(spaces, j, w).frame == At(spaces, i, v).frame
    ensures (i, v) == (j, w)
  {
    var f := At(spaces, i, v).frame;
    assert MappingOk(At(spaces, i, v), fr, outside) && MappingOk(At(spaces, j, w), fr, outside);
    assert CountOk(fr, spaces, outside, f);
    var r := Refs(spaces, f);
    assert (i, v) in r && (j, w) in r;
    assert |r - {(i, v)}| == 0;
    assert (j, w) !in r - {(i, v)};
  }

  // ---------------------------------------------------------------- what steps keep

  lemma LookupOfPut(spaces: Spaces, id: nat, v: nat, m: UserMapping, j: nat, w: nat)
    requires id in spaces
    ensures Maps(Put(spaces, id, v, m), j, w) <==> (j, w) == (id, v) || Maps(spaces, j, w)
    ensures Maps(Put(spaces, id, v, m), j, w) ==>
              At(Put(spaces, id, v, m), j, w) == if (j, w) == (id, v) then m else At(spaces, j, w)
  {
  }

  /** A free frame, filled with `page`, becomes the private frame of a new mapping. */
  function Installed(fr: Frames, f: nat, page: Page): Frames {
    Frames(fr.memory[f := page], fr.counts[f := 1], fr.free - {f})
  }

  lemma InstallKeepsAccounts(fr: Frames, spaces: Spaces, outside: map<nat, nat>, id: nat, v: nat, m: UserMapping,
                             page: Page)
    requires Accounted(fr, spaces, outside) && id in spaces && !Maps(spaces, id, v)
    requires m.frame in fr.free && m.owned && !m.shared && !m.cow
    requires Write in m.flags ==> User in m.flags
    ensures Accounted(Installed(fr, m.frame, page), Put(spaces, id, v, m), outside)
  {
    var f, fr', t := m.frame, Installed(fr, m.frame, page), Put(spaces, id, v, m);
    forall j: nat, w: nat | Maps(t, j, w)
      ensures MappingOk(At(t, j, w), fr', outside)
    {
      LookupOfPut(spaces, id, v, m, j, w);
      assert (j, w) != (id, v) ==> MappingOk(At(spaces, j, w), fr, outside);
    }
    forall g | g in fr'.counts
      ensures CountOk(fr', t, outside, g)
    {
      RefsOfPut(spaces, id, v, m, g);
      if g == f {
        FreeIsUnused(fr, spaces, outside, f);
      } else {
        assert CountOk(fr, spaces, outside, g);
        assert (id, v) !in Refs(spaces, g);
      }
    }
  }

  lemma FreeIsUnused(fr: Frames, spaces: Spaces, outside: map<nat, nat>, f: nat)
    requires Accounted(fr, spaces, outside) && f in fr.free
    ensures Refs(spaces, f) == {}
    ensures forall i: nat, v: nat :: Maps(spaces, i, v) ==> At(spaces, i, v).frame != f
  {
    assert forall k :: k in Refs(spaces, f) ==> Maps(spaces, k.0, k.1) && At(spaces, k.0, k.1).frame == f;
    forall i: nat, v: nat | Maps(spaces, i, v)
      ensures At(spaces, i, v).frame != f
    {
      assert MappingOk(At(spaces, i, v), fr, outside);
    }
  }

  lemma InstallKeepsIsolation(fr: Frames, spaces: Spaces, outside: map<nat, nat>, id: nat, v: nat, m: UserMapping)
    requires Accounted(fr, spaces, outside) && Isolated(spaces) && id in spaces && m.frame in fr.free
    ensures Isolated(Put(spaces, id, v, m))
  {
    FreeIsUnused(fr, spaces, outside, m.frame);
    var t := Put(spaces, id, v, m);
    forall i: nat, u: nat, j: nat, w: nat
      ensures NoClash(t, i, u, j, w)
    {
      LookupOfPut(spaces, id, v, m, i, u);
      LookupOfPut(spaces, id, v, m, j, w);
      assert NoClash(spaces, i, u, j, w);
    }
  }

  /** One more reference on a frame that is in use already. */
  function Retained(fr: Frames, f: nat): Frames
    requires f in fr.counts
  {
    fr.(counts := fr.counts[f := fr.counts[f] + 1])
  }

  /** The count of a frame is one more than its holders, so it is never given back. */
  ghost predicate Leaked(fr: Frames, spaces: Spaces, outside: map<nat, nat>, f: nat) {
    f in fr.counts && fr.counts[f] == |Refs(spaces, f)| + Outside(outside, f) + 1
  }

  /** A reference that no mapping stands for is leaked. */
  lemma RetainLeaks(fr: Frames, spaces: Spaces, outside: map<nat, nat>, f: nat)
    requires Accounted(fr, spaces, outside) && f in fr.counts
    ensures Leaked(Retained(fr, f), spaces, outside, f) && !Accounted(Retained(fr, f), spaces, outside)
  {
    assert CountOk(fr, spaces, outside, f);
    assert !CountOk(Retained(fr, f), spaces, outside, f);
  }

  lemma ShareKeepsAccounts(fr: Frames, spaces: Spaces, outside: map<nat, nat>, id: nat, v: nat, m: UserMapping)
    requires Accounted(fr, spaces, outside) && id in spaces && !Maps(spaces, id, v)
    requires m.Counted() && MappingOk(m, fr, outside)
    ensures Accounted(Retained(fr, m.frame), Put(spaces, id, v, m), outside)
  {
    var f, fr', t := m.frame, Retained(fr, m.frame), Put(spaces, id, v, m);
    forall j: nat, w: nat | Maps(t, j, w)
      ensures MappingOk(At(t, j, w), fr', outside)
    {
      LookupOfPut(spaces, id, v, m, j, w);
      assert (j, w) != (id, v) ==> MappingOk(At(spaces, j, w), fr, outside);
    }
    forall g | g in fr'.counts
      ensures CountOk(fr', t, outside, g)
    {
      RefsOfPut(spaces, id, v, m, g);
      assert CountOk(fr, spaces, outside, g);
      assert (id, v) !in Refs(spaces, g);
    }
  }

  /** One reference less; the last one gives the frame back. */
  function Released(fr: Frames, f: nat): Frames
    requires f in fr.counts && fr.counts[f] > 0
  {
    if fr.counts[f] == 1 then fr.(counts := fr.counts - {f}, free := fr.free + {f})
    else fr.(counts := fr.counts[f := fr.counts[f] - 1])
  }

  lemma LookupOfDel(spaces: Spaces, id: nat, v: nat, j: nat, w: nat)
    requires id in spaces
    ensures Maps(Del(spaces, id, v), j, w) <==> (j, w) != (id, v) && Maps(spaces, j, w)
    ensures Maps(Del(spaces, id, v), j, w) ==> At(Del(spaces, id, v), j, w) == At(spaces, j, w)
  {
  }

  lemma DropKeepsAccounts(fr: Frames, spaces: Spaces, outside: map<nat, nat>, id: nat, v: nat)
    requires Accounted(fr, spaces, outside) && Maps(spaces, id, v) && At(spaces, id, v).Counted()
    requires At(spaces, id, v).frame in fr.counts && fr.counts[At(spaces, id, v).frame] > 0
    ensures Accounted(Released(fr, At(spaces, id, v).frame), Del(spaces, id, v), outside)
  {
    hide Refs, Del;
    var f := At(spaces, id, v).frame;
    assert MappingOk(At(spaces, id, v), fr, outside) && CountOk(fr, spaces, outside, f);
    DropKeepsMappings(fr, spaces, outside, id, v);
    HasReference(spaces, id, v);
    forall g | g in Released(fr, f).counts
      ensures CountOk(Released(fr, f), Del(spaces, id, v), outside, g)
    {
      assert CountOk(fr, spaces, outside, g);
      DropKeepsCount(fr, spaces, outside, id, v, g);
    }
  }

  lemma HasReference(spaces: Spaces, id: nat, v: nat)
    requires Maps(spaces, id, v) && At(spaces, id, v).Counted()
    ensures |Refs(spaces, At(spaces, id, v).frame)| > 0
  {
    assert (id, v) in Refs(spaces, At(spaces, id, v).frame);
  }

  lemma DropKeepsMappings(fr: Frames, spaces: Spaces, outside: map<nat, nat>, id: nat, v: nat)
    requires Accounted(fr, spaces, outside) && Maps(spaces, id, v) && At(spaces, id, v).Counted()
    requires At(spaces, id, v).frame in fr.counts && fr.counts[At(spaces, id, v).frame] > 0
    ensures MappingsOk(Released(fr, At(spaces, id, v).frame), Del(spaces, id, v), outside)
  {
    hide Refs, CountOk;
    var f, fr', t := At(spaces, id, v).frame, Released(fr, At(spaces, id, v).frame), Del(spaces, id, v);
    forall j: nat, w: nat | Maps(t, j, w)
      ensures MappingOk(At(t, j, w), fr', outside)
    {
      LookupOfDel(spaces, id, v, j, w);
      var n := At(spaces, j, w);
      assert MappingOk(n, fr, outside);
      if n.Counted() && n.frame == f && fr.counts[f] == 1 {
        LastReference(fr, spaces, outside, id, v, j, w);
      }
    }
  }

  lemma DropKeepsCount(fr: Frames, spaces: Spaces, outside: map<nat, nat>, id: nat, v: nat, g: nat)
    requires Maps(spaces, id, v) && At(spaces, id, v).Counted()
    requires At(spaces, id, v).frame in fr.counts && fr.counts[At(spaces, id, v).frame] > 0
    requires CountOk(fr, spaces, outside, g) && g in Released(fr, At(spaces, id, v).frame).counts
    ensures CountOk(Released(fr, At(spaces, id, v).frame), Del(spaces, id, v), outside, g)
  {
    RefsOfDel(spaces, id, v, g);
    assert (id, v) in Refs(spaces, g) <==> g == At(spaces, id, v).frame;
  }

  lemma LastReference(fr: Frames, spaces: Spaces, outside: map<nat, nat>, i: nat, v: nat, j: nat, w: nat)
    requires Accounted(fr, spaces, outside)
    requires Maps(spaces, i, v) && At(spaces, i, v).Counted()
    requires Maps(spaces, j, w) && At(spaces, j, w).Counted() && At(spaces, j, w).frame == At(spaces, i, v).frame
    requires At(spaces, i, v).frame in fr.counts && fr.counts[At(spaces, i, v).frame] == 1
    ensures (i, v) == (j, w)
  {
    var f := At(spaces, i, v).frame;
    assert CountOk(fr, spaces, outside, f);
    var r := Refs(spaces, f);
    assert (i, v) in r && (j, w) in r;
    assert |r - {(i, v)}| == |r| - 1;
    assert (j, w) !in r - {(i, v)};
  }

  lemma DropKeepsIsolation(spaces: Spaces, id: nat, v: nat)
    requires Isolated(spaces) && id in spaces
    ensures Isolated(Del(spaces, id, v))
  {
    var t := Del(spaces, id, v);
    forall i: nat, u: nat, j: nat, w: nat
      ensures NoClash(t, i, u, j, w)
    {
      LookupOfDel(spaces, id, v, i, u);
      LookupOfDel(spaces, id, v, j, w);
      assert NoClash(spaces, i, u, j, w);
    }
  }

  /** A mapping changes its permissions and keeps its frame. */
  lemma RetagKeepsAccounts(fr: Frames, spaces: Spaces, outside: map<nat, nat>, id: nat, v: nat, m: UserMapping)
    requires Accounted(fr, spaces, outside) && Maps(spaces, id, v) && MappingOk(m, fr, outside)
    requires m.frame == At(spaces, id, v).frame && m.Counted() == At(spaces, id, v).Counted()
    ensures Accounted(fr, Put(spaces, id, v, m), outside)
  {
    var t := Put(spaces, id, v, m);
    forall j: nat, w: nat | Maps(t, j, w)
      ensures MappingOk(At(t, j, w), fr, outside)
    {
      LookupOfPut(spaces, id, v, m, j, w);
      assert (j, w) != (id, v) ==> MappingOk(At(spaces, j, w), fr, outside);
    }
    forall g | g in fr.counts
      ensures CountOk(fr, t, outside, g)
    {
      RefsOfPut(spaces, id, v, m, g);
      assert CountOk(fr, spaces, outside, g);
      assert Refs(t, g) == Refs(spaces, g);
    }
  }

  /** Giving a just installed frame back is as if nothing had been taken. */
  lemma UninstallKeepsAccounts(fr: Frames, spaces: Spaces, outside: map<nat, nat>, f: nat, page: Page)
    requires Accounted(fr, spaces, outside) && f in fr.free
    ensures Accounted(Released(Installed(fr, f, page), f), spaces, outside)
    ensures Released(Installed(fr, f, page), f) == fr.(memory := fr.memory[f := page])
  {
    var fr' := Released(Installed(fr, f, page), f);
    assert fr'.counts == fr.counts;
    assert fr'.free == fr.free;
    forall id: nat, v: nat | Maps(spaces, id, v)
      ensures MappingOk(At(spaces, id, v), fr', outside)
    {
      assert MappingOk(At(spaces, id, v), fr, outside);
    }
    forall g | g in fr'.counts
      ensures CountOk(fr', spaces, outside, g)
    {
      assert CountOk(fr, spaces, outside, g);
    }
  }

  /** Contents do not matter for the accounts. */
  lemma StoreKeepsAccounts(fr: Frames, spaces: Spaces, outside: map<nat, nat>, f: nat, page: Page)
    requires Accounted(fr, spaces, outside) && f in fr.memory
    ensures Accounted(fr.(memory := fr.memory[f := page]), spaces, outside)
  {
    var fr' := fr.(memory := fr.memory[f := page]);
    forall id: nat, v: nat | Maps(spaces, id, v)
      ensures MappingOk(At(spaces, id, v), fr', outside)
    {
      assert MappingOk(At(spaces, id, v), fr, outside);
    }
    forall g | g in fr'.counts
      ensures CountOk(fr', spaces, outside, g)
    {
      assert CountOk(fr, spaces, outside, g);
    }
  }

  /** A mapping that holds no reference comes or goes. */
  lemma UncountedKeepsAccounts(fr: Frames, spaces: Spaces, outside: map<nat, nat>, id: nat, v: nat, m: UserMapping)
    requires Accounted(fr, spaces, outside) && id in spaces && !Maps(spaces, id, v)
    requires !m.Counted() && MappingOk(m, fr, outside)
    ensures Accounted(fr, Put(spaces, id, v, m), outside)
  {
    var t := Put(spaces, id, v, m);
    forall j: nat, w: nat | Maps(t, j, w)
      ensures MappingOk(At(t, j, w), fr, outside)
    {
      LookupOfPut(spaces, id, v, m, j, w);
      assert (j, w) != (id, v) ==> MappingOk(At(spaces, j, w), fr, outside);
    }
    forall g | g in fr.counts
      ensures CountOk(fr, t, outside, g)
    {
      RefsOfPut(spaces, id, v, m, g);
      assert CountOk(fr, spaces, outside, g);
      assert Refs(t, g) == Refs(spaces, g);
    }
  }

  lemma DropUncountedKeepsAccounts(fr: Frames, spaces: Spaces, outside: map<nat, nat>, id: nat, v: nat)
    requires Accounted(fr, spaces, outside) && Maps(spaces, id, v) && !At(spaces, id, v).Counted()
    ensures Accounted(fr, Del(spaces, id, v), outside)
  {
    var t := Del(spaces, id, v);
    forall j: nat, w: nat | Maps(t, j, w)
      ensures MappingOk(At(t, j, w), fr, outside)
    {
      LookupOfDel(spaces, id, v, j, w);
      assert MappingOk(At(spaces, j, w), fr, outside);
    }
    forall g | g in fr.counts
      ensures CountOk(fr, t, outside, g)
    {
      RefsOfDel(spaces, id, v, g);
      assert CountOk(fr, spaces, outside, g);
      assert Refs(t, g) == Refs(spaces, g);
    }
  }

  /** An empty space appears or disappears. */
  lemma EmptySpaceKeepsAccounts(fr: Frames, spaces: Spaces, outside: map<nat, nat>, id: nat, vmas: seq<Vma>)
    requires Accounted(fr, spaces, outside) && Isolated(spaces)
    requires id in spaces ==> spaces[id].mappings == map[]
    ensures Accounted(fr, spaces[id := Space(map[], vmas)], outside) && Isolated(spaces[id := Space(map[], vmas)])
    ensures Accounted(fr, spaces - {id}, outside) && Isolated(spaces - {id})
  {
    SameMappingsSameAccounts(fr, spaces, spaces[id := Space(map[], vmas)], outside);
    SameMappingsSameAccounts(fr, spaces, spaces - {id}, outside);
  }

  lemma SameMappingsSameAccounts(fr: Frames, spaces: Spaces, t: Spaces, outside: map<nat, nat>)
    requires Accounted(fr, spaces, outside) && Isolated(spaces)
    requires forall j: nat, w: nat :: Maps(t, j, w) <==> Maps(spaces, j, w)
    requires forall j: nat, w: nat :: Maps(t, j, w) ==> At(t, j, w) == At(spaces, j, w)
    ensures Accounted(fr, t, outside) && Isolated(t)
  {
    forall j: nat, w: nat | Maps(t, j, w)
      ensures MappingOk(At(t, j, w), fr, outside)
    {
      assert MappingOk(At(spaces, j, w), fr, outside);
    }
    forall g
      ensures Refs(t, g) == Refs(spaces, g)
    {
      assert forall k :: k in Refs(t, g) ==> Maps(t, k.0, k.1) && At(t, k.0, k.1).Refers(g);
      assert forall k :: k in Refs(spaces, g) ==> Maps(t, k.0, k.1) && At(t, k.0, k.1).Refers(g);
      assert forall k: (nat, nat) :: Maps(t, k.0, k.1) && At(t, k.0, k.1).Refers(g) ==>
               k in Refs(t, g) && k in Refs(spaces, g);
    }
    forall g | g in fr.counts
      ensures CountOk(fr, t, outside, g)
    {
      assert CountOk(fr, spaces, outside, g);
    }
    forall i: nat, u: nat, j: nat, w: nat
      ensures NoClash(t, i, u, j, w)
    {
      assert NoClash(spaces, i, u, j, w);
    }
  }

  /** A mapping whose new permissions do not let it store in place. */
  lemma CalmRetagKeepsIsolation(spaces: Spaces, id: nat, v: nat, m: UserMapping)
    requires Isolated(spaces) && Maps(spaces, id, v) && !m.StoresInPlace()
    requires m.frame == At(spaces, id, v).frame && m.owned == At(spaces, id, v).owned
    ensures Isolated(Put(spaces, id, v, m))
  {
    var t := Put(spaces, id, v, m);
    forall i: nat, u: nat, j: nat, w: nat
      ensures NoClash(t, i, u, j, w)
    {
      LookupOfPut(spaces, id, v, m, i, u);
      LookupOfPut(spaces, id, v, m, j, w);
      assert NoClash(spaces, i, u, j, w);
    }
  }

  /** A second mapping of a frame, neither of which stores in place. */
  lemma ShareKeepsIsolation(spaces: Spaces, id: nat, v: nat, m: UserMapping, from: nat, u: nat)
    requires Isolated(spaces) && id in spaces && !Maps(spaces, id, v) && !m.StoresInPlace()
    requires Maps(spaces, from, u) && At(spaces, from, u).frame == m.frame
    requires At(spaces, from, u).owned && !At(spaces, from, u).StoresInPlace()
    ensures Isolated(Put(spaces, id, v, m))
  {
    var t := Put(spaces, id, v, m);
    forall i: nat, x: nat, j: nat, y: nat
      ensures NoClash(t, i, x, j, y)
    {
      LookupOfPut(spaces, id, v, m, i, x);
      LookupOfPut(spaces, id, v, m, j, y);
      assert NoClash(spaces, i, x, j, y) && NoClash(spaces, i, x, from, u);
    }
  }

  lemma ForeignKeepsIsolation(spaces: Spaces, id: nat, v: nat, m: UserMapping)
    requires Isolated(spaces) && id in spaces && !m.owned
    ensures Isolated(Put(spaces, id, v, m))
  {
    var t := Put(spaces, id, v, m);
    forall i: nat, x: nat, j: nat, y: nat
      ensures NoClash(t, i, x, j, y)
    {
      LookupOfPut(spaces, id, v, m, i, x);
      LookupOfPut(spaces, id, v, m, j, y);
      assert NoClash(spaces, i, x, j, y);
    }
  }

  /** With count one, a mapping may be made writable in place. */
  lemma SoleOwnerKeepsIsolation(fr: Frames, spaces: Spaces, outside: map<nat, nat>, id: nat, v: nat, m: UserMapping)
    requires Accounted(fr, spaces, outside) && Isolated(spaces) && Maps(spaces, id, v) && At(spaces, id, v).owned
    requires m.frame == At(spaces, id, v).frame && m.frame in fr.counts && fr.counts[m.frame] == 1
    ensures Isolated(Put(spaces, id, v, m))
  {
    var t := Put(spaces, id, v, m);
    forall i: nat, x: nat, j: nat, y: nat
      ensures NoClash(t, i, x, j, y)
    {
      LookupOfPut(spaces, id, v, m, i, x);
      LookupOfPut(spaces, id, v, m, j, y);
      assert NoClash(spaces, i, x, j, y);
      if Maps(spaces, i, x) && At(spaces, i, x).frame == m.frame {
        CountOneIsExclusive(fr, spaces, outside, id, v, i, x);
      }
      if Maps(spaces, j, y) && At(spaces, j, y).frame == m.frame {
        CountOneIsExclusive(fr, spaces, outside, id, v, j, y);
      }
    }
  }
}
