/** What processes can see of their memory, without frames, counts and copy-on-write marks. Here a
    fork is an eager copy and a page is either private or an alias of memory shared with others. */
module CowWorld {
  import opened Prelude
  import opened UserMemory
  import opened LazyPages

  datatype PageView =
    | Private(bytes: Page, flags: MapFlags)
    | Alias(frame: nat, flags: MapFlags)

  datatype SpaceView = SpaceView(pages: map<nat, PageView>, vmas: seq<Vma>)

  /** `store` holds the memory that pages can be aliases of. */
  datatype World = World(spaces: map<nat, SpaceView>, store: map<nat, Page>)

  predicate Has(w: World, id: nat, v: nat) {
    id in w.spaces && v in w.spaces[id].pages
  }

  function PageAt(w: World, id: nat, v: nat): PageView
    requires Has(w, id, v)
  {
    w.spaces[id].pages[v]
  }

  function WithPage(w: World, id: nat, v: nat, page: PageView): World
    requires id in w.spaces
  {
    w.(spaces := w.spaces[id := w.spaces[id].(pages := w.spaces[id].pages[v := page])])
  }

  function Bytes(w: World, id: nat, v: nat): Page
    requires Has(w, id, v)
  {
    match PageAt(w, id, v)
    case Private(bytes, flags) => bytes
    case Alias(frame, flags) => if frame in w.store then w.store[frame] else ZeroPage()
  }

  /** `bytes` stored into one page. */
  function Stored(w: World, id: nat, v: nat, at: nat, bytes: seq<Byte>): World
    requires Has(w, id, v) && at + |bytes| <= PAGE_SIZE
  {
    match PageAt(w, id, v)
    case Private(page, flags) => WithPage(w, id, v, Private(Overwrite(page, at, bytes), flags))
    case Alias(frame, flags) => w.(store := w.store[frame := Overwrite(Bytes(w, id, v), at, bytes)])
  }

  /** Makes the page of `address` present and, for a write, checks that it is writable. */
  function Accessed(w: World, id: nat, address: nat, write: bool): Result<World, BuildError>
    requires id in w.spaces
  {
    var v := AlignDown(address);
    if Has(w, id, v) then
      if write && Write !in PageAt(w, id, v).flags then Err(NotMapped) else Ok(w)
    else
      match LazyLoad(w.spaces[id].vmas, v, write)
      case Err(e) => Err(e)
      case Ok(None) => Err(NotMapped)
      case Ok(Some(loaded)) => Ok(WithPage(w, id, v, Private(loaded.0, loaded.1)))
  }

  lemma AccessedHas(w: World, id: nat, address: nat, write: bool)
    requires id in w.spaces && Accessed(w, id, address, write).Ok?
    ensures Has(Accessed(w, id, address, write).value, id, AlignDown(address))
  {
  }

  function ChunkLen(address: nat, len: nat): (n: nat)
    requires len > 0
    ensures 0 < n <= len && address - AlignDown(address) + n <= PAGE_SIZE
  {
    Min(len, PAGE_SIZE - (address - AlignDown(address)))
  }

  /** The outcome of reading `len` bytes, page by page. */
  function ReadFrom(w: World, id: nat, address: nat, len: nat): (World, Result<seq<Byte>, BuildError>)
    requires id in w.spaces
    decreases len
  {
    if len == 0 then (w, Ok([]))
    else
      var access := Accessed(w, id, address, false);
      if access.Err? then (w, Err(access.error))
      else
        AccessedHas(w, id, address, false);
        var at, n := address - AlignDown(address), ChunkLen(address, len);
        var chunk := Bytes(access.value, id, AlignDown(address))[at..at + n];
        if address + n > U64_MAX then (access.value, Err(AddressOverflow))
        else
          var rest := ReadFrom(access.value, id, address + n, len - n);
          (rest.0, if rest.1.Err? then rest.1 else Ok(chunk + rest.1.value))
  }

  /** The outcome of writing `bytes`, page by page; a failure keeps what was written before it. */
  function WriteTo(w: World, id: nat, address: nat, bytes: seq<Byte>): (World, Result<nat, BuildError>)
    requires id in w.spaces
    decreases |bytes|
  {
    if bytes == [] then (w, Ok(0))
    else
      var access := Accessed(w, id, address, true);
      if access.Err? then (w, Err(access.error))
      else
        AccessedHas(w, id, address, true);
        var at, n := address - AlignDown(address), ChunkLen(address, |bytes|);
        var w' := Stored(access.value, id, AlignDown(address), at, bytes[..n]);
        if address + n > U64_MAX then (w', Err(AddressOverflow))
        else
          var rest := WriteTo(w', id, address + n, bytes[n..]);
          (rest.0, if rest.1.Err? then rest.1 else Ok(n + rest.1.value))
  }

  function Forked(w: World, parent: nat, child: nat): World
    requires parent in w.spaces
  {
    w.(spaces := w.spaces[child := w.spaces[parent]])
  }

  function Unmapped(w: World, id: nat, v: nat): World
    requires id in w.spaces
  {
    w.(spaces := w.spaces[id := w.spaces[id].(pages := w.spaces[id].pages - {v})])
  }

  function Ended(w: World, id: nat): World {
    w.(spaces := w.spaces - {id})
  }

  /** What an eager copy gives the child: `devices` are the pages of device memory, which it copies into
      private pages like any other page that is not shared. */
  function CopiedPage(w: World, parent: nat, v: nat, devices: set<nat>): PageView
    requires Has(w, parent, v)
  {
    if v in devices then Private(Bytes(w, parent, v), PageAt(w, parent, v).flags) else PageAt(w, parent, v)
  }

  /** A fork that has dealt with the pages `done` so far. */
  function PartlyForked(w: World, parent: nat, child: nat, done: set<nat>, devices: set<nat>): World
    requires parent in w.spaces
  {
    var space := w.spaces[parent];
    var pages := map v | v in space.pages && v in done :: CopiedPage(w, parent, v, devices);
    w.(spaces := w.spaces[child := SpaceView(pages, space.vmas)])
  }

  function EagerlyForked(w: World, parent: nat, child: nat, devices: set<nat>): World
    requires parent in w.spaces
  {
    PartlyForked(w, parent, child, w.spaces[parent].pages.Keys, devices)
  }

  lemma ForkProceeds(w: World, parent: nat, child: nat, done: set<nat>, devices: set<nat>, v: nat)
    requires Has(w, parent, v) && child != parent
    ensures WithPage(PartlyForked(w, parent, child, done, devices), child, v, CopiedPage(w, parent, v, devices)) ==
            PartlyForked(w, parent, child, done + {v}, devices)
  {
    var a := WithPage(PartlyForked(w, parent, child, done, devices), child, v, CopiedPage(w, parent, v, devices));
    var b := PartlyForked(w, parent, child, done + {v}, devices);
    assert a.spaces[child].pages == b.spaces[child].pages;
    assert a.spaces == b.spaces;
  }

  /** Sharing and copying forks look alike exactly if the parent maps no device memory. */
  lemma ForksLookAlike(w: World, parent: nat, child: nat, devices: set<nat>)
    requires parent in w.spaces && child != parent && devices <= w.spaces[parent].pages.Keys
    requires forall v :: v in devices ==> w.spaces[parent].pages[v].Alias?
    ensures EagerlyForked(w, parent, child, devices) == Forked(w, parent, child) <==> devices == {}
  {
    var a, b := EagerlyForked(w, parent, child, devices), Forked(w, parent, child);
    if devices == {} {
      assert a.spaces[child].pages == b.spaces[child].pages;
      assert a.spaces == b.spaces;
    } else {
      var v :| v in devices;
      assert Has(w, parent, v);
      assert a.spaces[child].pages[v].Private? && b.spaces[child].pages[v].Alias?;
    }
  }

  function AfterPrefix(buffer: seq<Byte>, rest: (World, Result<seq<Byte>, BuildError>))
    : (World, Result<seq<Byte>, BuildError>)
  {
    (rest.0, if rest.1.Err? then rest.1 else Ok(buffer + rest.1.value))
  }

  lemma AfterPrefixes(a: seq<Byte>, b: seq<Byte>, rest: (World, Result<seq<Byte>, BuildError>))
    ensures AfterPrefix(a, AfterPrefix(b, rest)) == AfterPrefix(a + b, rest)
  {
    if rest.1.Ok? {
      assert a + (b + rest.1.value) == (a + b) + rest.1.value;
    }
  }

  function AfterCount(n: nat, rest: (World, Result<nat, BuildError>)): (World, Result<nat, BuildError>) {
    (rest.0, if rest.1.Err? then rest.1 else Ok(n + rest.1.value))
  }

  lemma AfterNothing(rest: (World, Result<seq<Byte>, BuildError>))
    ensures AfterPrefix([], rest) == rest
  {
    if rest.1.Ok? {
      assert [] + rest.1.value == rest.1.value;
    }
  }

  lemma ReadFails(w: World, id: nat, address: nat, len: nat)
    requires id in w.spaces && len > 0 && Accessed(w, id, address, false).Err?
    ensures ReadFrom(w, id, address, len) == (w, Err(Accessed(w, id, address, false).error))
  {
  }

  /** The first page of a read, and the rest of it from the state that leaves. */
  lemma ReadProceeds(w: World, w': World, id: nat, address: nat, len: nat, n: nat, chunk: seq<Byte>)
    requires id in w.spaces && id in w'.spaces && len > 0
    requires Accessed(w, id, address, false) == Ok(w') && n == ChunkLen(address, len)
    requires Has(w', id, AlignDown(address))
    requires chunk == Bytes(w', id, AlignDown(address))[address - AlignDown(address)..address - AlignDown(address) + n]
    ensures address + n > U64_MAX ==> ReadFrom(w, id, address, len) == (w', Err(AddressOverflow))
    ensures address + n <= U64_MAX ==>
              ReadFrom(w, id, address, len) == AfterPrefix(chunk, ReadFrom(w', id, address + n, len - n))
  {
    hide Accessed, Bytes;
  }

  lemma WriteFails(w: World, id: nat, address: nat, bytes: seq<Byte>)
    requires id in w.spaces && bytes != [] && Accessed(w, id, address, true).Err?
    ensures WriteTo(w, id, address, bytes) == (w, Err(Accessed(w, id, address, true).error))
  {
  }

  lemma WriteProceeds(w: World, w': World, w'': World, id: nat, address: nat, bytes: seq<Byte>, n: nat)
    requires id in w.spaces && id in w''.spaces && bytes != []
    requires Accessed(w, id, address, true) == Ok(w') && n == ChunkLen(address, |bytes|)
    requires Has(w', id, AlignDown(address))
    requires w'' == Stored(w', id, AlignDown(address), address - AlignDown(address), bytes[..n])
    ensures address + n > U64_MAX ==> WriteTo(w, id, address, bytes) == (w'', Err(AddressOverflow))
    ensures address + n <= U64_MAX ==>
              WriteTo(w, id, address, bytes) == AfterCount(n, WriteTo(w'', id, address + n, bytes[n..]))
  {
    hide Accessed, Stored;
  }

  /** What one space writes, no other space sees, except through memory they share. */
  lemma {:induction false} WritesAreIsolated(w: World, id: nat, address: nat, bytes: seq<Byte>, other: nat)
    requires id in w.spaces && other in w.spaces && other != id
    ensures other in WriteTo(w, id, address, bytes).0.spaces
    ensures WriteTo(w, id, address, bytes).0.spaces[other] == w.spaces[other]
    decreases |bytes|
  {
    hide LazyLoad, Overwrite;
    if bytes != [] && Accessed(w, id, address, true).Ok? {
      AccessedHas(w, id, address, true);
      var n := ChunkLen(address, |bytes|);
      var w' := Stored(Accessed(w, id, address, true).value, id, AlignDown(address), address - AlignDown(address),
                       bytes[..n]);
      if address + n <= U64_MAX {
        WritesAreIsolated(w', id, address + n, bytes[n..], other);
      }
    }
  }
}
