/** Pages, permissions and virtual memory areas of a user address space. */
module UserMemory {
  import opened Prelude

  type Byte = b: int | 0 <= b < 256
  type Page = p: seq<Byte> | |p| == PAGE_SIZE witness seq(PAGE_SIZE, (i: nat) => 0)

  function ZeroPage(): (page: Page)
    ensures forall k :: 0 <= k < PAGE_SIZE ==> page[k] == 0
  {
    seq(PAGE_SIZE, (i: nat) => 0)
  }

  datatype Flag = Read | Write | Execute | User | NoCache | WriteThrough
  type MapFlags = set<Flag>

  datatype BuildError = AddressOverflow | NotMapped | AlreadyMapped | OutOfMemory | UnexpectedEof

  /** What backs an area. `PagedImage` counts its offset from the start of the area,
      `ElfSegmentImage` from a fixed address. A program image never changes. */
  datatype VmaKind =
    | Program | Heap | Stack | Anonymous | Shared | Device
    | PagedImage(source: seq<Byte>, imageOffset: nat, imageLen: nat)
    | ElfSegmentImage(source: seq<Byte>, segmentStart: nat, imageOffset: nat, imageLen: nat, order: nat)

  datatype Vma = Vma(start: nat, end: nat, flags: MapFlags, kind: VmaKind, lazy: bool) {
    function LazyOrder(): nat {
      if kind.ElfSegmentImage? then kind.order else 0
    }

    predicate Contains(a: nat) {
      start <= a < end
    }
  }

  predicate IsAligned(a: nat) {
    a % PAGE_SIZE == 0
  }

  function AlignDown(a: nat): (r: nat)
    ensures IsAligned(r) && r <= a < r + PAGE_SIZE
  {
    a - a % PAGE_SIZE
  }

  function AlignUp(a: nat): (r: nat)
    ensures IsAligned(r) && a <= r < a + PAGE_SIZE
  {
    AlignDown(a + PAGE_SIZE - 1)
  }

  /** Two different aligned addresses are at least a page apart. */
  lemma AlignedApart(a: nat, b: nat)
    requires IsAligned(a) && IsAligned(b) && a < b
    ensures a + PAGE_SIZE <= b
  {
  }

  /** The page with `bytes` stored from offset `at` on. */
  function Overwrite(page: Page, at: nat, bytes: seq<Byte>): Page
    requires at + |bytes| <= PAGE_SIZE
  {
    page[..at] + bytes + page[at + |bytes|..]
  }
}
