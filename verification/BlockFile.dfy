/** A block device seen as one flat array of bytes. */
module BlockFile {
  import opened Prelude
  import opened UserMemory

  datatype FsError = InvalidInput | DeviceError

  /** `data` with `bytes` stored from `at` on. */
  function Stored(data: seq<Byte>, at: nat, bytes: seq<Byte>): (r: seq<Byte>)
    requires at + |bytes| <= |data|
    ensures |r| == |data|
  {
    data[..at] + bytes + data[at + |bytes|..]
  }

  /** Storing one piece behind another is storing both. */
  lemma StoredTwice(data: seq<Byte>, at: nat, x: seq<Byte>, y: seq<Byte>)
    requires at + |x| + |y| <= |data|
    ensures Stored(Stored(data, at, x), at + |x|, y) == Stored(data, at, x + y)
  {
  }

  /** Storing a whole block with a part of it replaced stores just that part. */
  lemma StoredInBlock(data: seq<Byte>, start: nat, size: nat, within: nat, bytes: seq<Byte>)
    requires start + size <= |data| && within + |bytes| <= size
    ensures Stored(data, start, Stored(data[start..start + size], within, bytes)) == Stored(data, start + within, bytes)
  {
  }

  /** The bytes of `n` blocks. */
  function Span(n: nat, size: nat): nat {
    n * size
  }

  lemma Scale(a: nat, b: nat, size: nat)
    requires a <= b
    ensures Span(a, size) <= Span(b, size)
  {
  }

  lemma Single(size: nat)
    ensures Span(1, size) == size
  {
  }

  /** Blocks `block` to `block + n` lie inside the device if the next `Span(n, size)` bytes do. */
  lemma NextBlocks(block: nat, n: nat, size: nat)
    ensures Span(block + n, size) == Span(block, size) + Span(n, size)
  {
  }

  lemma BlockFits(block: nat, size: nat, count: nat)
    requires size > 0 && Span(block, size) < Span(count, size)
    ensures block + 1 <= count && Span(block, size) + size <= Span(count, size)
  {
    if block >= count {
      Scale(count, block, size);
    } else {
      Scale(block + 1, count, size);
      NextBlocks(block, 1, size);
    }
  }

  /** How many whole blocks `n` bytes make up. */
  function WholeBlocks(n: nat, size: nat): nat
    requires size > 0
  {
    n / size
  }

  function Remainder(n: nat, size: nat): (r: nat)
    requires size > 0
    ensures r < size && n == Span(WholeBlocks(n, size), size) + r
  {
    n % size
  }

  /** A device of `blockCount` blocks that moves whole blocks: a transfer fails or moves at least one
      block, from the first on. */
  class BlockDevice {
    const blockSize: nat
    const blockCount: nat
    var data: seq<Byte>

    predicate Valid()
      reads this
    {
      blockSize > 0 && |data| == Span(blockCount, blockSize)
    }

    constructor (blockSize: nat, blockCount: nat, data: seq<Byte>)
      requires blockSize > 0 && |data| == Span(blockCount, blockSize)
      ensures Valid() && this.data == data && this.blockSize == blockSize && this.blockCount == blockCount
    {
      this.blockSize, this.blockCount, this.data := blockSize, blockCount, data;
    }

    /** Reads up to `count` blocks. */
    method ReadBlocks(block: nat, count: nat) returns (r: Result<seq<Byte>, FsError>, n: nat)
      requires Valid() && 0 < count && Span(block, blockSize) + Span(count, blockSize) <= |data|
      ensures r.Ok? ==> 0 < n <= count && |r.value| == Span(n, blockSize) <= Span(count, blockSize)
      ensures r.Ok? ==> Span(block, blockSize) + |r.value| <= |data|
      ensures r.Ok? ==> r.value == data[Span(block, blockSize)..Span(block, blockSize) + |r.value|]
    {
      if * {
        return Err(DeviceError), 0;
      }
      n :| 0 < n <= count;
      Scale(n, count, blockSize);
      r := Ok(data[Span(block, blockSize)..Span(block, blockSize) + Span(n, blockSize)]);
    }

    /** Writes up to `count` blocks. */
    method WriteBlocks(block: nat, count: nat, bytes: seq<Byte>) returns (r: Result<nat, FsError>, n: nat)
      requires Valid() && 0 < count && |bytes| == Span(count, blockSize) && Span(block, blockSize) + |bytes| <= |data|
      modifies this
      ensures Valid()
      ensures r.Err? ==> data == old(data)
      ensures r.Ok? ==> 0 < n <= count && r.value == Span(n, blockSize) <= |bytes|
      ensures r.Ok? ==> data == Stored(old(data), Span(block, blockSize), bytes[..r.value])
    {
      if * {
        return Err(DeviceError), 0;
      }
      n :| 0 < n <= count;
      Scale(n, count, blockSize);
      data := Stored(data, Span(block, blockSize), bytes[..Span(n, blockSize)]);
      r := Ok(Span(n, blockSize));
    }

    /** Makes the device keep what it was given, which may fail when the blocks are already written. */
    method Flush() returns (r: Result<(), FsError>)
    {
      if * {
        return Err(DeviceError);
      }
      r := Ok(());
    }
  }

  /** `data'` is `data` after the first `n` bytes of `buffer` were written at `offset`. */
  predicate WroteSome(data: seq<Byte>, data': seq<Byte>, offset: nat, buffer: seq<Byte>, n: nat) {
    n <= |buffer| && offset + n <= |data| && data' == Stored(data, offset, buffer[..n])
  }

  /** Reads up to `len` bytes; what is read is what the array holds there, and something is read if
      there is anything to read. */
  method ReadFile(device: BlockDevice, offset: nat, len: nat) returns (r: Result<seq<Byte>, FsError>)
    requires device.Valid()
    ensures r.Ok? ==> |r.value| <= len && offset + |r.value| <= Max(offset, |device.data|)
    ensures r.Ok? && offset < |device.data| ==> r.value == device.data[offset..offset + |r.value|]
    ensures r.Ok? && offset < |device.data| && len > 0 ==> r.value != []
  {
    hide Span, WholeBlocks, Remainder;
    var data, size := device.data, device.blockSize;
    if offset >= |data| {
      return Ok([]);
    }
    var want := Min(len, |data| - offset);
    var copied: seq<Byte> := [];
    var block: nat, blockOffset: nat := WholeBlocks(offset, size), Remainder(offset, size);
    while |copied| < want
      invariant |copied| <= want && blockOffset < size
      invariant copied == data[offset..offset + |copied|]
      invariant |copied| < want ==> Span(block, size) + blockOffset == offset + |copied|
    {
      var remaining := want - |copied|;
      var blocks := WholeBlocks(remaining, size);
      ghost var rest := Remainder(remaining, size);
      if blockOffset == 0 && blocks != 0 {
        var more, n := ReadWhole(device, block, blocks, offset + |copied|);
        if more.Err? {
          return Err(more.error);
        }
        copied := Extended(data, offset, copied, more.value);
        NextBlocks(block, n, size);
        block := block + n;
        if n < blocks {
          break;
        }
        continue;
      }
      var chunk := ReadPart(device, block, blockOffset, remaining);
      if chunk.Err? {
        return Err(chunk.error);
      }
      copied := Extended(data, offset, copied, chunk.value);
      NextBlocks(block, 1, size);
      Single(size);
      block, blockOffset := block + 1, 0;
    }
    r := Ok(copied);
  }

  /** Reads whole blocks straight into the buffer; `at` is where they begin. */
  method ReadWhole(device: BlockDevice, block: nat, blocks: nat, at: nat)
    returns (r: Result<seq<Byte>, FsError>, n: nat)
    requires device.Valid() && 0 < blocks && Span(block, device.blockSize) == at
             && at + Span(blocks, device.blockSize) <= |device.data|
    ensures r.Ok? ==>
              0 < n <= blocks && |r.value| == Span(n, device.blockSize) <= Span(blocks, device.blockSize)
              && r.value != []
    ensures r.Ok? ==> r.value == device.data[at..at + |r.value|]
  {
    hide Span;
    r, n := device.ReadBlocks(block, blocks);
    if r.Ok? {
      Single(device.blockSize);
      Scale(1, n, device.blockSize);
    }
  }

  /** Reads part of one block through a scratch buffer. */
  method ReadPart(device: BlockDevice, block: nat, at: nat, remaining: nat)
    returns (r: Result<seq<Byte>, FsError>)
    requires device.Valid() && at < device.blockSize && 0 < remaining
    requires Span(block, device.blockSize) + at + remaining <= |device.data|
    ensures r.Ok? ==> 0 < |r.value| <= remaining
    ensures r.Ok? ==> |r.value| == remaining || at + |r.value| == device.blockSize
    ensures r.Ok? ==>
              r.value == device.data[Span(block, device.blockSize) + at..Span(block, device.blockSize) + at + |r.value|]
  {
    hide Span;
    var size := device.blockSize;
    Single(size);
    BlockFits(block, size, device.blockCount);
    var read, n := device.ReadBlocks(block, 1);
    if read.Err? {
      return Err(read.error);
    }
    var chunk := Min(remaining, size - at);
    Within(device.data, Span(block, size), size, at, chunk);
    r := Ok(read.value[at..at + chunk]);
  }

  function Extended(data: seq<Byte>, offset: nat, copied: seq<Byte>, more: seq<Byte>): (r: seq<Byte>)
    requires offset + |copied| + |more| <= |data| && copied == data[offset..offset + |copied|]
    requires more == data[offset + |copied|..offset + |copied| + |more|]
    ensures |r| == |copied| + |more| && r == data[offset..offset + |r|]
  {
    copied + more
  }

  lemma Within(data: seq<Byte>, start: nat, size: nat, from: nat, n: nat)
    requires start + size <= |data| && from + n <= size
    ensures data[start..start + size][from..from + n] == data[start + from..start + from + n]
  {
    var x, y := data[start..start + size][from..from + n], data[start + from..start + from + n];
    assert forall k :: 0 <= k < n ==> x[k] == y[k];
  }

  /** Writes as much of `buffer` as fits, and makes the device keep it. What is written is always a
      prefix of `buffer`; its length is what a success reports. */
  method WriteFile(device: BlockDevice, offset: nat, buffer: seq<Byte>)
    returns (r: Result<nat, FsError>, ghost stored: nat)
    requires device.Valid()
    modifies device
    ensures device.Valid() && |device.data| == old(|device.data|)
    ensures offset >= |device.data| ==> r == Ok(0) && device.data == old(device.data)
    ensures offset < |device.data| ==> WroteSome(old(device.data), device.data, offset, buffer, stored)
    ensures r.Ok? && offset < |device.data| ==> r.value == stored && (buffer != [] ==> stored > 0)
  {
    hide Stored, Span, WholeBlocks, Remainder;
    var size := device.blockSize;
    stored := 0;
    if offset >= |device.data| {
      return Ok(0), 0;
    }
    ghost var data := device.data;
    var want := Min(|buffer|, |device.data| - offset);
    var copied: nat := 0;
    var block: nat, blockOffset: nat := WholeBlocks(offset, size), Remainder(offset, size);
    StoredNothing(data, offset);
    assert buffer[..0] == [];
    while copied < want
      invariant copied <= want && blockOffset < size && device.Valid() && |device.data| == |data|
      invariant device.data == Stored(data, offset, buffer[..copied])
      invariant copied < want ==> Span(block, size) + blockOffset == offset + copied
    {
      var remaining := want - copied;
      var blocks := WholeBlocks(remaining, size);
      ghost var rest := Remainder(remaining, size);
      if blockOffset == 0 && blocks != 0 {
        var written, n := WriteWhole(device, block, blocks, offset, buffer, copied, data);
        if written.Err? {
          return Err(written.error), copied;
        }
        NextBlocks(block, n, size);
        copied := copied + written.value;
        block := block + n;
        if n < blocks {
          break;
        }
        continue;
      }
      var written := WritePart(device, block, blockOffset, remaining, offset, buffer, copied, data);
      if written.Err? {
        return Err(written.error), copied;
      }
      copied := copied + written.value;
      NextBlocks(block, 1, size);
      Single(size);
      block, blockOffset := block + 1, 0;
    }
    stored := copied;
    if copied != 0 {
      var flushed := device.Flush();
      if flushed.Err? {
        return Err(flushed.error), stored;
      }
    }
    r := Ok(copied);
  }

  /** Goes on with whole blocks; `data` is the array before the write began. */
  method WriteWhole(device: BlockDevice, block: nat, blocks: nat, offset: nat, buffer: seq<Byte>, copied: nat,
                    ghost data: seq<Byte>)
    returns (r: Result<nat, FsError>, n: nat)
    requires device.Valid() && 0 < blocks && Span(block, device.blockSize) == offset + copied
    requires copied + Span(blocks, device.blockSize) <= |buffer|
             && offset + copied + Span(blocks, device.blockSize) <= |data|
    requires |device.data| == |data| && device.data == Stored(data, offset, buffer[..copied])
    modifies device
    ensures device.Valid() && |device.data| == |data|
    ensures r.Err? ==> device.data == old(device.data)
    ensures r.Ok? ==> 0 < n <= blocks && 0 < r.value == Span(n, device.blockSize) <= Span(blocks, device.blockSize)
    ensures r.Ok? ==> device.data == Stored(data, offset, buffer[..copied + r.value])
  {
    hide Stored, Span;
    var size := device.blockSize;
    r, n := device.WriteBlocks(block, blocks, buffer[copied..copied + Span(blocks, size)]);
    if r.Err? {
      return;
    }
    Single(size);
    Scale(1, n, size);
    Piece(buffer, copied, Span(blocks, size), r.value);
    StoredOn(data, offset, buffer, copied, r.value);
  }

  /** Goes on with a part of a block. */
  method WritePart(device: BlockDevice, block: nat, at: nat, remaining: nat, offset: nat, buffer: seq<Byte>,
                   copied: nat, ghost data: seq<Byte>)
    returns (r: Result<nat, FsError>)
    requires device.Valid() && at < device.blockSize && 0 < remaining
             && Span(block, device.blockSize) + at == offset + copied
    requires copied + remaining <= |buffer| && offset + copied + remaining <= |data|
    requires |device.data| == |data| && device.data == Stored(data, offset, buffer[..copied])
    modifies device
    ensures device.Valid() && |device.data| == |data|
    ensures r.Err? ==> device.data == old(device.data)
    ensures r.Ok? ==> 0 < r.value <= remaining && (r.value == remaining || at + r.value == device.blockSize)
    ensures r.Ok? ==> device.data == Stored(data, offset, buffer[..copied + r.value])
  {
    hide Stored, Span;
    var size := device.blockSize;
    BlockFits(block, size, device.blockCount);
    var chunk := Min(remaining, size - at);
    var done := ModifyBlock(device, block, at, buffer[copied..copied + chunk]);
    if done.Err? {
      return Err(done.error);
    }
    StoredOn(data, offset, buffer, copied, chunk);
    r := Ok(chunk);
  }

  /** Replaces part of one block: reads it, changes it, writes it back. */
  method ModifyBlock(device: BlockDevice, block: nat, at: nat, bytes: seq<Byte>) returns (r: Result<(), FsError>)
    requires device.Valid() && at + |bytes| <= device.blockSize && bytes != []
    requires Span(block, device.blockSize) + device.blockSize <= |device.data|
    modifies device
    ensures device.Valid() && |device.data| == old(|device.data|)
    ensures r.Err? ==> device.data == old(device.data)
    ensures r.Ok? ==> device.data == Stored(old(device.data), Span(block, device.blockSize) + at, bytes)
  {
    hide Stored, Span;
    var size := device.blockSize;
    ghost var data := device.data;
    Single(size);
    var prepared, n := device.ReadBlocks(block, 1);
    if prepared.Err? {
      return Err(prepared.error);
    }
    var scratch := Stored(prepared.value, at, bytes);
    var written, m := device.WriteBlocks(block, 1, scratch);
    if written.Err? {
      return Err(written.error);
    }
    assert scratch[..size] == scratch;
    StoredInBlock(data, Span(block, size), size, at, bytes);
    r := Ok(());
  }

  lemma StoredNothing(data: seq<Byte>, at: nat)
    requires at <= |data|
    ensures Stored(data, at, []) == data
  {
  }

  lemma StoredOn(data: seq<Byte>, at: nat, buffer: seq<Byte>, done: nat, n: nat)
    requires done + n <= |buffer| && at + done + n <= |data|
    ensures Stored(Stored(data, at, buffer[..done]), at + done, buffer[done..done + n]) ==
              Stored(data, at, buffer[..done + n])
  {
    StoredTwice(data, at, buffer[..done], buffer[done..done + n]);
    assert buffer[..done] + buffer[done..done + n] == buffer[..done + n];
  }

  lemma Piece(buffer: seq<Byte>, from: nat, n: nat, k: nat)
    requires from + n <= |buffer| && k <= n
    ensures buffer[from..from + n][..k] == buffer[from..from + k]
  {
  }
}
