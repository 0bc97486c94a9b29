/** The receive queue of a Unix stream socket against a first-in first-out stream of bytes. */
module UnixStream {
  import opened Prelude
  import opened UserMemory

  /** Rights and credentials that travel with data; what they are does not matter here. */
  datatype Ancillary = Ancillary(rights: seq<nat>, credentials: Option<nat>)

  datatype Chunk = Chunk(data: seq<Byte>, readOffset: nat, ancillary: Option<Ancillary>) {
    predicate HasUnread() {
      readOffset < |data|
    }

    function Unread(): seq<Byte>
      requires HasUnread()
    {
      data[readOffset..]
    }
  }

  datatype SocketError = Pipe | Again | NotConn

  datatype Receive = Receive(bytes: seq<Byte>, ancillary: Option<Ancillary>)

  /** Chunks leave the queue when their last byte is read. */
  predicate QueueOk(q: seq<Chunk>) {
    forall i :: 0 <= i < |q| ==> q[i].HasUnread()
  }

  /** All bytes in the queue that were not read. */
  function Unread(q: seq<Chunk>): seq<Byte>
    requires QueueOk(q)
  {
    if q == [] then [] else q[0].Unread() + Unread(q[1..])
  }

  lemma {:induction false} UnreadAppend(q: seq<Chunk>, c: Chunk)
    requires QueueOk(q) && c.HasUnread()
    ensures QueueOk(q + [c]) && Unread(q + [c]) == Unread(q) + c.Unread()
  {
    assert QueueOk(q + [c]);
    if q == [] {
      assert (q + [c])[1..] == [];
    } else {
      assert (q + [c])[1..] == q[1..] + [c];
      UnreadAppend(q[1..], c);
    }
  }

  // ---------------------------------------------------------------- one receive

  /** The bytes that one receive into a buffer of `len` bytes gets, `begun` meaning that it has got
      some already: a chunk with ancillary data is a barrier, both before and behind it. */
  function Taken(q: seq<Chunk>, len: nat, begun: bool): seq<Byte>
    requires QueueOk(q)
    decreases |q|
  {
    if len == 0 || q == [] || (begun && q[0].ancillary.Some?) then []
    else
      var a := q[0].Unread();
      if len < |a| then a[..len]
      else if q[0].ancillary.Some? then a
      else a + Taken(q[1..], len - |a|, true)
  }

  /** What such a receive leaves in the queue. */
  function Left(q: seq<Chunk>, len: nat, begun: bool): seq<Chunk>
    requires QueueOk(q)
    decreases |q|
  {
    if len == 0 || q == [] || (begun && q[0].ancillary.Some?) then q
    else
      var a := q[0].Unread();
      if len < |a| then [Chunk(q[0].data, q[0].readOffset + len, None)] + q[1..]
      else if q[0].ancillary.Some? then q[1..]
      else Left(q[1..], len - |a|, true)
  }

  lemma {:induction false} LeftIsOk(q: seq<Chunk>, len: nat, begun: bool)
    requires QueueOk(q)
    ensures QueueOk(Left(q, len, begun))
    decreases |q|
  {
    if len > 0 && q != [] && !(begun && q[0].ancillary.Some?) && len >= |q[0].Unread()| {
      LeftIsOk(q[1..], len - |q[0].Unread()|, true);
    }
  }

  /** A receive that gets nothing more. */
  lemma TakesNothing(q: seq<Chunk>, len: nat, begun: bool)
    requires QueueOk(q) && (len == 0 || q == [] || (begun && q[0].ancillary.Some?))
    ensures Taken(q, len, begun) == [] && Left(q, len, begun) == q
  {
  }

  /** A receive that ends within the first chunk. */
  lemma TakesPart(q: seq<Chunk>, len: nat, begun: bool)
    requires QueueOk(q) && q != [] && !(begun && q[0].ancillary.Some?) && 0 < len < |q[0].Unread()|
    ensures Taken(q, len, begun) == q[0].Unread()[..len]
    ensures Left(q, len, begun) == [Chunk(q[0].data, q[0].readOffset + len, None)] + q[1..]
  {
  }

  /** A receive that takes all of the first chunk. */
  lemma TakesChunk(q: seq<Chunk>, len: nat, begun: bool)
    requires QueueOk(q) && q != [] && !(begun && q[0].ancillary.Some?) && len >= |q[0].Unread()|
    ensures q[0].ancillary.Some? ==> Taken(q, len, begun) == q[0].Unread() && Left(q, len, begun) == q[1..]
    ensures q[0].ancillary.None? ==>
              Taken(q, len, begun) == q[0].Unread() + Taken(q[1..], len - |q[0].Unread()|, true)
              && Left(q, len, begun) == Left(q[1..], len - |q[0].Unread()|, true)
  {
  }

  lemma UnreadCons(c: Chunk, q: seq<Chunk>)
    requires c.HasUnread() && QueueOk(q)
    ensures QueueOk([c] + q) && Unread([c] + q) == c.Unread() + Unread(q)
  {
    assert ([c] + q)[1..] == q;
  }

  /** Nothing is lost, repeated or reordered: what is taken and then what is left is what was there. */
  lemma {:induction false} TakenThenLeft(q: seq<Chunk>, len: nat, begun: bool)
    requires QueueOk(q)
    ensures QueueOk(Left(q, len, begun))
    ensures Unread(q) == Taken(q, len, begun) + Unread(Left(q, len, begun))
    ensures |Taken(q, len, begun)| <= len
    decreases |q|
  {
    LeftIsOk(q, len, begun);
    hide Taken, Left, Unread;
    if len == 0 || q == [] || (begun && q[0].ancillary.Some?) {
      TakesNothing(q, len, begun);
      return;
    }
    var a := q[0].Unread();
    assert q == [q[0]] + q[1..];
    UnreadCons(q[0], q[1..]);
    if len < |a| {
      TakesPart(q, len, begun);
      var c := Chunk(q[0].data, q[0].readOffset + len, None);
      UnreadCons(c, q[1..]);
      assert a == a[..len] + c.Unread();
      Assoc(a[..len], c.Unread(), Unread(q[1..]));
    } else {
      TakesChunk(q, len, begun);
      if q[0].ancillary.None? {
        TakenThenLeft(q[1..], len - |a|, true);
        Assoc(a, Taken(q[1..], len - |a|, true), Unread(Left(q[1..], len - |a|, true)));
      } else {
        Assoc(a, [], Unread(q[1..]));
      }
    }
  }

  lemma Assoc(a: seq<Byte>, b: seq<Byte>, c: seq<Byte>)
    ensures (a + b) + c == a + (b + c)
  {
  }

  /** A receive of `len` bytes from `q` that has got `written` so far and left `queue`; `over` if it hit
      a barrier. */
  ghost predicate Progress(q: seq<Chunk>, len: nat, written: seq<Byte>, queue: seq<Chunk>, over: bool)
    requires QueueOk(q)
  {
    && QueueOk(queue) && |written| <= len
    && Taken(q, len, false) == written + (if over then [] else Taken(queue, len - |written|, written != []))
    && Left(q, len, false) == if over then queue else Left(queue, len - |written|, written != [])
  }

  lemma ProgressBegins(q: seq<Chunk>, len: nat)
    requires QueueOk(q)
    ensures Progress(q, len, [], q, false)
  {
    hide Taken, Left;
  }

  function Rest(queue: seq<Chunk>, count: nat): seq<Chunk>
    requires queue != []
  {
    if count == |queue[0].data| - queue[0].readOffset then queue[1..]
    else [Chunk(queue[0].data, queue[0].readOffset + count, None)] + queue[1..]
  }

  /** One more chunk, or a part of one. */
  lemma ProgressGoesOn(q: seq<Chunk>, len: nat, written: seq<Byte>, queue: seq<Chunk>, count: nat)
    requires QueueOk(q) && Progress(q, len, written, queue, false) && queue != [] && |written| < len
    requires !(written != [] && queue[0].ancillary.Some?)
    requires count == Min(len - |written|, |queue[0].data| - queue[0].readOffset)
    ensures Progress(q, len, written + queue[0].Unread()[..count], Rest(queue, count), queue[0].ancillary.Some?)
  {
    hide Taken, Left;
    var a, rest, begun := queue[0].Unread(), len - |written|, written != [];
    var w := written + a[..count];
    if rest < |a| {
      TakesPart(queue, rest, begun);
      TakesNothing(Rest(queue, count), 0, true);
      assert len - |w| == 0 && w != [];
    } else {
      assert a[..count] == a;
      TakesChunk(queue, rest, begun);
      if queue[0].ancillary.None? {
        assert written + (a + Taken(queue[1..], rest - |a|, true)) == w + Taken(queue[1..], len - |w|, true);
      }
    }
  }

  lemma ProgressEnds(q: seq<Chunk>, len: nat, written: seq<Byte>, queue: seq<Chunk>, over: bool)
    requires QueueOk(q) && Progress(q, len, written, queue, over)
    requires over || |written| == len || queue == [] || (written != [] && queue[0].ancillary.Some?)
    ensures Taken(q, len, false) == written && Left(q, len, false) == queue
  {
    hide Taken, Left;
    if !over {
      TakesNothing(queue, len - |written|, written != []);
    }
  }

  /** The unread bytes before chunk `j`. */
  function Before(q: seq<Chunk>, j: nat): nat
    requires QueueOk(q) && j <= |q|
  {
    if j == 0 then 0 else |q[0].Unread()| + Before(q[1..], j - 1)
  }

  /** No receive goes on into a chunk that carries ancillary data. */
  lemma {:induction false} StopsBeforeAncillary(q: seq<Chunk>, len: nat, begun: bool, j: nat)
    requires QueueOk(q) && j < |q| && q[j].ancillary.Some? && (j > 0 || begun)
    ensures |Taken(q, len, begun)| <= Before(q, j)
    decreases |q|
  {
    if j > 0 && len > 0 && !(begun && q[0].ancillary.Some?) && len >= |q[0].Unread()| && q[0].ancillary.None? {
      assert q[j] == q[1..][j - 1];
      StopsBeforeAncillary(q[1..], len - |q[0].Unread()|, true, j - 1);
    }
  }

  /** A receive stays within a first chunk that carries ancillary data. */
  lemma AncillaryStandsAlone(q: seq<Chunk>, len: nat)
    requires QueueOk(q) && q != [] && q[0].ancillary.Some?
    ensures |Taken(q, len, false)| <= |q[0].Unread()|
  {
  }

  /** A receive touches ancillary data at most once: where it takes bytes of a chunk that carries some, the
      chunk is the first and the receive stays in it. */
  lemma OneAncillary(q: seq<Chunk>, len: nat, j: nat)
    requires QueueOk(q) && j < |q| && q[j].ancillary.Some? && |Taken(q, len, false)| > Before(q, j)
    ensures j == 0 && |Taken(q, len, false)| <= |q[0].Unread()|
  {
    if j > 0 {
      StopsBeforeAncillary(q, len, false, j);
    } else {
      AncillaryStandsAlone(q, len);
    }
  }

  /** A receive with room to spare stops only at the end of the queue or at a barrier. */
  lemma {:induction false} StopsOnlyAtABarrier(q: seq<Chunk>, len: nat, begun: bool)
    requires QueueOk(q) && |Taken(q, len, begun)| < len
    ensures Left(q, len, begun) == [] || (q != [] && !begun && q[0].ancillary.Some? && Left(q, len, begun) == q[1..])
            || Left(q, len, begun)[0].ancillary.Some?
    decreases |q|
  {
    if q != [] && !(begun && q[0].ancillary.Some?) && len >= |q[0].Unread()| && q[0].ancillary.None? {
      StopsOnlyAtABarrier(q[1..], len - |q[0].Unread()|, true);
    }
  }

  // ---------------------------------------------------------------- the socket

  class StreamSocket {
    var recvStream: seq<Chunk>
    var recvSize: nat
    var rcvbuf: nat
    var shutRd: bool
    ghost var accepted: seq<Byte>
    ghost var delivered: seq<Byte>

    ghost predicate Valid()
      reads this
    {
      && QueueOk(recvStream)
      && accepted == delivered + Unread(recvStream)
      && recvSize == |Unread(recvStream)|
    }

    constructor (rcvbuf: nat)
      ensures Valid() && accepted == [] && delivered == [] && this.rcvbuf == rcvbuf && !shutRd
    {
      recvStream, recvSize, this.rcvbuf, shutRd := [], 0, rcvbuf, false;
      accepted, delivered := [], [];
    }

    /** The peer sends; as much as there is room for is accepted. */
    method Enqueue(buffer: seq<Byte>, ancillary: Option<Ancillary>) returns (r: Result<nat, SocketError>)
      requires Valid()
      modifies this
      ensures Valid() && delivered == old(delivered) && rcvbuf == old(rcvbuf) && shutRd == old(shutRd)
      ensures buffer == [] ==> r == Ok(0)
      ensures buffer != [] ==> (r == Err(Pipe) <==> shutRd)
      ensures buffer != [] ==> (r == Err(Again) <==> !shutRd && old(recvSize) >= rcvbuf)
      ensures r.Ok? ==> r.value <= |buffer| && accepted == old(accepted) + buffer[..r.value]
      ensures r.Ok? && buffer != [] ==> r.value == Min(rcvbuf - old(recvSize), |buffer|)
      ensures r.Err? ==> recvStream == old(recvStream) && accepted == old(accepted)
    {
      if buffer == [] {
        return Ok(0);
      }
      if shutRd {
        return Err(Pipe);
      }
      var space: nat := Max(rcvbuf - recvSize, 0);
      if space == 0 {
        return Err(Again);
      }
      var count := Min(space, |buffer|);
      var chunk := Chunk(buffer[..count], 0, ancillary);
      UnreadAppend(recvStream, chunk);
      accepted := accepted + buffer[..count];
      recvStream := recvStream + [chunk];
      recvSize := recvSize + count;
      r := Ok(count);
    }

    /** What an empty or shut-down socket answers; `None` if there is data. */
    function Idle(established: bool, peerDone: bool): Option<Result<Receive, SocketError>>
      reads this
    {
      if shutRd then Some(Ok(Receive([], None)))
      else if recvStream != [] then None
      else if !established then Some(Err(NotConn))
      else if peerDone then Some(Ok(Receive([], None)))
      else Some(Err(Again))
    }

    /** Reads the next bytes of the stream, as many as fit and no barrier forbids. */
    method Recv(len: nat, includeControl: bool, established: bool, peerDone: bool)
      returns (r: Result<Receive, SocketError>)
      requires Valid()
      modifies this
      ensures Valid() && accepted == old(accepted) && rcvbuf == old(rcvbuf) && shutRd == old(shutRd)
      ensures old(Idle(established, peerDone)).Some? ==>
                r == old(Idle(established, peerDone)).value && recvStream == old(recvStream)
                && delivered == old(delivered)
      ensures old(Idle(established, peerDone)).None? ==>
                r == Ok(NextReceive(old(recvStream), len, includeControl))
                && recvStream == Left(old(recvStream), len, false)
                && delivered == old(delivered) + r.value.bytes
    {
      var idle := Idle(established, peerDone);
      if idle.Some? {
        return idle.value;
      }
      hide Taken, Left, Unread;
      ghost var q := recvStream;
      TakenThenLeft(q, len, false);
      ProgressBegins(q, len);
      var written: seq<Byte>, ancillary: Option<Ancillary>, hitBarrier := [], None, false;
      while |written| < len && !hitBarrier
        invariant Progress(q, len, written, recvStream, hitBarrier)
        invariant recvSize + |written| == old(recvSize) && accepted == old(accepted) && delivered == old(delivered)
        invariant rcvbuf == old(rcvbuf) && shutRd == old(shutRd)
        invariant written == [] ==> recvStream == q && ancillary == None && !hitBarrier
        invariant written != [] ==> ancillary == if includeControl then q[0].ancillary else None
        decreases len - |written|
      {
        if recvStream == [] || (written != [] && recvStream[0].ancillary.Some?) {
          break;
        }
        var chunk := recvStream[0];
        var count := Min(len - |written|, |chunk.data| - chunk.readOffset);
        ProgressGoesOn(q, len, written, recvStream, count);
        ProgressFits(q, len, written + chunk.Unread()[..count], Rest(recvStream, count), chunk.ancillary.Some?);
        if written == [] {
          ancillary := if includeControl then chunk.ancillary else None;
        }
        hitBarrier := chunk.ancillary.Some?;
        written := written + chunk.Unread()[..count];
        recvSize := recvSize - count;
        recvStream := Rest(recvStream, count);
      }
      ProgressEnds(q, len, written, recvStream, hitBarrier);
      Assoc(delivered, written, Unread(recvStream));
      delivered := delivered + written;
      r := Ok(Receive(written, ancillary));
    }

    /** Looks at what the next receive of the same size would get, and changes nothing. */
    method Peek(len: nat, includeControl: bool, established: bool, peerDone: bool)
      returns (r: Result<Receive, SocketError>)
      requires Valid()
      ensures r == if Idle(established, peerDone).Some? then Idle(established, peerDone).value
                   else Ok(NextReceive(recvStream, len, includeControl))
    {
      var idle := Idle(established, peerDone);
      if idle.Some? {
        return idle.value;
      }
      hide Taken, Left, Unread;
      ProgressBegins(recvStream, len);
      assert recvStream[0..] == recvStream;
      ghost var queue := recvStream;
      var written: seq<Byte>, ancillary: Option<Ancillary>, hitBarrier := [], None, false;
      var i := 0;
      while i < |recvStream| && |written| < len && !hitBarrier
        invariant i <= |recvStream| && Progress(recvStream, len, written, queue, hitBarrier)
        invariant |written| < len ==> queue == recvStream[i..]
        invariant written == [] ==> i == 0 && ancillary == None && !hitBarrier
        invariant written != [] ==> ancillary == if includeControl then recvStream[0].ancillary else None
      {
        var chunk := recvStream[i];
        if written != [] && chunk.ancillary.Some? {
          break;
        }
        if written == [] {
          ancillary := if includeControl then chunk.ancillary else None;
        }
        var count := Min(len - |written|, |chunk.data| - chunk.readOffset);
        ProgressGoesOn(recvStream, len, written, queue, count);
        queue := Rest(queue, count);
        assert recvStream[i..][1..] == recvStream[i + 1..];
        written := written + chunk.Unread()[..count];
        hitBarrier := chunk.ancillary.Some?;
        i := i + 1;
      }
      ProgressEnds(recvStream, len, written, queue, hitBarrier);
      r := Ok(Receive(written, ancillary));
    }
  }

  lemma ProgressFits(q: seq<Chunk>, len: nat, written: seq<Byte>, queue: seq<Chunk>, over: bool)
    requires QueueOk(q) && Progress(q, len, written, queue, over)
    ensures |written| <= |Unread(q)|
  {
    hide Taken, Left, Unread;
    TakenThenLeft(q, len, false);
  }

  /** The next receive of a queue that is not empty. */
  function NextReceive(q: seq<Chunk>, len: nat, includeControl: bool): Receive
    requires QueueOk(q) && q != []
  {
    Receive(Taken(q, len, false), if includeControl && len > 0 then q[0].ancillary else None)
  }
}
