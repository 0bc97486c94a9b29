/** Whole runs: whether forks share pages or copy them makes no difference. */
module CowRuns {
  import opened Prelude
  import opened UserMemory
  import opened CowState
  import opened CowWorld
  import opened CowView
  import opened CowMachine

  datatype Op =
    | ReadOp(id: nat, address: nat, len: nat)
    | WriteOp(id: nat, address: nat, bytes: seq<Byte>)
    | UnmapOp(id: nat, address: nat)
    | ForkOp(parent: nat, child: nat)
    | EndOp(id: nat)

  datatype Outcome =
    | NoSuchSpace
    | DidRead(bytes: Result<seq<Byte>, BuildError>)
    | DidWrite(count: Result<nat, BuildError>)
    | DidUnmap(mapped: bool)
    | Did

  predicate Possible(w: World, op: Op) {
    match op
    case ForkOp(parent, child) => parent in w.spaces && child !in w.spaces
    case ReadOp(id, address, len) => id in w.spaces
    case WriteOp(id, address, bytes) => id in w.spaces
    case UnmapOp(id, address) => id in w.spaces
    case EndOp(id) => id in w.spaces
  }

  /** What an operation does and answers, where a fork is an eager copy. */
  function Step(w: World, op: Op): (World, Outcome) {
    if !Possible(w, op) then (w, NoSuchSpace)
    else
      match op
      case ReadOp(id, address, len) => var r := ReadFrom(w, id, address, len); (r.0, DidRead(r.1))
      case WriteOp(id, address, bytes) => var r := WriteTo(w, id, address, bytes); (r.0, DidWrite(r.1))
      case UnmapOp(id, address) =>
        if Has(w, id, AlignDown(address)) then (Unmapped(w, id, AlignDown(address)), DidUnmap(true))
        else (w, DidUnmap(false))
      case ForkOp(parent, child) => (Forked(w, parent, child), Did)
      case EndOp(id) => (Ended(w, id), Did)
  }

  function Run(w: World, ops: seq<Op>): (World, seq<Outcome>) {
    if ops == [] then (w, [])
    else
      var front := Run(w, ops[..|ops| - 1]);
      var last := Step(front.0, ops[|ops| - 1]);
      (last.0, front.1 + [last.1])
  }

  /** One operation on the machine, with forks done eagerly or by sharing; `None` if memory ran out. */
  method Perform(machine: Machine, op: Op, eager: bool) returns (outcome: Option<Outcome>)
    requires machine.Valid() && NoDevices(machine.spaces)
    modifies machine
    ensures machine.Valid() && NoDevices(machine.spaces)
    ensures outcome.Some? ==> (machine.Seen(), outcome.value) == Step(old(machine.Seen()), op)
  {
    hide Accounted, Isolated, WorldOf, ReadFrom, WriteTo, Unmapped, Forked, EagerlyForked, Ended, NoDevices, AreasOk;
    KeysSeen(machine.frames, machine.spaces, machine.outside);
    match op
    case ReadOp(id, address, len) =>
      if id !in machine.spaces {
        return Some(NoSuchSpace);
      }
      var r := machine.ReadBytes(id, address, len);
      outcome := if r == Err(OutOfMemory) then None else Some(DidRead(r));
    case WriteOp(id, address, bytes) =>
      if id !in machine.spaces {
        return Some(NoSuchSpace);
      }
      var r := machine.WriteBytes(id, address, bytes);
      outcome := if r == Err(OutOfMemory) then None else Some(DidWrite(r));
    case UnmapOp(id, address) =>
      if id !in machine.spaces {
        return Some(NoSuchSpace);
      }
      ViewAt(machine.frames, machine.spaces, machine.outside, id, AlignDown(address));
      var r := machine.UnmapPage(id, address);
      outcome := Some(DidUnmap(r.Ok?));
    case ForkOp(parent, child) =>
      if parent !in machine.spaces || child in machine.spaces {
        return Some(NoSuchSpace);
      }
      if eager {
        HasNoDevices(machine.spaces, parent);
        var r := machine.ForkCopy(parent, child);
        outcome := if r.Err? then None else Some(Did);
      } else {
        machine.ForkCow(parent, child);
        outcome := Some(Did);
      }
    case EndOp(id) =>
      if id !in machine.spaces {
        return Some(NoSuchSpace);
      }
      machine.DropSpace(id);
      outcome := Some(Did);
  }

  lemma HasNoDevices(spaces: Spaces, id: nat)
    requires NoDevices(spaces) && id in spaces
    ensures Devices(spaces[id]) == {}
  {
  }

  lemma KeysSeen(fr: Frames, spaces: Spaces, outside: map<nat, nat>)
    ensures WorldOf(fr, spaces, outside).spaces.Keys == spaces.Keys
  {
  }

  /** A run gives the outcomes of the world with eager forks, whichever way the machine forks. */
  method Execute(machine: Machine, ops: seq<Op>, eager: bool) returns (outcomes: Option<seq<Outcome>>)
    requires machine.Valid() && NoDevices(machine.spaces)
    modifies machine
    ensures machine.Valid() && NoDevices(machine.spaces)
    ensures outcomes.Some? ==> (machine.Seen(), outcomes.value) == Run(old(machine.Seen()), ops)
  {
    hide Step, NoDevices;
    var done: seq<Outcome> := [];
    var i := 0;
    while i < |ops|
      invariant i <= |ops| && machine.Valid() && NoDevices(machine.spaces)
      invariant (machine.Seen(), done) == Run(old(machine.Seen()), ops[..i])
    {
      assert ops[..i + 1][..i] == ops[..i];
      var outcome := Perform(machine, ops[i], eager);
      if outcome.None? {
        return None;
      }
      done := done + [outcome.value];
      i := i + 1;
    }
    assert ops[..i] == ops;
    outcomes := Some(done);
  }

  /** Copy-on-write forks refine eager ones: from the same start, any interleaving of reads, writes,
      unmaps, further forks and exits gives the same answers on both machines. (Without device pages: a
      fork that copies makes private copies of those, see `ForksLookAlike`.) */
  method ForkCowRefinesForkCopy(sharing: Machine, copying: Machine, ops: seq<Op>)
    returns (a: Option<seq<Outcome>>, b: Option<seq<Outcome>>)
    requires sharing != copying
    requires sharing.Valid() && NoDevices(sharing.spaces) && copying.Valid() && NoDevices(copying.spaces)
    requires sharing.Seen() == copying.Seen()
    modifies sharing, copying
    ensures a.Some? && b.Some? ==> a == b && sharing.Seen() == copying.Seen()
  {
    hide Accounted, Isolated, WorldOf, NoDevices, AreasOk, Run;
    a := Execute(sharing, ops, false);
    b := Execute(copying, ops, true);
  }

  /** A machine with one space that maps frame 0, which belongs to a device. */
  method WithDevice(flags: MapFlags) returns (machine: Machine)
    requires Write in flags ==> User in flags
    ensures fresh(machine) && machine.Valid() && machine.spaces.Keys == {0} && Devices(machine.spaces[0]) == {0}
    ensures |machine.frames.free| == 1 == |ToCopy(machine.spaces[0])|
    ensures machine.Seen() ==
              WithPage(World(map[0 := SpaceView(map[], [])], map[0 := ZeroPage()]), 0, 0, Alias(0, flags))
  {
    hide Accounted, Isolated;
    machine := new Machine(map[0 := ZeroPage(), 1 := ZeroPage()], {1}, map[], map[0 := 1]);
    assert UserAreas([]);
    machine.NewSpace(0, []);
    assert machine.Seen() == World(map[0 := SpaceView(map[], [])], map[0 := ZeroPage()]);
    var r := machine.MapPhysicalPage(0, 0, 0, flags);
    assert r.Ok?;
    assert ToCopy(machine.spaces[0]) == {0};
  }

  /** Of two machines alike that map a device page, the one that forks by copying comes to look different. */
  method DeviceForksDiffer(flags: MapFlags) returns (sharing: Machine, copying: Machine, r: Result<(), BuildError>)
    requires Write in flags ==> User in flags
    ensures r.Ok? && sharing.Seen() != copying.Seen()
  {
    hide Accounted, Isolated, WorldOf, Forked, EagerlyForked;
    sharing := WithDevice(flags);
    copying := WithDevice(flags);
    sharing.ForkCow(0, 1);
    r := copying.ForkCopy(0, 1);
  }
}
