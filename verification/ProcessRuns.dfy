/** Whole runs of the process manager: any interleaving of its operations. */
module ProcessRuns {
  import opened Prelude
  import opened ProcessIndexes
  import opened ProcessManagement

  datatype Op =
    | AdmitOp(pid: nat)
    | TakeOp(pid: nat)
    | ArmOp(pid: nat, key: FutexKey, bitset: bv32)
    | BlockOp(pid: nat, block: Block, ready: Option<BlockResult>)
    | ReturnOp(pid: nat)
    | WakeOp(key: FutexKey, bitset: bv32, count: nat)
    | RequeueOp(from: FutexKey, to: FutexKey, wakeCount: nat, requeueCount: nat, bitset: bv32)
    | ExpireOp(now: nat)
    | SignalOp(pid: nat, continues: bool, deliverable: bool, now: nat)
    | JoinGroupOp(tgid: nat, pid: nat)
    | LeaveGroupOp(tgid: nat, pid: nat)
    | GroupExitOp(tgid: nat, pid: nat)
    | VforkDoneOp(parent: nat, child: nat)
    | ChildOp(parent: nat, asked: bool, value: nat)
    | FileReadyOp(pid: nat)
    | WakeFilesOp

  /** The operation is no requeue that moves an armed wait to another futex. */
  predicate Harmless(op: Op, armed: map<nat, ArmedFutexWait>) {
    op.RequeueOp? ==> MovesNone(armed, op.from, op.to, op.wakeCount, op.requeueCount, op.bitset)
  }

  /** The wakes that were counted and have reached their process, are still marked on an armed wait, or
      were given up with it: all but the lost ones. */
  predicate NothingLost(ledger: Ledger) {
    ledger.lost == 0
  }

  /** One operation, if the discipline of the callers allows it: a process is parked or running, it arms
      a wait only while it runs, and blocks on the futex it has armed. */
  method Perform(m: ProcessManager, op: Op, armedWith: map<nat, (FutexKey, bv32)>)
    returns (armedWith': map<nat, (FutexKey, bv32)>)
    requires m.Valid() && m.origin == armedWith
    modifies m
    ensures m.Valid() && m.origin == armedWith' && (old(m.QueueSound()) ==> m.QueueSound())
    ensures Harmless(op, old(m.armedFutexWaits)) && old(m.Faithful()) ==>
              m.Faithful() && m.ledger.lost == old(m.ledger).lost
    ensures op.RequeueOp? && old(m.Faithful()) ==> (m.Faithful() <==> Harmless(op, old(m.armedFutexWaits)))
  {
    hide ProcessManager.Valid, ProcessManager.Faithful, ProcessManager.QueueSound;
    armedWith' := armedWith;
    match op
    case ArmOp(pid, key, bitset) =>
      if pid !in m.processes {
        m.ArmFutexWait(pid, key, bitset);
        armedWith' := armedWith[pid := (key, bitset)];
      }
    case BlockOp(pid, block, ready) => PerformBlock(m, pid, block, ready, armedWith);
    case ReturnOp(pid) => PerformReturn(m, pid);
    case WakeOp(key, bitset, count) => var _, _, _ := m.WakeFutex(key, bitset, count);
    case RequeueOp(from, to, wakeCount, requeueCount, bitset) =>
      var _, _, _, _, _ := m.RequeueFutex(from, to, wakeCount, requeueCount, bitset);
    case _ => PerformOther(m, op);
  }

  /** The operations that have nothing to do with armed waits. */
  method PerformOther(m: ProcessManager, op: Op)
    requires m.Valid()
    modifies m`processes, m`threadGroups, m`blockedFiles, m`blockedTimers, m`blockedFutexes, m`nextTimerDeadline
    modifies m`fileWaitQueue, m`fileWaitEnqueued, m`fileWaitPending
    ensures m.Valid() && (old(m.QueueSound()) ==> m.QueueSound())
  {
    hide ProcessManager.Valid, ProcessManager.Faithful, ProcessManager.QueueSound;
    match op
    case AdmitOp(pid) =>
      if pid !in m.processes && pid !in m.armedFutexWaits {
        m.RequeueProcess(pid, Process(Runnable, None), None);
      }
    case TakeOp(pid) =>
      if pid in m.processes && !m.processes[pid].state.Blocked? {
        m.Take(pid);
      }
    case ExpireOp(now) => m.WakeExpiredTimers(now);
    case SignalOp(pid, continues, deliverable, now) => m.NotifySignal(pid, continues, deliverable, now);
    case JoinGroupOp(tgid, pid) => m.TrackThreadGroup(tgid, pid);
    case LeaveGroupOp(tgid, pid) => m.UntrackThreadGroup(tgid, pid);
    case GroupExitOp(tgid, pid) => m.BeginThreadGroupExit(tgid, pid);
    case VforkDoneOp(parent, child) => m.WakeVforkParent(parent, child);
    case ChildOp(parent, asked, value) => m.NotifyChildEvent(parent, asked, value);
    case FileReadyOp(pid) => m.FileBecameReady(pid);
    case WakeFilesOp => m.WakeReadyFileBlocks();
    case _ =>
  }

  method PerformReturn(m: ProcessManager, pid: nat)
    requires m.Valid()
    modifies m`processes, m`armedFutexWaits, m`ledger, m`blockedFiles, m`blockedTimers, m`blockedFutexes,
             m`nextTimerDeadline
    ensures m.Valid() && m.ledger.lost == old(m.ledger).lost
    ensures old(m.Faithful()) ==> m.Faithful()
  {
    hide ProcessManager.Valid, ProcessManager.Faithful;
    if pid !in m.processes {
      m.FinishSyscallReturn(pid);
    }
  }

  method PerformBlock(m: ProcessManager, pid: nat, block: Block, ready: Option<BlockResult>,
                      armedWith: map<nat, (FutexKey, bv32)>)
    requires m.Valid() && m.origin == armedWith
    modifies m`processes, m`armedFutexWaits, m`ledger, m`blockedFiles, m`blockedTimers, m`blockedFutexes,
             m`nextTimerDeadline
    ensures m.Valid()
    ensures old(m.Faithful()) ==> m.Faithful() && m.ledger.lost == old(m.ledger).lost
  {
    hide Agree, BooksOk;
    if pid in m.processes {
      return;
    }
    if block.Futex? && pid in m.armedFutexWaits && (pid !in armedWith || armedWith[pid] != (block.key, block.bitset)) {
      return;
    }
    m.FinishKernelBlock(pid, block, ready);
  }

  /** In every run the indexes agree with the states of the processes, the queue of ready files is sound
      and the books balance. */
  method Run(ops: seq<Op>) returns (m: ProcessManager)
    ensures fresh(m) && m.Valid() && m.QueueSound()
    ensures Balanced(m.ledger, m.armedFutexWaits)
  {
    hide Agree, FaithfulTo;
    m := new ProcessManager();
    var armedWith: map<nat, (FutexKey, bv32)> := map[];
    for i := 0 to |ops|
      invariant fresh(m) && m.Valid() && m.origin == armedWith && m.QueueSound()
    {
      armedWith := Perform(m, ops[i], armedWith);
    }
  }

  /** A run up to the first requeue that would move an armed wait to another futex: no wake has got lost. */
  method RunUntilHarm(ops: seq<Op>) returns (m: ProcessManager, done: nat)
    ensures fresh(m) && m.Valid() && m.QueueSound() && m.Faithful() && NothingLost(m.ledger)
    ensures m.ledger.counted == m.ledger.delivered + |Raced(m.armedFutexWaits)| + m.ledger.cancelled
    ensures done <= |ops| && (done < |ops| ==> !Harmless(ops[done], m.armedFutexWaits))
  {
    hide Agree, FaithfulTo;
    m := new ProcessManager();
    done := 0;
    var armedWith: map<nat, (FutexKey, bv32)> := map[];
    while done < |ops| && Harmless(ops[done], m.armedFutexWaits)
      invariant fresh(m) && m.Valid() && m.origin == armedWith && m.QueueSound() && m.Faithful()
      invariant done <= |ops| && NothingLost(m.ledger)
    {
      armedWith := Perform(m, ops[done], armedWith);
      done := done + 1;
    }
  }

  /** With requeueing a wake can get lost: a wait is moved to another futex while it is armed, woken
      there, and blocks on the futex it was armed with all the same. */
  method RequeueLosesAWake(from: FutexKey, to: FutexKey) returns (woke: nat, m: ProcessManager)
    requires from != to
    ensures woke == 1 && m.Valid() && 1 in m.processes && m.processes[1] == Process(Blocked(Futex(from, 1, None)), None)
    ensures m.ledger == Ledger(1, 0, 0, 1)
  {
    hide Agree, BooksOk;
    m := new ProcessManager();
    m.ArmFutexWait(1, from, 1);
    assert ArmedFor(m.armedFutexWaits, from, 1) == {1} by {
      assert Armed(m.armedFutexWaits, 1, from, 1);
    }
    MarkNone(m.armedFutexWaits);
    var none, marked, released, shifted, moved := m.RequeueFutex(from, to, 0, 1, 1);
    NoElements(marked, released);
    OneElement(shifted, 1);
    assert m.armedFutexWaits[1] == ArmedFutexWait(to, 1, false);
    assert ArmedFor(m.armedFutexWaits, to, 1) == {1} by {
      assert Armed(m.armedFutexWaits, 1, to, 1);
    }
    woke, marked, released := m.WakeFutex(to, 1, 1);
    assert woke == 1;
    m.FinishKernelBlock(1, Futex(from, 1, None), None);
  }

  lemma NoElements(a: set<nat>, b: set<nat>)
    requires |a| + |b| == 0
    ensures a == {} && b == {}
  {
  }

  lemma OneElement(a: set<nat>, x: nat)
    requires |a| == 1 && a <= {x}
    ensures a == {x}
  {
    assert |{x} - a| == |{x}| - |a|;
  }
}
