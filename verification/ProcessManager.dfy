/** Blocking and waking: the process manager. */
module ProcessManagement {
  import opened Prelude
  import opened KeyedIndex
  import opened ProcessIndexes

  datatype ArmedFutexWait = ArmedFutexWait(key: FutexKey, bitset: bv32, racedWake: bool)

  predicate Overlap(a: bv32, b: bv32) {
    (a & b) != 0
  }

  /** The indexes hold exactly the processes whose state says so; the deadlines of `hidden`
      processes have been taken out already. */
  ghost predicate Agree(files: set<nat>, timers: map<nat, set<nat>>, futexes: map<FutexKey, set<nat>>,
                        ps: Processes, hidden: set<nat>) {
    && files == FileWaiters(ps)
    && Indexes(timers, Deadlines(ps) - hidden)
    && Indexes(futexes, Keys(ps))
  }

  predicate Armed(armed: map<nat, ArmedFutexWait>, pid: nat, key: FutexKey, bitset: bv32) {
    pid in armed && armed[pid].key == key && Overlap(armed[pid].bitset, bitset) && !armed[pid].racedWake
  }

  /** The armed waits that a wake of `key` can still be counted against. */
  function ArmedFor(armed: map<nat, ArmedFutexWait>, key: FutexKey, bitset: bv32): set<nat> {
    set pid | pid in armed && Armed(armed, pid, key, bitset)
  }

  /** The processes blocked on `key` that a wake can reach. */
  function BlockedFor(ps: Processes, key: FutexKey, bitset: bv32): set<nat> {
    set pid | pid in ps && WaitsFor(ps[pid].state, key, bitset)
  }

  predicate WaitsFor(s: ProcessState, key: FutexKey, bitset: bv32) {
    s.Blocked? && s.block.Futex? && s.block.key == key && Overlap(s.block.bitset, bitset)
  }

  function Raced(armed: map<nat, ArmedFutexWait>): set<nat> {
    set pid | pid in armed && armed[pid].racedWake
  }

  /** Where the futex wakes that were counted have gone: `delivered` to a waiter that became runnable
      with the answer that it was woken, `cancelled` with a wait that was given up before it blocked,
      or `lost`. The others are still marked on armed waits. */
  datatype Ledger = Ledger(counted: nat, delivered: nat, cancelled: nat, lost: nat)

  predicate Balanced(ledger: Ledger, armed: map<nat, ArmedFutexWait>) {
    ledger.counted == ledger.delivered + |Raced(armed)| + ledger.cancelled + ledger.lost
  }

  /** Only running processes have armed waits, and the ledger balances. */
  predicate BooksOk(ledger: Ledger, armed: map<nat, ArmedFutexWait>, parked: set<nat>) {
    armed.Keys !! parked && Balanced(ledger, armed)
  }

  class ProcessManager {
    var processes: Processes
    var threadGroups: map<nat, set<nat>>
    var blockedFiles: set<nat>
    var blockedTimers: map<nat, set<nat>>
    var nextTimerDeadline: Option<nat>
    var blockedFutexes: map<FutexKey, set<nat>>
    var armedFutexWaits: map<nat, ArmedFutexWait>
    var fileWaitQueue: seq<nat>
    var fileWaitEnqueued: set<nat>
    var fileWaitPending: bool
    ghost var ledger: Ledger
    ghost var origin: map<nat, (FutexKey, bv32)>

    ghost predicate Indexed(ps: Processes, hidden: set<nat>)
      reads this`blockedFiles, this`blockedTimers, this`blockedFutexes
    {
      Agree(blockedFiles, blockedTimers, blockedFutexes, ps, hidden)
    }

    predicate NextOk()
      reads this`nextTimerDeadline, this`blockedTimers
    {
      IsLeast(nextTimerDeadline, blockedTimers.Keys)
    }

    ghost predicate Valid()
      reads this`processes, this`blockedFiles, this`blockedTimers, this`blockedFutexes, this`nextTimerDeadline
      reads this`armedFutexWaits, this`ledger
    {
      Indexed(processes, {}) && NextOk() && BooksOk(ledger, armedFutexWaits, processes.Keys)
    }

    /** The queue of ready files holds each process once, the processes noted as queued and no other, and
        is looked at. */
    predicate QueueSound()
      reads this`fileWaitQueue, this`fileWaitEnqueued, this`fileWaitPending
    {
      && Distinct(fileWaitQueue) && Elements(fileWaitQueue) == fileWaitEnqueued
      && (fileWaitQueue != [] ==> fileWaitPending)
    }

    /** Every armed wait has the key and bitset it was armed with. */
    ghost predicate Faithful()
      reads this`armedFutexWaits, this`origin
    {
      FaithfulTo(armedFutexWaits, origin)
    }

    constructor ()
      ensures Valid() && Faithful() && QueueSound() && processes == map[] && armedFutexWaits == map[]
      ensures ledger == Ledger(0, 0, 0, 0) && origin == map[]
    {
      ledger, origin := Ledger(0, 0, 0, 0), map[];
      fileWaitQueue, fileWaitEnqueued, fileWaitPending := [], {}, false;
      processes, threadGroups, blockedFiles, blockedTimers := map[], map[], {}, map[];
      nextTimerDeadline, blockedFutexes, armedFutexWaits := None, map[], map[];
    }

    // -------------------------------------------------------------- deadlines

    method RefreshNextTimerDeadline()
      modifies this`nextTimerDeadline
      ensures NextOk()
    {
      if blockedTimers == map[] {
        nextTimerDeadline := None;
      } else {
        assert blockedTimers.Keys != {} by {
          var k :| k in blockedTimers;
        }
        var least := Least(blockedTimers.Keys);
        nextTimerDeadline := Some(least);
      }
    }

    method EnterTimers(deadline: nat, pid: nat)
      requires NextOk()
      modifies this`blockedTimers, this`nextTimerDeadline
      ensures NextOk() && blockedTimers == Enter(old(blockedTimers), deadline, pid)
    {
      blockedTimers := Enter(blockedTimers, deadline, pid);
      nextTimerDeadline := Some(match nextTimerDeadline case None => deadline case Some(d) => Min(d, deadline));
    }

    method LeaveTimers(deadline: nat, pid: nat)
      modifies this`blockedTimers, this`nextTimerDeadline
      ensures blockedTimers == Leave(old(blockedTimers), deadline, pid)
      ensures old(NextOk()) ==> NextOk()
    {
      if deadline !in blockedTimers {
        return;
      }
      var waiters := blockedTimers[deadline] - {pid};
      if waiters == {} {
        ghost var before := blockedTimers.Keys;
        blockedTimers := blockedTimers - {deadline};
        if nextTimerDeadline == Some(deadline) {
          RefreshNextTimerDeadline();
        }
      } else {
        blockedTimers := blockedTimers[deadline := waiters];
      }
    }

    // -------------------------------------------------------------- tracking

    /** Enters a process that blocks into the indexes of its state. */
    method TrackBlockedProcess(pid: nat, state: ProcessState, ghost ps: Processes, ghost p: Process)
      requires Indexed(ps, {}) && NextOk() && (pid in ps ==> !ps[pid].state.Blocked?) && p.state == state
      modifies this`blockedFiles, this`blockedTimers, this`blockedFutexes, this`nextTimerDeadline
      ensures Indexed(ps[pid := p], {}) && NextOk()
    {
      EntersIndexes(blockedFiles, blockedTimers, blockedFutexes, ps, pid, p);
      hide Agree, Indexes, Enter;
      if !state.Blocked? {
        return;
      }
      match state.block
      case File =>
        blockedFiles := blockedFiles + {pid};
      case Poll(deadline) =>
        blockedFiles := blockedFiles + {pid};
        if deadline.Some? {
          EnterTimers(deadline.value, pid);
        }
      case Timer(target) =>
        EnterTimers(target, pid);
      case Futex(key, bitset, deadline) =>
        blockedFutexes := Enter(blockedFutexes, key, pid);
        if deadline.Some? {
          EnterTimers(deadline.value, pid);
        }
      case _ =>
    }

    /** Takes a process that stops being blocked out of the indexes of its old state. */
    method UntrackBlockedProcess(pid: nat, state: ProcessState, ghost ps: Processes, ghost p: Process,
                                 ghost hidden: set<nat>)
      requires Indexed(ps, hidden) && pid in ps && ps[pid].state == state && !p.state.Blocked?
      requires pid in hidden ==> DeadlineOf(state).Some? && DeadlineOf(state).value !in blockedTimers
      modifies this`blockedFiles, this`blockedTimers, this`blockedFutexes, this`nextTimerDeadline
      ensures Indexed(ps[pid := p], hidden - {pid})
      ensures old(NextOk()) ==> NextOk()
      ensures pid in hidden ==> blockedTimers == old(blockedTimers)
    {
      LeavesIndexes(blockedFiles, blockedTimers, blockedFutexes, ps, pid, p, hidden);
      hide Agree, Indexes;
      if !state.Blocked? {
        return;
      }
      match state.block
      case File =>
        blockedFiles := blockedFiles - {pid};
      case Poll(deadline) =>
        blockedFiles := blockedFiles - {pid};
        if deadline.Some? {
          LeaveTimers(deadline.value, pid);
        }
      case Timer(target) =>
        LeaveTimers(target, pid);
      case Futex(key, bitset, deadline) =>
        blockedFutexes := Leave(blockedFutexes, key, pid);
        if deadline.Some? {
          LeaveTimers(deadline.value, pid);
        }
      case _ =>
    }

    // -------------------------------------------------------------- waking

    /** Makes a blocked process runnable with the answer to its wait. */
    method WakeBlocked(pid: nat, result: BlockResult, ghost hidden: set<nat>)
      requires Indexed(processes, hidden) && pid in processes && processes[pid].state.Blocked?
      requires pid in hidden ==> DeadlineOf(processes[pid].state).Some?
      requires pid in hidden ==> DeadlineOf(processes[pid].state).value !in blockedTimers
      modifies this`processes, this`blockedFiles, this`blockedTimers, this`blockedFutexes, this`nextTimerDeadline
      ensures processes == old(processes)[pid := Process(Runnable, Some(result))]
      ensures Indexed(processes, hidden - {pid})
      ensures old(NextOk()) ==> NextOk()
      ensures pid in hidden ==> blockedTimers == old(blockedTimers)
    {
      hide Agree;
      UntrackBlockedProcess(pid, processes[pid].state, processes, Process(Runnable, Some(result)), hidden);
      processes := processes[pid := Process(Runnable, Some(result))];
    }

    method WakeProcessWithResult(pid: nat, result: BlockResult)
      requires Valid()
      modifies this`processes, this`blockedFiles, this`blockedTimers, this`blockedFutexes, this`nextTimerDeadline
      ensures Valid()
      ensures processes == if pid in old(processes) && old(processes)[pid].state.Blocked?
                           then old(processes)[pid := Process(Runnable, Some(result))] else old(processes)
    {
      hide Agree;
      if pid !in processes || !processes[pid].state.Blocked? {
        return;
      }
      WakeBlocked(pid, result, {});
      assert {} - {pid} == {};
      assert processes.Keys == old(processes.Keys);
    }

    // -------------------------------------------------------------- timeouts

    /** Wakes every process whose deadline has passed, each with the answer for its kind of wait, and
        leaves the others alone. */
    method WakeExpiredTimers(now: nat)
      requires Valid()
      modifies this`processes, this`blockedFiles, this`blockedTimers, this`blockedFutexes, this`nextTimerDeadline
      ensures Valid()
      ensures processes == map pid | pid in old(processes) :: Expire(old(processes)[pid], now)
      ensures forall d :: d in blockedTimers ==> d > now
    {
      hide Agree;
      while true
        invariant Indexed(processes, {}) && processes.Keys == old(processes.Keys)
        invariant forall pid :: pid in processes ==>
                    processes[pid] == old(processes)[pid] || Expired(old(processes)[pid], processes[pid], now)
        decreases blockedTimers.Keys
      {
        if blockedTimers.Keys == {} {
          nextTimerDeadline := None;
          AllExpired(old(processes), processes, blockedFiles, blockedTimers, blockedFutexes, now);
          return;
        }
        var deadline := Least(blockedTimers.Keys);
        if deadline > now {
          nextTimerDeadline := Some(deadline);
          AllExpired(old(processes), processes, blockedFiles, blockedTimers, blockedFutexes, now);
          return;
        }
        ghost var before := processes;
        WakeSlot(deadline);
        forall pid | pid in processes
          ensures processes[pid] == old(processes)[pid] || Expired(old(processes)[pid], processes[pid], now)
        {
          assert processes[pid] == before[pid] || Expired(before[pid], processes[pid], deadline);
        }
      }
    }

    /** Wakes the processes with the given deadline. */
    method WakeSlot(deadline: nat)
      requires Indexed(processes, {}) && deadline in blockedTimers
      modifies this`processes, this`blockedFiles, this`blockedTimers, this`blockedFutexes, this`nextTimerDeadline
      ensures Indexed(processes, {}) && processes.Keys == old(processes.Keys)
      ensures blockedTimers == old(blockedTimers) - {deadline}
      ensures forall pid :: pid in processes ==>
                processes[pid] == old(processes)[pid] || Expired(old(processes)[pid], processes[pid], deadline)
    {
      SlotTaken(blockedFiles, blockedTimers, blockedFutexes, processes, deadline);
      hide Agree;
      var waiters := blockedTimers[deadline];
      blockedTimers := blockedTimers - {deadline};
      while waiters != {}
        invariant Indexed(processes, waiters) && processes.Keys == old(processes.Keys)
        invariant blockedTimers == old(blockedTimers) - {deadline}
        invariant forall pid :: pid in waiters ==>
                    pid in processes && DeadlineOf(processes[pid].state) == Some(deadline)
                    && processes[pid] == old(processes)[pid]
        invariant forall pid :: pid in processes ==>
                    processes[pid] == old(processes)[pid] || Expired(old(processes)[pid], processes[pid], deadline)
        decreases waiters
      {
        var pid := Least(waiters);
        WakeBlocked(pid, TimeoutResult(processes[pid].state), waiters);
        waiters := waiters - {pid};
      }
    }

    // -------------------------------------------------------------- signals and exits

    /** The effect of a signal on the wait of its target. */
    method NotifySignal(pid: nat, continues: bool, deliverable: bool, now: nat)
      requires Valid()
      modifies this`processes, this`blockedFiles, this`blockedTimers, this`blockedFutexes, this`nextTimerDeadline
      ensures Valid()
      ensures processes == if pid in old(processes)
                           then old(processes)[pid := Signalled(old(processes)[pid], continues, deliverable, now)]
                           else old(processes)
    {
      if pid !in processes {
        return;
      }
      hide Agree, Valid;
      ghost var p := processes[pid];
      if continues && processes[pid].state.Stopped? {
        NotArmed(pid);
        SetUnblocked(pid, Process(Runnable, processes[pid].wakeResult));
      }
      if deliverable && processes[pid].state.Blocked? {
        var answer := Interruption(processes[pid].state.block, now);
        if answer.Some? {
          WakeProcessWithResult(pid, answer.value);
        }
      }
      assert processes == old(processes)[pid := Signalled(p, continues, deliverable, now)];
    }

    lemma NotArmed(pid: nat)
      requires Valid() && pid in processes
      ensures pid !in armedFutexWaits
    {
    }

    /** Replaces a process that is in no index by one that is in none either. */
    method SetUnblocked(pid: nat, p: Process)
      requires Valid() && pid !in armedFutexWaits
      requires pid in processes ==> !processes[pid].state.Blocked?
      requires !p.state.Blocked?
      modifies this`processes
      ensures Valid() && processes == old(processes)[pid := p]
    {
      StaysOut(blockedFiles, blockedTimers, blockedFutexes, processes, pid, p);
      hide Agree;
      processes := processes[pid := p];
    }

    /** The scheduler takes a process that is not blocked. */
    method Take(pid: nat)
      requires Valid() && pid in processes && !processes[pid].state.Blocked?
      modifies this`processes
      ensures Valid() && processes == old(processes) - {pid}
    {
      GoesAway(blockedFiles, blockedTimers, blockedFutexes, processes, pid);
      hide Agree;
      processes := processes - {pid};
    }

    method Oust(pid: nat)
      requires Valid() && pid in processes
      modifies this`processes, this`blockedFiles, this`blockedTimers, this`blockedFutexes, this`nextTimerDeadline
      ensures Valid() && processes == old(processes)[pid := Ousted(old(processes)[pid])]
    {
      hide Agree, Valid;
      var p := processes[pid];
      if p.state.Exited? {
        assert processes == processes[pid := p];
        return;
      }
      if p.state.Blocked? {
        WakeProcessWithResult(pid, SignalInterrupted);
      } else {
        NotArmed(pid);
        SetUnblocked(pid, Process(Runnable, p.wakeResult));
      }
    }

    method TrackThreadGroup(tgid: nat, pid: nat)
      modifies this`threadGroups
      ensures threadGroups == Enter(old(threadGroups), tgid, pid)
    {
      threadGroups := Enter(threadGroups, tgid, pid);
    }

    method UntrackThreadGroup(tgid: nat, pid: nat)
      modifies this`threadGroups
      ensures threadGroups == Leave(old(threadGroups), tgid, pid)
    {
      threadGroups := Leave(threadGroups, tgid, pid);
    }

    /** Sends every other member of the group on its way out. */
    method BeginThreadGroupExit(tgid: nat, currentPid: nat)
      requires Valid()
      modifies this`processes, this`blockedFiles, this`blockedTimers, this`blockedFutexes, this`nextTimerDeadline
      ensures Valid() && processes.Keys == old(processes.Keys)
      ensures tgid !in threadGroups ==> processes == old(processes)
      ensures tgid in threadGroups ==> forall pid :: pid in processes ==>
                processes[pid] == if pid in threadGroups[tgid] && pid != currentPid then Ousted(old(processes)[pid])
                                  else old(processes)[pid]
    {
      hide Agree, Valid, Ousted;
      if tgid !in threadGroups {
        return;
      }
      var members := threadGroups[tgid];
      while members != {}
        invariant Valid() && members <= threadGroups[tgid] && processes.Keys == old(processes.Keys)
        invariant forall pid :: pid in processes ==>
                    processes[pid] == if pid in threadGroups[tgid] && pid !in members && pid != currentPid
                                      then Ousted(old(processes)[pid]) else old(processes)[pid]
        decreases members
      {
        var pid := Least(members);
        members := members - {pid};
        if pid == currentPid || pid !in processes {
          continue;
        }
        Oust(pid);
      }
    }

    /** The child of a `vfork` lets its parent go on. The parent is in no index. */
    method WakeVforkParent(parent: nat, child: nat)
      requires Valid()
      modifies this`processes
      ensures Valid()
      ensures processes == if parent in old(processes) && old(processes)[parent].state == Blocked(Vfork(child))
                           then old(processes)[parent := Process(Runnable, Some(CompletedValue(child)))]
                           else old(processes)
    {
      if parent in processes && processes[parent].state == Blocked(Vfork(child)) {
        WakeUnindexed(parent, CompletedValue(child));
      }
    }

    /** A child's news reaches a parent that waits for it, if it is what the parent `asked` for. */
    method NotifyChildEvent(parent: nat, asked: bool, value: nat)
      requires Valid()
      modifies this`processes
      ensures Valid()
      ensures processes == if parent in old(processes) && old(processes)[parent].state == Blocked(WaitChild) && asked
                           then old(processes)[parent := Process(Runnable, Some(CompletedValue(value)))]
                           else old(processes)
    {
      if parent in processes && processes[parent].state == Blocked(WaitChild) && asked {
        WakeUnindexed(parent, CompletedValue(value));
      }
    }

    /** Wakes a process whose wait is in no index, which is why none is touched. */
    method WakeUnindexed(pid: nat, result: BlockResult)
      requires Valid() && pid in processes && Unindexed(processes[pid].state)
      modifies this`processes
      ensures Valid() && processes == old(processes)[pid := Process(Runnable, Some(result))]
    {
      ReplacesUnindexed(blockedFiles, blockedTimers, blockedFutexes, processes, pid, Process(Runnable, Some(result)));
      hide Agree;
      processes := processes[pid := Process(Runnable, Some(result))];
      assert processes.Keys == old(processes.Keys);
    }

    // -------------------------------------------------------------- futexes

    /** Arms a wait; one that is armed already, and a wake counted against it, is given up. */
    method ArmFutexWait(pid: nat, key: FutexKey, bitset: bv32)
      requires Valid() && pid !in processes
      modifies this`armedFutexWaits, this`origin, this`ledger
      ensures Valid() && armedFutexWaits == old(armedFutexWaits)[pid := ArmedFutexWait(key, bitset, false)]
      ensures ledger == Cancelled(old(ledger), old(armedFutexWaits), pid)
      ensures origin == old(origin)[pid := (key, bitset)]
      ensures old(Faithful()) ==> Faithful()
    {
      ArmingKeepsBooks(ledger, armedFutexWaits, processes.Keys, pid, key, bitset);
      hide Agree, BooksOk;
      ledger := Cancelled(ledger, armedFutexWaits, pid);
      armedFutexWaits := armedFutexWaits[pid := ArmedFutexWait(key, bitset, false)];
      origin := origin[pid := (key, bitset)];
    }

    method DisarmFutexWait(pid: nat)
      requires Valid()
      modifies this`armedFutexWaits, this`ledger
      ensures Valid() && armedFutexWaits == old(armedFutexWaits) - {pid}
      ensures ledger == Cancelled(old(ledger), old(armedFutexWaits), pid)
      ensures old(Faithful()) ==> Faithful()
    {
      hide Agree, BooksOk;
      DisarmingKeepsBooks(ledger, armedFutexWaits, processes.Keys, pid);
      if pid in armedFutexWaits && armedFutexWaits[pid].racedWake {
        ledger := ledger.(cancelled := ledger.cancelled + 1);
      }
      armedFutexWaits := armedFutexWaits - {pid};
    }

    /** Counts a wake against up to `count` armed waits, the lowest process numbers first. */
    method WakeArmedFutexWaits(key: FutexKey, bitset: bv32, count: nat) returns (woke: nat, ghost chosen: set<nat>)
      requires Valid()
      modifies this`armedFutexWaits, this`ledger
      ensures Valid() && (old(Faithful()) ==> Faithful())
      ensures Lowest(chosen, ArmedFor(old(armedFutexWaits), key, bitset))
      ensures woke == |chosen| == Min(count, |ArmedFor(old(armedFutexWaits), key, bitset)|)
      ensures armedFutexWaits == MarkAll(old(armedFutexWaits), chosen)
              && armedFutexWaits.Keys == old(armedFutexWaits.Keys)
      ensures ledger == old(ledger).(counted := old(ledger).counted + woke)
    {
      hide Agree, BooksOk, MarkAll, Lowest, FaithfulTo;
      woke, chosen := MarkArmed(key, bitset, count);
      ledger := Counted(ledger, woke);
      MarkingKeepsOrigin(old(armedFutexWaits), chosen, origin);
    }

    method MarkArmed(key: FutexKey, bitset: bv32, count: nat) returns (woke: nat, ghost chosen: set<nat>)
      requires BooksOk(ledger, armedFutexWaits, processes.Keys)
      modifies this`armedFutexWaits
      ensures BooksOk(Counted(ledger, woke), armedFutexWaits, processes.Keys)
      ensures Lowest(chosen, ArmedFor(old(armedFutexWaits), key, bitset))
      ensures woke == |chosen| == Min(count, |ArmedFor(old(armedFutexWaits), key, bitset)|)
      ensures armedFutexWaits == MarkAll(old(armedFutexWaits), chosen)
    {
      hide BooksOk, MarkAll, Choosing, Lowest;
      ghost var all := ArmedFor(armedFutexWaits, key, bitset);
      var todo := ArmedFor(armedFutexWaits, key, bitset);
      woke, chosen := 0, {};
      StartChoosing(all, todo);
      MarkNone(armedFutexWaits);
      while woke < count && todo != {}
        invariant woke <= count && woke == |chosen| && todo <= all && Choosing(all, todo, chosen)
        invariant armedFutexWaits == MarkAll(old(armedFutexWaits), chosen)
        invariant BooksOk(Counted(ledger, woke), armedFutexWaits, processes.Keys)
        decreases todo
      {
        var pid := Least(todo);
        assert Armed(old(armedFutexWaits), pid, key, bitset);
        Chosen(all, todo, chosen, pid);
        MarkingKeepsBooks(Counted(ledger, woke), old(armedFutexWaits), processes.Keys, chosen, pid);
        armedFutexWaits := armedFutexWaits[pid := armedFutexWaits[pid].(racedWake := true)];
        todo, chosen := todo - {pid}, chosen + {pid};
        woke := woke + 1;
      }
      DoneChoosing(all, todo, chosen, count);
    }

    /** Wakes up to `count` waits on `key`: armed ones are marked, blocked ones made runnable. The answer
        is exactly the number of waits that were changed. */
    method WakeFutex(key: FutexKey, bitset: bv32, count: nat)
      returns (woke: nat, ghost marked: set<nat>, ghost released: set<nat>)
      requires Valid()
      modifies this`processes, this`armedFutexWaits, this`ledger
      modifies this`blockedFiles, this`blockedTimers, this`blockedFutexes, this`nextTimerDeadline
      ensures Valid() && (old(Faithful()) ==> Faithful())
      ensures Lowest(marked, ArmedFor(old(armedFutexWaits), key, bitset))
      ensures Lowest(released, BlockedFor(old(processes), key, bitset))
      ensures |marked| == Min(count, |ArmedFor(old(armedFutexWaits), key, bitset)|)
      ensures woke == |marked| + |released|
      ensures woke ==
                Min(count, |ArmedFor(old(armedFutexWaits), key, bitset)| + |BlockedFor(old(processes), key, bitset)|)
      ensures armedFutexWaits == MarkAll(old(armedFutexWaits), marked)
              && armedFutexWaits.Keys == old(armedFutexWaits.Keys)
      ensures processes == ReleaseAll(old(processes), released)
      ensures ledger ==
                old(ledger).(counted := old(ledger).counted + woke, delivered := old(ledger).delivered + |released|)
    {
      hide Agree, Valid, BooksOk, Lowest, MarkAll, ReleaseAll;
      ReleaseNone(processes);
      NoneIsLowest(BlockedFor(processes, key, bitset));
      woke, marked := WakeArmedFutexWaits(key, bitset, count);
      released := {};
      if woke >= count {
        return;
      }
      var more;
      more, released := ReleaseBlocked(key, bitset, count - woke);
      woke := woke + more;
    }

    method ReleaseBlocked(key: FutexKey, bitset: bv32, count: nat) returns (woke: nat, ghost chosen: set<nat>)
      requires Valid() && count > 0
      modifies this`processes, this`ledger
      modifies this`blockedFiles, this`blockedTimers, this`blockedFutexes, this`nextTimerDeadline
      ensures Valid()
      ensures Lowest(chosen, BlockedFor(old(processes), key, bitset))
      ensures woke == |chosen| == Min(count, |BlockedFor(old(processes), key, bitset)|)
      ensures processes == ReleaseAll(old(processes), chosen)
      ensures ledger == Delivered(old(ledger), woke)
    {
      hide Agree, Valid, BooksOk, ReleaseAll, Choosing, Lowest;
      ghost var all := BlockedFor(processes, key, bitset);
      WaitersNow(key, bitset);
      ReleaseNone(processes);
      woke, chosen := 0, {};
      if key !in blockedFutexes {
        NoneIsLowest(all);
        return;
      }
      var waiters := blockedFutexes[key];
      StartChoosing(all, waiters);
      while waiters != {} && woke < count
        invariant Valid() && woke <= count && woke == |chosen|
        invariant Choosing(all, waiters, chosen)
        invariant processes == ReleaseAll(old(processes), chosen)
        invariant ledger == Delivered(old(ledger), woke)
        decreases waiters
      {
        var pid := Least(waiters);
        ReleasedSoFar(old(processes), chosen, all, waiters, pid);
        if pid !in processes || !WaitsFor(processes[pid].state, key, bitset) {
          PassedOver(all, waiters, chosen, pid);
          waiters := waiters - {pid};
          continue;
        }
        Chosen(all, waiters, chosen, pid);
        Deliver(pid, old(processes), chosen);
        waiters, chosen := waiters - {pid}, chosen + {pid};
        woke := woke + 1;
      }
      DoneChoosing(all, waiters, chosen, count);
    }

    /** Releases one more blocked process. */
    method Deliver(pid: nat, ghost before: Processes, ghost chosen: set<nat>)
      requires Valid() && pid in processes && processes[pid].state.Blocked?
      requires processes == ReleaseAll(before, chosen)
      modifies this`processes, this`ledger
      modifies this`blockedFiles, this`blockedTimers, this`blockedFutexes, this`nextTimerDeadline
      ensures Valid() && processes == ReleaseAll(before, chosen + {pid})
      ensures ledger == Delivered(old(ledger), 1)
    {
      hide Agree, Valid, BooksOk;
      ReleaseOne(before, chosen, pid);
      hide ReleaseAll;
      WakeProcessWithResult(pid, FutexDone(true, false));
      CreditDelivery();
    }

    ghost method CreditDelivery()
      requires Valid()
      modifies this`ledger
      ensures Valid()
      ensures ledger == Delivered(old(ledger), 1)
    {
      hide Agree, Raced;
      ledger := ledger.(counted := ledger.counted + 1, delivered := ledger.delivered + 1);
    }

    // -------------------------------------------------------------- blocking

    /** A process blocks. If its futex wait was armed and a wake has been counted against it meanwhile,
        it stays runnable and is told so; the wake is lost exactly if the wait was moved to another
        key or bitset in between. */
    method BlockFromDisposition(pid: nat, block: Block) returns (p: Process)
      requires Valid() && pid !in processes
      modifies this`armedFutexWaits, this`ledger
      ensures Valid() && (old(Faithful()) ==> Faithful())
      ensures armedFutexWaits == if block.Futex? then old(armedFutexWaits) - {pid} else old(armedFutexWaits)
      ensures p == if block.Futex? && WokenInTime(old(armedFutexWaits), pid, block)
                   then Process(Runnable, Some(FutexDone(true, false))) else Process(Blocked(block), None)
      ensures ledger == if block.Futex? then Settled(old(ledger), old(armedFutexWaits), pid, block) else old(ledger)
    {
      hide Agree, BooksOk, Raced;
      if !block.Futex? {
        return Process(Blocked(block), None);
      }
      var armed := if pid in armedFutexWaits then Some(armedFutexWaits[pid]) else None;
      BlockingKeepsBooks(ledger, armedFutexWaits, processes.Keys, pid, block);
      armedFutexWaits := armedFutexWaits - {pid};
      if armed.Some? && armed.value.key == block.key && armed.value.bitset == block.bitset && armed.value.racedWake {
        ledger := ledger.(delivered := ledger.delivered + 1);
        return Process(Runnable, Some(FutexDone(true, false)));
      }
      if armed.Some? && armed.value.racedWake {
        ledger := ledger.(lost := ledger.lost + 1);
      }
      p := Process(Blocked(block), None);
    }

    /** Puts a process back that was running; `ready` is the answer if it blocks on a file that is
        ready already. */
    method RequeueProcess(pid: nat, p: Process, ready: Option<BlockResult>)
      requires Valid() && pid !in processes && pid !in armedFutexWaits
      modifies this`processes, this`blockedFiles, this`blockedTimers, this`blockedFutexes, this`nextTimerDeadline
      ensures Valid()
      ensures processes == if p.state.Exited? || p.state.Running? || p.state.Faulted? then old(processes)
                           else if OnFile(p.state) && ready.Some? then old(processes)[pid := Process(Runnable, ready)]
                           else old(processes)[pid := p]
    {
      if p.state.Runnable? {
        SetUnblocked(pid, p);
      } else if p.state.Blocked? || p.state.Stopped? {
        if OnFile(p.state) && ready.Some? {
          SetUnblocked(pid, Process(Runnable, ready));
        } else {
          hide Agree;
          TrackBlockedProcess(pid, p.state, processes, p);
          processes := processes[pid := p];
        }
      }
    }

    /** A system call ends by blocking. */
    method FinishKernelBlock(pid: nat, block: Block, ready: Option<BlockResult>)
      requires Valid() && pid !in processes
      modifies this`processes, this`armedFutexWaits, this`ledger
      modifies this`blockedFiles, this`blockedTimers, this`blockedFutexes, this`nextTimerDeadline
      ensures Valid() && (old(Faithful()) ==> Faithful())
      ensures armedFutexWaits == old(armedFutexWaits) - {pid}
      ensures ledger == if block.Futex? then Settled(old(ledger), old(armedFutexWaits), pid, block)
                        else Cancelled(old(ledger), old(armedFutexWaits), pid)
      ensures block.Futex? && WokenInTime(old(armedFutexWaits), pid, block) ==>
                processes == old(processes)[pid := Process(Runnable, Some(FutexDone(true, false)))]
      ensures block.Futex? && !WokenInTime(old(armedFutexWaits), pid, block) ==>
                processes == old(processes)[pid := Process(Blocked(block), None)]
      ensures !block.Futex? ==> processes == old(processes)[pid := if OnFile(Blocked(block)) && ready.Some?
                                                                   then Process(Runnable, ready)
                                                                   else Process(Blocked(block), None)]
      ensures old(Faithful())
              && (pid in old(armedFutexWaits) && block.Futex? ==> origin[pid] == (block.key, block.bitset)) ==>
                ledger.lost == old(ledger).lost
      ensures old(Faithful()) && pid in Raced(old(armedFutexWaits)) && block.Futex?
              && origin[pid] == (block.key, block.bitset) ==>
                processes == old(processes)[pid := Process(Runnable, Some(FutexDone(true, false)))]
    {
      hide Agree, Valid, BooksOk;
      if !block.Futex? {
        DisarmFutexWait(pid);
      }
      var p := BlockFromDisposition(pid, block);
      RequeueProcess(pid, p, ready);
    }

    /** A system call ends by returning. */
    method FinishSyscallReturn(pid: nat)
      requires Valid() && pid !in processes
      modifies this`processes, this`armedFutexWaits, this`ledger
      modifies this`blockedFiles, this`blockedTimers, this`blockedFutexes, this`nextTimerDeadline
      ensures Valid() && (old(Faithful()) ==> Faithful())
      ensures processes == old(processes)[pid := Process(Runnable, None)]
      ensures armedFutexWaits == old(armedFutexWaits) - {pid}
      ensures ledger == Cancelled(old(ledger), old(armedFutexWaits), pid)
    {
      hide Agree, Valid, BooksOk;
      DisarmFutexWait(pid);
      RequeueProcess(pid, Process(Runnable, None), None);
    }

    // -------------------------------------------------------------- moving waits to another futex

    method RequeueArmedFutexWaits(from: FutexKey, to: FutexKey, count: nat, bitset: bv32)
      returns (moved: nat, ghost chosen: set<nat>)
      requires Valid()
      modifies this`armedFutexWaits
      ensures Valid()
      ensures Lowest(chosen, ArmedFor(old(armedFutexWaits), from, bitset))
      ensures moved == |chosen| == Min(count, |ArmedFor(old(armedFutexWaits), from, bitset)|)
      ensures armedFutexWaits == MoveAll(old(armedFutexWaits), chosen, to)
              && armedFutexWaits.Keys == old(armedFutexWaits.Keys)
    {
      hide Agree, BooksOk, MoveAll, Choosing, Lowest, NextOk, Indexed, ArmedFor;
      ghost var all := ArmedFor(armedFutexWaits, from, bitset);
      var todo := ArmedFor(armedFutexWaits, from, bitset);
      moved, chosen := 0, {};
      StartChoosing(all, todo);
      MoveNone(armedFutexWaits, to);
      while moved < count && todo != {}
        invariant Valid() && moved <= count && moved == |chosen| && todo <= all
        invariant Choosing(all, todo, chosen)
        invariant armedFutexWaits == MoveAll(old(armedFutexWaits), chosen, to)
        decreases todo
      {
        var pid := Least(todo);
        ArmedForArmed(old(armedFutexWaits), from, bitset, pid);
        Chosen(all, todo, chosen, pid);
        MovingKeepsBooks(ledger, old(armedFutexWaits), processes.Keys, chosen, pid, to);
        armedFutexWaits := armedFutexWaits[pid := armedFutexWaits[pid].(key := to)];
        todo, chosen := todo - {pid}, chosen + {pid};
        moved := moved + 1;
      }
      DoneChoosing(all, todo, chosen, count);
      MovedKeys(old(armedFutexWaits), chosen, to);
    }

    /** Moves one blocked wait to another key. */
    method MoveBlocked(pid: nat, to: FutexKey)
      requires Valid() && pid in processes && processes[pid].state.Blocked? && processes[pid].state.block.Futex?
      modifies this`processes, this`blockedFiles, this`blockedTimers, this`blockedFutexes, this`nextTimerDeadline
      ensures Valid() && processes == old(processes)[pid := Rekeyed(old(processes)[pid], to)]
    {
      hide Agree;
      var p := processes[pid];
      var q := Rekeyed(p, to);
      ghost var idle := Process(Runnable, None);
      ghost var ps := processes;
      assert {} - {pid} == {};
      UntrackBlockedProcess(pid, p.state, processes, idle, {});
      ghost var between: Processes := ps[pid := idle];
      TrackBlockedProcess(pid, q.state, between, q);
      assert between[pid := q] == ps[pid := q];
      processes := processes[pid := q];
    }

    /** Moves up to `count` blocked waits, the lowest process numbers first. */
    method MoveAllBlocked(from: FutexKey, to: FutexKey, count: nat, bitset: bv32) returns (ghost chosen: set<nat>)
      requires Valid()
      modifies this`processes, this`blockedFiles, this`blockedTimers, this`blockedFutexes, this`nextTimerDeadline
      ensures Valid()
      ensures Lowest(chosen, BlockedFor(old(processes), from, bitset))
      ensures |chosen| == Min(count, |BlockedFor(old(processes), from, bitset)|)
      ensures processes == RekeyAll(old(processes), chosen, to)
    {
      hide Agree, Valid, BooksOk, Choosing, Lowest, RekeyAll;
      ghost var all := BlockedFor(processes, from, bitset);
      WaitersNow(from, bitset);
      RekeyNone(processes, to);
      chosen := {};
      if from !in blockedFutexes {
        NoneIsLowest(all);
        return;
      }
      var waiters := blockedFutexes[from];
      var moved: nat := 0;
      StartChoosing(all, waiters);
      while waiters != {} && moved < count
        invariant Valid() && moved <= count && moved == |chosen| && Choosing(all, waiters, chosen)
        invariant processes == RekeyAll(old(processes), chosen, to)
        decreases waiters
      {
        var pid := Least(waiters);
        RekeyedSoFar(old(processes), chosen, all, waiters, pid, to);
        if pid !in processes || !WaitsFor(processes[pid].state, from, bitset) {
          PassedOver(all, waiters, chosen, pid);
          waiters := waiters - {pid};
          continue;
        }
        Chosen(all, waiters, chosen, pid);
        RekeyOne(old(processes), chosen, pid, to);
        waiters := waiters - {pid};
        MoveBlocked(pid, to);
        chosen := chosen + {pid};
        moved := moved + 1;
      }
      DoneChoosing(all, waiters, chosen, count);
    }

    /** Wakes some waits on `from` and moves others to `to`, armed ones before blocked ones. Armed waits
        keep the key they were armed with exactly if the call moves none of them to another futex. */
    method RequeueFutex(from: FutexKey, to: FutexKey, wakeCount: nat, requeueCount: nat, bitset: bv32)
      returns (woke: nat, ghost marked: set<nat>, ghost released: set<nat>, ghost shifted: set<nat>,
               ghost moved: set<nat>)
      requires Valid()
      modifies this`processes, this`armedFutexWaits, this`ledger
      modifies this`blockedFiles, this`blockedTimers, this`blockedFutexes, this`nextTimerDeadline
      ensures Valid()
      ensures woke == Min(wakeCount,
                          |ArmedFor(old(armedFutexWaits), from, bitset)| + |BlockedFor(old(processes), from, bitset)|)
      ensures woke == |marked| + |released|
      ensures Lowest(marked, ArmedFor(old(armedFutexWaits), from, bitset))
      ensures |marked| == Min(wakeCount, |ArmedFor(old(armedFutexWaits), from, bitset)|)
      ensures Lowest(released, BlockedFor(old(processes), from, bitset))
      ensures ledger ==
                old(ledger).(counted := old(ledger).counted + woke, delivered := old(ledger).delivered + |released|)
      ensures armedFutexWaits == MoveAll(MarkAll(old(armedFutexWaits), marked), shifted, to)
      ensures processes == RekeyAll(ReleaseAll(old(processes), released), moved, to)
      ensures Lowest(shifted, ArmedFor(MarkAll(old(armedFutexWaits), marked), from, bitset))
      ensures |shifted| == Min(requeueCount, |ArmedFor(MarkAll(old(armedFutexWaits), marked), from, bitset)|)
      ensures Lowest(moved, BlockedFor(ReleaseAll(old(processes), released), from, bitset))
      ensures |moved| == Min(requeueCount - |shifted|, |BlockedFor(ReleaseAll(old(processes), released), from, bitset)|)
      ensures old(Faithful()) ==>
                (Faithful() <==> MovesNone(old(armedFutexWaits), from, to, wakeCount, requeueCount, bitset))
    {
      hide Agree, Valid, BooksOk, MarkAll, MoveAll, ReleaseAll, RekeyAll, FaithfulTo, Lowest, ArmedFor;
      woke, marked, released := WakeFutex(from, bitset, wakeCount);
      ghost var waits := armedFutexWaits;
      UnmarkedLeft(old(armedFutexWaits), marked, from, bitset);
      var count;
      count, shifted := RequeueArmedFutexWaits(from, to, requeueCount, bitset);
      MovedAreArmed(waits, shifted, from, bitset);
      MovingKeepsOrigin(waits, shifted, from, to, origin);
      moved := MoveAllBlocked(from, to, requeueCount - count, bitset);
    }

    lemma WaitersNow(key: FutexKey, bitset: bv32)
      requires Valid()
      ensures key in blockedFutexes ==> BlockedFor(processes, key, bitset) <= blockedFutexes[key]
      ensures key !in blockedFutexes ==> BlockedFor(processes, key, bitset) == {}
    {
      WaitersOf(blockedFiles, blockedTimers, blockedFutexes, processes, key, bitset);
    }

    // -------------------------------------------------------------- files

    /** A file that a process waits for has become ready; here the listener runs undisturbed. */
    method FileBecameReady(pid: nat)
      modifies this`fileWaitQueue, this`fileWaitEnqueued, this`fileWaitPending
      ensures fileWaitPending && fileWaitEnqueued == old(fileWaitEnqueued) + {pid}
      ensures fileWaitQueue == if pid in old(fileWaitEnqueued) then old(fileWaitQueue) else old(fileWaitQueue) + [pid]
      ensures old(QueueSound()) ==> QueueSound() && pid in fileWaitQueue
    {
      if pid !in fileWaitQueue {
        QueuedOnce(fileWaitQueue, pid);
      }
      if pid !in fileWaitEnqueued {
        fileWaitEnqueued := fileWaitEnqueued + {pid};
        fileWaitQueue := fileWaitQueue + [pid];
      }
      fileWaitPending := true;
      assert fileWaitEnqueued == old(fileWaitEnqueued) + {pid};
    }

    /** Wakes the processes whose files have become ready since the last time. */
    method WakeReadyFileBlocks()
      requires Valid()
      modifies this`processes, this`blockedFiles, this`blockedTimers, this`blockedFutexes, this`nextTimerDeadline
      modifies this`fileWaitQueue, this`fileWaitEnqueued, this`fileWaitPending
      ensures Valid() && !fileWaitPending && processes.Keys == old(processes.Keys)
      ensures !old(fileWaitPending) ==> processes == old(processes) && fileWaitQueue == old(fileWaitQueue)
      ensures old(fileWaitPending) ==> fileWaitQueue == []
      ensures old(fileWaitPending) ==> fileWaitEnqueued == old(fileWaitEnqueued) - Elements(old(fileWaitQueue))
      ensures old(fileWaitPending) ==> forall pid :: pid in processes ==>
                processes[pid] ==
                if pid in old(fileWaitQueue) then FileWoken(old(processes)[pid]) else old(processes)[pid]
      ensures old(QueueSound()) ==> QueueSound() && fileWaitQueue == [] && fileWaitEnqueued == {}
    {
      hide Agree, Valid, BooksOk;
      if !fileWaitPending {
        return;
      }
      fileWaitPending := false;
      var ready: seq<nat> := [];
      while fileWaitQueue != []
        invariant Valid() && processes == old(processes) && !fileWaitPending
        invariant ready + fileWaitQueue == old(fileWaitQueue)
        invariant fileWaitEnqueued == old(fileWaitEnqueued) - Elements(ready)
        decreases |fileWaitQueue|
      {
        var pid := fileWaitQueue[0];
        fileWaitQueue := fileWaitQueue[1..];
        fileWaitEnqueued := fileWaitEnqueued - {pid};
        ready := ready + [pid];
      }
      assert ready == old(fileWaitQueue);
      WakeFileWaiters(ready);
    }

    /** Wakes those of the processes that wait for a file. */
    method WakeFileWaiters(ready: seq<nat>)
      requires Valid()
      modifies this`processes, this`blockedFiles, this`blockedTimers, this`blockedFutexes, this`nextTimerDeadline
      ensures Valid() && processes.Keys == old(processes.Keys)
      ensures forall pid :: pid in processes ==>
                processes[pid] == if pid in ready then FileWoken(old(processes)[pid]) else old(processes)[pid]
    {
      hide Agree, Valid, BooksOk;
      var i := 0;
      while i < |ready|
        invariant i <= |ready| && Valid()
        invariant processes.Keys == old(processes.Keys)
        invariant forall pid :: pid in processes ==>
                    processes[pid] == if pid in ready[..i] then FileWoken(old(processes)[pid]) else old(processes)[pid]
      {
        var pid := ready[i];
        assert ready[..i + 1] == ready[..i] + [pid];
        if pid in processes && processes[pid].state.Blocked? {
          if processes[pid].state.block.File? {
            WakeProcessWithResult(pid, FileReady);
          } else if processes[pid].state.block.Poll? {
            WakeProcessWithResult(pid, PollDone(false));
          }
        }
        i := i + 1;
      }
      assert ready[..i] == ready;
    }
  }

  function Elements(s: seq<nat>): set<nat> {
    set x | x in s
  }

  function FileWoken(p: Process): Process {
    if p.state.Blocked? && p.state.block.File? then Process(Runnable, Some(FileReady))
    else if p.state.Blocked? && p.state.block.Poll? then Process(Runnable, Some(PollDone(false)))
    else p
  }

  /** `chosen` are the lowest numbers of `all`. */
  predicate Lowest(chosen: set<nat>, all: set<nat>) {
    chosen <= all && forall p, q :: p in chosen && q in all - chosen ==> p < q
  }

  function MarkAll(armed: map<nat, ArmedFutexWait>, chosen: set<nat>): map<nat, ArmedFutexWait> {
    map pid | pid in armed :: if pid in chosen then armed[pid].(racedWake := true) else armed[pid]
  }

  function MoveAll(armed: map<nat, ArmedFutexWait>, chosen: set<nat>, to: FutexKey): map<nat, ArmedFutexWait> {
    map pid | pid in armed :: if pid in chosen then armed[pid].(key := to) else armed[pid]
  }

  function ReleaseAll(ps: Processes, chosen: set<nat>): Processes {
    map pid | pid in ps :: if pid in chosen then Process(Runnable, Some(FutexDone(true, false))) else ps[pid]
  }

  function Rekeyed(p: Process, to: FutexKey): Process
    requires p.state.Blocked? && p.state.block.Futex?
  {
    p.(state := Blocked(p.state.block.(key := to)))
  }

  function RekeyAll(ps: Processes, chosen: set<nat>, to: FutexKey): Processes {
    map pid | pid in ps ::
      if pid in chosen && ps[pid].state.Blocked? && ps[pid].state.block.Futex? then Rekeyed(ps[pid], to) else ps[pid]
  }

  lemma RekeyNone(ps: Processes, to: FutexKey)
    ensures RekeyAll(ps, {}, to) == ps
  {
  }

  lemma RekeyOne(ps: Processes, chosen: set<nat>, pid: nat, to: FutexKey)
    requires pid in ps && ps[pid].state.Blocked? && ps[pid].state.block.Futex?
    ensures RekeyAll(ps, chosen, to)[pid := Rekeyed(ps[pid], to)] == RekeyAll(ps, chosen + {pid}, to)
  {
  }

  lemma RekeyedSoFar(ps: Processes, chosen: set<nat>, all: set<nat>, todo: set<nat>, pid: nat, to: FutexKey)
    requires Choosing(all, todo, chosen) && pid in todo
    ensures pid in RekeyAll(ps, chosen, to) <==> pid in ps
    ensures pid in ps ==> RekeyAll(ps, chosen, to)[pid] == ps[pid]
  {
  }

  /** A wake was counted against the armed wait that `block` continues. */
  predicate WokenInTime(armed: map<nat, ArmedFutexWait>, pid: nat, block: Block)
    requires block.Futex?
  {
    pid in armed && armed[pid].key == block.key && armed[pid].bitset == block.bitset && armed[pid].racedWake
  }

  lemma SmallerSet(a: set<nat>, b: set<nat>)
    requires a <= b
    ensures |a| <= |b|
  {
    assert b == a + (b - a);
  }

  lemma RacedWithout(armed: map<nat, ArmedFutexWait>, pid: nat)
    ensures Raced(armed - {pid}) == Raced(armed) - {pid}
    ensures |Raced(armed - {pid})| == |Raced(armed)| - if pid in Raced(armed) then 1 else 0
  {
    assert Raced(armed - {pid}) == Raced(armed) - {pid};
  }

  // ---------------------------------------------------------------- the books

  lemma ArmingKeepsBooks(ledger: Ledger, armed: map<nat, ArmedFutexWait>, parked: set<nat>, pid: nat, key: FutexKey,
                         bitset: bv32)
    requires BooksOk(ledger, armed, parked) && pid !in parked
    ensures BooksOk(Cancelled(ledger, armed, pid), armed[pid := ArmedFutexWait(key, bitset, false)], parked)
  {
    DisarmingKeepsBooks(ledger, armed, parked, pid);
    assert Raced(armed[pid := ArmedFutexWait(key, bitset, false)]) == Raced(armed - {pid});
  }

  /** `woke` wakes have been counted and reached their process at once. */
  function Delivered(ledger: Ledger, woke: nat): Ledger {
    ledger.(counted := ledger.counted + woke, delivered := ledger.delivered + woke)
  }

  function Counted(ledger: Ledger, woke: nat): Ledger {
    ledger.(counted := ledger.counted + woke)
  }

  function Cancelled(ledger: Ledger, armed: map<nat, ArmedFutexWait>, pid: nat): Ledger {
    if pid in armed && armed[pid].racedWake then ledger.(cancelled := ledger.cancelled + 1) else ledger
  }

  lemma DisarmingKeepsBooks(ledger: Ledger, armed: map<nat, ArmedFutexWait>, parked: set<nat>, pid: nat)
    requires BooksOk(ledger, armed, parked)
    ensures BooksOk(Cancelled(ledger, armed, pid), armed - {pid}, parked)
  {
    RacedWithout(armed, pid);
  }

  /** What becomes of the wake counted against the wait that `block` continues. */
  function Settled(ledger: Ledger, armed: map<nat, ArmedFutexWait>, pid: nat, block: Block): Ledger
    requires block.Futex?
  {
    if WokenInTime(armed, pid, block) then ledger.(delivered := ledger.delivered + 1)
    else if pid in armed && armed[pid].racedWake then ledger.(lost := ledger.lost + 1)
    else ledger
  }

  lemma BlockingKeepsBooks(ledger: Ledger, armed: map<nat, ArmedFutexWait>, parked: set<nat>, pid: nat, block: Block)
    requires BooksOk(ledger, armed, parked) && block.Futex?
    ensures BooksOk(Settled(ledger, armed, pid, block), armed - {pid}, parked)
  {
    RacedWithout(armed, pid);
  }

  /** Armed waits that are moved away from their key are no longer as they were armed. */
  lemma MovingKeepsOrigin(armed: map<nat, ArmedFutexWait>, chosen: set<nat>, from: FutexKey, to: FutexKey,
                          origin: map<nat, (FutexKey, bv32)>)
    requires forall pid :: pid in chosen ==> pid in armed && armed[pid].key == from
    ensures FaithfulTo(armed, origin) ==>
              (FaithfulTo(MoveAll(armed, chosen, to), origin) <==> chosen == {} || from == to)
  {
    var moved := MoveAll(armed, chosen, to);
    if FaithfulTo(armed, origin) && chosen != {} && from != to {
      var pid :| pid in chosen;
      assert pid in moved && moved[pid].key == to;
      assert !AsArmed(moved[pid], origin[pid]);
    }
  }

  /** A requeue leaves the armed waits where they are: the futexes are the same, nothing is to be moved, or
      all armed waits are woken first. */
  predicate MovesNone(armed: map<nat, ArmedFutexWait>, from: FutexKey, to: FutexKey, wakeCount: nat, requeueCount: nat,
                      bitset: bv32) {
    from == to || requeueCount == 0 || |ArmedFor(armed, from, bitset)| <= wakeCount
  }

  /** Once some waits are marked, the others can still be reached. */
  lemma UnmarkedLeft(armed: map<nat, ArmedFutexWait>, marked: set<nat>, key: FutexKey, bitset: bv32)
    requires Lowest(marked, ArmedFor(armed, key, bitset))
    ensures ArmedFor(MarkAll(armed, marked), key, bitset) == ArmedFor(armed, key, bitset) - marked
    ensures |ArmedFor(MarkAll(armed, marked), key, bitset)| == |ArmedFor(armed, key, bitset)| - |marked|
  {
    var after := MarkAll(armed, marked);
    forall pid | pid in armed
      ensures Armed(after, pid, key, bitset) <==> Armed(armed, pid, key, bitset) && pid !in marked
    {
    }
    assert ArmedFor(after, key, bitset) == ArmedFor(armed, key, bitset) - marked;
  }

  lemma MovedAreArmed(armed: map<nat, ArmedFutexWait>, chosen: set<nat>, key: FutexKey, bitset: bv32)
    requires Lowest(chosen, ArmedFor(armed, key, bitset))
    ensures forall pid :: pid in chosen ==> pid in armed && armed[pid].key == key
  {
    forall pid | pid in chosen
      ensures pid in armed && armed[pid].key == key
    {
      assert Armed(armed, pid, key, bitset);
    }
  }

  lemma MarkNone(armed: map<nat, ArmedFutexWait>)
    ensures MarkAll(armed, {}) == armed
  {
  }

  lemma MarkingKeepsBooks(ledger: Ledger, armed: map<nat, ArmedFutexWait>, parked: set<nat>, chosen: set<nat>, pid: nat)
    requires BooksOk(ledger, MarkAll(armed, chosen), parked)
    requires pid in armed && pid !in chosen && !armed[pid].racedWake
    ensures pid in MarkAll(armed, chosen)
    ensures MarkAll(armed, chosen)[pid := MarkAll(armed, chosen)[pid].(racedWake := true)] ==
              MarkAll(armed, chosen + {pid})
    ensures BooksOk(Counted(ledger, 1), MarkAll(armed, chosen + {pid}), parked)
  {
    assert Raced(MarkAll(armed, chosen + {pid})) == Raced(MarkAll(armed, chosen)) + {pid};
    assert MarkAll(armed, chosen + {pid}).Keys == MarkAll(armed, chosen).Keys;
  }

  lemma MarkingKeepsOrigin(armed: map<nat, ArmedFutexWait>, chosen: set<nat>, origin: map<nat, (FutexKey, bv32)>)
    ensures MarkAll(armed, chosen).Keys == armed.Keys
    ensures FaithfulTo(armed, origin) ==> FaithfulTo(MarkAll(armed, chosen), origin)
  {
  }

  lemma MoveNone(armed: map<nat, ArmedFutexWait>, to: FutexKey)
    ensures MoveAll(armed, {}, to) == armed
  {
  }

  lemma MovingKeepsBooks(ledger: Ledger, armed: map<nat, ArmedFutexWait>, parked: set<nat>, chosen: set<nat>, pid: nat,
                         to: FutexKey)
    requires BooksOk(ledger, MoveAll(armed, chosen, to), parked)
    requires pid in armed && pid !in chosen
    ensures pid in MoveAll(armed, chosen, to)
    ensures MoveAll(armed, chosen, to)[pid := MoveAll(armed, chosen, to)[pid].(key := to)] ==
              MoveAll(armed, chosen + {pid}, to)
    ensures BooksOk(ledger, MoveAll(armed, chosen + {pid}, to), parked)
  {
    assert Raced(MoveAll(armed, chosen + {pid}, to)) == Raced(MoveAll(armed, chosen, to));
    assert MoveAll(armed, chosen + {pid}, to).Keys == MoveAll(armed, chosen, to).Keys;
  }

  lemma ArmedForArmed(armed: map<nat, ArmedFutexWait>, key: FutexKey, bitset: bv32, pid: nat)
    requires pid in ArmedFor(armed, key, bitset)
    ensures pid in armed && Armed(armed, pid, key, bitset)
  {
  }

  lemma MovedKeys(armed: map<nat, ArmedFutexWait>, chosen: set<nat>, to: FutexKey)
    ensures MoveAll(armed, chosen, to).Keys == armed.Keys
  {
  }

  // ---------------------------------------------------------------- choosing the lowest

  /** The numbers below those in `todo` have been dealt with: those in `all` are in `chosen`. */
  predicate Choosing(all: set<nat>, todo: set<nat>, chosen: set<nat>) {
    && chosen <= all <= chosen + todo && chosen !! todo
    && forall p, q :: p in chosen && q in todo ==> p < q
  }

  lemma QueuedOnce(queue: seq<nat>, pid: nat)
    requires pid !in queue
    ensures Distinct(queue) ==> Distinct(queue + [pid])
    ensures Elements(queue + [pid]) == Elements(queue) + {pid}
  {
    if Distinct(queue) {
      forall i, j | 0 <= i < |queue + [pid]| && 0 <= j < |queue + [pid]| && i != j
        ensures Differ(queue + [pid], i, j)
      {
        assert i < |queue| && j < |queue| ==> Differ(queue, i, j);
      }
    }
  }

  lemma StartChoosing(all: set<nat>, todo: set<nat>)
    requires all <= todo
    ensures Choosing(all, todo, {})
  {
  }

  lemma Chosen(all: set<nat>, todo: set<nat>, chosen: set<nat>, pid: nat)
    requires Choosing(all, todo, chosen) && pid in todo && pid in all && forall q :: q in todo ==> pid <= q
    ensures Choosing(all, todo - {pid}, chosen + {pid}) && |chosen + {pid}| == |chosen| + 1 && pid !in chosen
  {
  }

  lemma PassedOver(all: set<nat>, todo: set<nat>, chosen: set<nat>, pid: nat)
    requires Choosing(all, todo, chosen) && pid in todo && pid !in all
    ensures Choosing(all, todo - {pid}, chosen)
  {
  }

  lemma DoneChoosing(all: set<nat>, todo: set<nat>, chosen: set<nat>, count: nat)
    requires Choosing(all, todo, chosen) && |chosen| <= count && (todo == {} || |chosen| == count)
    ensures Lowest(chosen, all) && |chosen| == Min(count, |all|)
  {
    SmallerSet(chosen, all);
    if todo == {} {
      assert chosen == all;
    }
  }

  lemma NoneIsLowest(all: set<nat>)
    ensures Lowest({}, all)
  {
  }

  lemma ReleaseNone(ps: Processes)
    ensures ReleaseAll(ps, {}) == ps
  {
  }

  /** A waiter that has not been chosen yet is as it was. */
  lemma ReleasedSoFar(ps: Processes, chosen: set<nat>, all: set<nat>, todo: set<nat>, pid: nat)
    requires Choosing(all, todo, chosen) && pid in todo
    ensures pid in ReleaseAll(ps, chosen) <==> pid in ps
    ensures pid in ps ==> ReleaseAll(ps, chosen)[pid] == ps[pid]
  {
  }

  lemma ReleaseOne(ps: Processes, chosen: set<nat>, pid: nat)
    requires pid in ps
    ensures ReleaseAll(ps, chosen)[pid := Process(Runnable, Some(FutexDone(true, false)))] ==
              ReleaseAll(ps, chosen + {pid})
  {
  }

  /** Whoever waits on a futex is in its slot of the index. */
  lemma WaitersOf(files: set<nat>, timers: map<nat, set<nat>>, futexes: map<FutexKey, set<nat>>, ps: Processes,
                  key: FutexKey, bitset: bv32)
    requires Agree(files, timers, futexes, ps, {})
    ensures key in futexes ==> BlockedFor(ps, key, bitset) <= futexes[key]
    ensures key !in futexes ==> BlockedFor(ps, key, bitset) == {}
  {
    forall pid | pid in BlockedFor(ps, key, bitset)
      ensures key in futexes && pid in futexes[key]
    {
      assert Filed(futexes, Keys(ps), pid);
    }
  }

  predicate FaithfulTo(armed: map<nat, ArmedFutexWait>, origin: map<nat, (FutexKey, bv32)>) {
    forall pid :: pid in armed ==> pid in origin && AsArmed(armed[pid], origin[pid])
  }

  predicate AsArmed(wait: ArmedFutexWait, with: (FutexKey, bv32)) {
    wait.key == with.0 && wait.bitset == with.1
  }

  /** How a process leaves when its thread group exits. */
  function Ousted(p: Process): Process {
    if p.state.Exited? then p
    else if p.state.Blocked? then Process(Runnable, Some(SignalInterrupted))
    else Process(Runnable, p.wakeResult)
  }

  /** The answer to a wait that a signal ends; waits for files and children go on. */
  function Interruption(block: Block, now: nat): Option<BlockResult> {
    match block
    case Timer(target) => Some(if now < target then TimerDone(false, target - now) else TimerDone(true, 0))
    case SignalSuspend => Some(SignalInterrupted)
    case Poll(deadline) => Some(SignalInterrupted)
    case Futex(key, bitset, deadline) => Some(SignalInterrupted)
    case _ => None
  }

  function Signalled(p: Process, continues: bool, deliverable: bool, now: nat): Process {
    if continues && p.state.Stopped? then Process(Runnable, p.wakeResult)
    else if deliverable && p.state.Blocked? && Interruption(p.state.block, now).Some? then
      Process(Runnable, Interruption(p.state.block, now))
    else p
  }

  /** The answer to a wait that has timed out. */
  function TimeoutResult(s: ProcessState): BlockResult {
    match s
    case Blocked(Futex(key, bitset, deadline)) => FutexDone(false, true)
    case Blocked(Poll(deadline)) => PollDone(true)
    case _ => TimerDone(true, 0)
  }

  predicate Expired(p: Process, q: Process, now: nat) {
    && DeadlineOf(p.state).Some? && DeadlineOf(p.state).value <= now
    && q == Process(Runnable, Some(TimeoutResult(p.state)))
  }

  function Expire(p: Process, now: nat): Process {
    if DeadlineOf(p.state).Some? && DeadlineOf(p.state).value <= now
    then Process(Runnable, Some(TimeoutResult(p.state)))
    else p
  }

  /** Once only later deadlines are left in the index, nothing is left to expire. */
  lemma AllExpired(before: Processes, ps: Processes, files: set<nat>, timers: map<nat, set<nat>>,
                   futexes: map<FutexKey, set<nat>>, now: nat)
    requires Agree(files, timers, futexes, ps, {}) && ps.Keys == before.Keys
    requires forall pid :: pid in ps ==> ps[pid] == before[pid] || Expired(before[pid], ps[pid], now)
    requires forall d :: d in timers ==> d > now
    ensures ps == map pid | pid in before :: Expire(before[pid], now)
  {
    forall pid | pid in ps
      ensures ps[pid] == Expire(before[pid], now)
    {
      assert Deadlines(ps) - {} == Deadlines(ps);
      assert Filed(timers, Deadlines(ps), pid);
    }
  }

  lemma SlotTaken(files: set<nat>, timers: map<nat, set<nat>>, futexes: map<FutexKey, set<nat>>, ps: Processes, d: nat)
    requires Agree(files, timers, futexes, ps, {}) && d in timers
    ensures Agree(files, timers - {d}, futexes, ps, timers[d])
    ensures forall pid :: pid in timers[d] ==> pid in ps && DeadlineOf(ps[pid].state) == Some(d)
  {
    assert Deadlines(ps) - {} == Deadlines(ps);
    DropSlotKeeps(timers, Deadlines(ps), d);
    assert SlotOk(timers, Deadlines(ps), d);
  }

  lemma StaysOut(files: set<nat>, timers: map<nat, set<nat>>, futexes: map<FutexKey, set<nat>>,
                 ps: Processes, pid: nat, p: Process)
    requires Agree(files, timers, futexes, ps, {}) && (pid in ps ==> !ps[pid].state.Blocked?) && !p.state.Blocked?
    ensures Agree(files, timers, futexes, ps[pid := p], {})
  {
    EntersIndexes(files, timers, futexes, ps, pid, p);
  }

  predicate Unindexed(s: ProcessState) {
    !OnFile(s) && DeadlineOf(s).None? && KeyOf(s).None?
  }

  lemma ReplacesUnindexed(files: set<nat>, timers: map<nat, set<nat>>, futexes: map<FutexKey, set<nat>>,
                          ps: Processes, pid: nat, p: Process)
    requires Agree(files, timers, futexes, ps, {}) && pid in ps && Unindexed(ps[pid].state) && Unindexed(p.state)
    ensures Agree(files, timers, futexes, ps[pid := p], {})
  {
    assert FileWaiters(ps[pid := p]) == FileWaiters(ps);
    assert Deadlines(ps[pid := p]) - {} == Deadlines(ps) - {};
    assert Keys(ps[pid := p]) == Keys(ps);
  }

  lemma GoesAway(files: set<nat>, timers: map<nat, set<nat>>, futexes: map<FutexKey, set<nat>>, ps: Processes, pid: nat)
    requires Agree(files, timers, futexes, ps, {}) && pid in ps && !ps[pid].state.Blocked?
    ensures Agree(files, timers, futexes, ps - {pid}, {})
  {
    assert FileWaiters(ps - {pid}) == FileWaiters(ps);
    assert Deadlines(ps - {pid}) - {} == Deadlines(ps) - {};
    assert Keys(ps - {pid}) == Keys(ps);
  }

  function FilesAfter(files: set<nat>, pid: nat, s: ProcessState): set<nat> {
    if OnFile(s) then files + {pid} else files
  }

  lemma EntersIndexes(files: set<nat>, timers: map<nat, set<nat>>, futexes: map<FutexKey, set<nat>>,
                      ps: Processes, pid: nat, p: Process)
    requires Agree(files, timers, futexes, ps, {}) && (pid in ps ==> !ps[pid].state.Blocked?)
    ensures Agree(FilesAfter(files, pid, p.state),
                  if DeadlineOf(p.state).Some? then Enter(timers, DeadlineOf(p.state).value, pid) else timers,
                  if KeyOf(p.state).Some? then Enter(futexes, KeyOf(p.state).value, pid) else futexes,
                  ps[pid := p], {})
  {
    DeadlinesOfPut(ps, pid, p);
    KeysOfPut(ps, pid, p);
    FileWaitersOfPut(ps, pid, p);
    assert pid !in FileWaiters(ps) && pid !in Deadlines(ps) && pid !in Keys(ps);
    assert Deadlines(ps) - {} == Deadlines(ps) && Deadlines(ps) - {pid} == Deadlines(ps)
           && Keys(ps) - {pid} == Keys(ps);
    assert Deadlines(ps[pid := p]) - {} == Deadlines(ps[pid := p]);
    if DeadlineOf(p.state).Some? {
      EnterKeeps(timers, Deadlines(ps), DeadlineOf(p.state).value, pid);
    }
    if KeyOf(p.state).Some? {
      EnterKeeps(futexes, Keys(ps), KeyOf(p.state).value, pid);
    }
  }

  lemma LeavesIndexes(files: set<nat>, timers: map<nat, set<nat>>, futexes: map<FutexKey, set<nat>>,
                      ps: Processes, pid: nat, p: Process, hidden: set<nat>)
    requires Agree(files, timers, futexes, ps, hidden) && pid in ps && !p.state.Blocked?
    requires pid in hidden ==> DeadlineOf(ps[pid].state).Some? && DeadlineOf(ps[pid].state).value !in timers
    ensures Agree(if OnFile(ps[pid].state) then files - {pid} else files,
                  if DeadlineOf(ps[pid].state).Some? then Leave(timers, DeadlineOf(ps[pid].state).value, pid)
                  else timers,
                  if KeyOf(ps[pid].state).Some? then Leave(futexes, KeyOf(ps[pid].state).value, pid) else futexes,
                  ps[pid := p], hidden - {pid})
  {
    DeadlinesOfPut(ps, pid, p);
    KeysOfPut(ps, pid, p);
    FileWaitersOfPut(ps, pid, p);
    var s := ps[pid].state;
    assert Deadlines(ps[pid := p]) - (hidden - {pid}) == (Deadlines(ps) - hidden) - {pid};
    if DeadlineOf(s).Some? && pid !in hidden {
      LeaveKeeps(timers, Deadlines(ps) - hidden, DeadlineOf(s).value, pid);
    } else {
      assert (Deadlines(ps) - hidden) - {pid} == Deadlines(ps) - hidden;
    }
    if KeyOf(s).Some? {
      LeaveKeeps(futexes, Keys(ps), KeyOf(s).value, pid);
    } else {
      assert Keys(ps) - {pid} == Keys(ps);
    }
  }
}
