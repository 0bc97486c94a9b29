/** The states of parked processes and the indexes the process manager keeps of them. */
module ProcessIndexes {
  import opened Prelude

  datatype FutexScope = PrivateTo(addressSpace: nat) | SharedByAll
  datatype FutexKey = FutexKey(scope: FutexScope, uaddr: nat)

  datatype Block =
    | File
    | Poll(deadline: Option<nat>)
    | SignalSuspend
    | Vfork(child: nat)
    | WaitChild
    | Futex(key: FutexKey, bitset: bv32, deadline: Option<nat>)
    | Timer(target: nat)

  datatype ProcessState = Runnable | Running | Stopped | Blocked(block: Block) | Exited | Faulted

  datatype BlockResult =
    | TimerDone(completed: bool, remaining: nat)
    | FileReady
    | PollDone(timedOut: bool)
    | FutexDone(woke: bool, timedOut: bool)
    | SignalInterrupted
    | CompletedValue(value: nat)

  datatype Process = Process(state: ProcessState, wakeResult: Option<BlockResult>)

  type Processes = map<nat, Process>

  /** When a state times out. */
  function DeadlineOf(s: ProcessState): Option<nat> {
    match s
    case Blocked(Poll(deadline)) => deadline
    case Blocked(Futex(key, bitset, deadline)) => deadline
    case Blocked(Timer(target)) => Some(target)
    case _ => None
  }

  function KeyOf(s: ProcessState): Option<FutexKey> {
    match s
    case Blocked(Futex(key, bitset, deadline)) => Some(key)
    case _ => None
  }

  predicate OnFile(s: ProcessState) {
    s.Blocked? && (s.block.File? || s.block.Poll?)
  }

  function Deadlines(ps: Processes): map<nat, nat> {
    map pid | pid in ps && DeadlineOf(ps[pid].state).Some? :: DeadlineOf(ps[pid].state).value
  }

  function Keys(ps: Processes): map<nat, FutexKey> {
    map pid | pid in ps && KeyOf(ps[pid].state).Some? :: KeyOf(ps[pid].state).value
  }

  function FileWaiters(ps: Processes): set<nat> {
    set pid | pid in ps && OnFile(ps[pid].state)
  }

  /** One value of `m` per process changes, or none. */
  function WithValue<V>(m: map<nat, V>, pid: nat, v: Option<V>): map<nat, V> {
    if v.Some? then m[pid := v.value] else m - {pid}
  }

  lemma DeadlinesOfPut(ps: Processes, pid: nat, p: Process)
    ensures Deadlines(ps[pid := p]) == WithValue(Deadlines(ps), pid, DeadlineOf(p.state))
  {
  }

  lemma KeysOfPut(ps: Processes, pid: nat, p: Process)
    ensures Keys(ps[pid := p]) == WithValue(Keys(ps), pid, KeyOf(p.state))
  {
  }

  lemma FileWaitersOfPut(ps: Processes, pid: nat, p: Process)
    ensures FileWaiters(ps[pid := p]) == if OnFile(p.state) then FileWaiters(ps) + {pid} else FileWaiters(ps) - {pid}
  {
  }
}
