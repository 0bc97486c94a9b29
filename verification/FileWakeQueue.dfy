/** The queue through which files wake processes, as a protocol of small atomic steps: any number of
    listeners enter process numbers while one drain at a time takes them out. */
module FileWakeQueue {
  import opened Prelude

  /** A listener works in three steps: enter the number into the set of queued numbers, push it on the
      queue if it was not in the set, raise the flag. */
  datatype Waker = Entered(pid: nat, mustPush: bool) | Pushed(pid: nat)

  /** A drain lowers the flag first and takes the queue afterwards. */
  datatype Drain = Idle | Lowered

  datatype State = State(queue: seq<nat>, enqueued: set<nat>, pending: bool, wakers: map<nat, Waker>, drain: Drain,
                         owed: set<nat>)

  /** `owed` are the processes with a wake, finished or under way, that no drain has seen since. */
  datatype Step =
    | Enter(waker: nat, pid: nat)
    | Push(waker: nat)
    | Raise(waker: nat)
    | Lower
    | TakeAll

  predicate Enabled(s: State, step: Step) {
    match step
    case Enter(waker, pid) => waker !in s.wakers
    case Push(waker) => waker in s.wakers && s.wakers[waker].Entered? && s.wakers[waker].mustPush
    case Raise(waker) => waker in s.wakers && (s.wakers[waker].Entered? ==> !s.wakers[waker].mustPush)
    case Lower => s.drain.Idle?
    case TakeAll => s.drain.Lowered?
  }

  /** A drain that finds the flag down does nothing. */
  function Next(s: State, step: Step): State
    requires Enabled(s, step)
  {
    match step
    case Enter(waker, pid) =>
      s.(enqueued := s.enqueued + {pid}, wakers := s.wakers[waker := Entered(pid, pid !in s.enqueued)],
         owed := s.owed + {pid})
    case Push(waker) =>
      s.(queue := s.queue + [s.wakers[waker].pid], wakers := s.wakers[waker := Pushed(s.wakers[waker].pid)])
    case Raise(waker) => s.(pending := true, wakers := s.wakers - {waker})
    case Lower => if s.pending then s.(pending := false, drain := Lowered) else s
    case TakeAll =>
      s.(queue := [], enqueued := s.enqueued - Queued(s.queue), drain := Idle, owed := s.owed - Queued(s.queue))
  }

  function Queued(queue: seq<nat>): set<nat> {
    set pid | pid in queue
  }

  /** The listener is about to push its number. */
  predicate Pushing(s: State, w: nat) {
    w in s.wakers && s.wakers[w].Entered? && s.wakers[w].mustPush
  }

  ghost predicate SomeonePushes(s: State, pid: nat) {
    exists w :: Pushing(s, w) && s.wakers[w].pid == pid
  }

  predicate Apart(s: State, v: nat, w: nat) {
    Pushing(s, v) && Pushing(s, w) && v != w ==> s.wakers[v].pid != s.wakers[w].pid
  }

  /** A push is still to be announced by its listener. */
  predicate Announcing(s: State) {
    exists w :: w in s.wakers && s.wakers[w].Pushed?
  }

  ghost predicate Inv(s: State) {
    && Distinct(s.queue)
    && (forall pid :: pid in s.enqueued <==> pid in s.queue || SomeonePushes(s, pid))
    && (forall w :: Pushing(s, w) ==> s.wakers[w].pid !in s.queue)
    && (forall v, w :: Apart(s, v, w))
    && (s.queue != [] ==> s.pending || Announcing(s) || s.drain.Lowered?)
    && s.owed == s.enqueued
  }

  function Start(): State {
    State([], {}, false, map[], Idle, {})
  }

  lemma StartIsSound()
    ensures Inv(Start())
  {
  }

  lemma EnterKeeps(s: State, waker: nat, pid: nat)
    requires Inv(s) && Enabled(s, Enter(waker, pid))
    ensures Inv(Next(s, Enter(waker, pid)))
  {
    var t := Next(s, Enter(waker, pid));
    forall w
      ensures Pushing(t, w) <==> if w == waker then pid !in s.enqueued else Pushing(s, w)
    {
    }
    forall q
      ensures SomeonePushes(t, q) <==> SomeonePushes(s, q) || (q == pid && pid !in s.enqueued)
    {
      if SomeonePushes(s, q) {
        var w :| Pushing(s, w) && s.wakers[w].pid == q;
        assert Pushing(t, w) && t.wakers[w].pid == q;
      }
      if q == pid && pid !in s.enqueued {
        assert Pushing(t, waker) && t.wakers[waker].pid == q;
      }
    }
    forall v, w
      ensures Apart(t, v, w)
    {
      assert Apart(s, v, w);
      assert Pushing(s, v) ==> SomeonePushes(s, s.wakers[v].pid);
      assert Pushing(s, w) ==> SomeonePushes(s, s.wakers[w].pid);
    }
    if Announcing(s) {
      var w :| w in s.wakers && s.wakers[w].Pushed?;
      assert w in t.wakers && t.wakers[w].Pushed?;
    }
  }

  lemma PushKeeps(s: State, waker: nat)
    requires Inv(s) && Enabled(s, Push(waker))
    ensures Inv(Next(s, Push(waker)))
  {
    var t, pid := Next(s, Push(waker)), s.wakers[waker].pid;
    assert Pushing(s, waker);
    forall w
      ensures Pushing(t, w) <==> w != waker && Pushing(s, w)
    {
    }
    forall q
      ensures q in t.queue || SomeonePushes(t, q) <==> q in s.queue || SomeonePushes(s, q)
    {
      if SomeonePushes(s, q) && q != pid {
        var w :| Pushing(s, w) && s.wakers[w].pid == q;
        assert Pushing(t, w) && t.wakers[w].pid == q;
      }
      assert SomeonePushes(s, pid);
    }
    forall w | Pushing(t, w)
      ensures t.wakers[w].pid !in t.queue
    {
      assert Apart(s, w, waker);
    }
    forall v, w
      ensures Apart(t, v, w)
    {
      assert Apart(s, v, w);
    }
    DistinctPush(s.queue, pid);
    assert waker in t.wakers && t.wakers[waker].Pushed?;
  }

  lemma DistinctPush(q: seq<nat>, pid: nat)
    requires Distinct(q) && pid !in q
    ensures Distinct(q + [pid])
  {
    var t := q + [pid];
    forall i, j | 0 <= i < |t| && 0 <= j < |t| && i != j
      ensures Differ(t, i, j)
    {
      assert i < |q| && j < |q| ==> Differ(q, i, j);
    }
  }

  lemma RaiseKeeps(s: State, waker: nat)
    requires Inv(s) && Enabled(s, Raise(waker))
    ensures Inv(Next(s, Raise(waker)))
  {
    var t := Next(s, Raise(waker));
    SamePushers(s, t);
  }

  /** If the same listeners are about to push the same numbers, the numbers they push are the same. */
  lemma SamePushers(s: State, t: State)
    requires forall w :: Pushing(t, w) <==> Pushing(s, w)
    requires forall w :: Pushing(t, w) && Pushing(s, w) ==> t.wakers[w].pid == s.wakers[w].pid
    ensures forall pid :: SomeonePushes(t, pid) <==> SomeonePushes(s, pid)
    ensures (forall v, w :: Apart(s, v, w)) ==> forall v, w :: Apart(t, v, w)
  {
    forall pid
      ensures SomeonePushes(t, pid) <==> SomeonePushes(s, pid)
    {
      if SomeonePushes(s, pid) {
        var w :| Pushing(s, w) && s.wakers[w].pid == pid;
        assert Pushing(t, w);
      }
    }
    if forall v, w :: Apart(s, v, w) {
      forall v, w
        ensures Apart(t, v, w)
      {
        assert Apart(s, v, w);
      }
    }
  }

  lemma LowerKeeps(s: State)
    requires Inv(s) && Enabled(s, Lower)
    ensures Inv(Next(s, Lower))
  {
    SamePushers(s, Next(s, Lower));
  }

  lemma TakeAllKeeps(s: State)
    requires Inv(s) && Enabled(s, TakeAll)
    ensures Inv(Next(s, TakeAll))
  {
    var t := Next(s, TakeAll);
    SamePushers(s, t);
    forall pid
      ensures pid in t.enqueued <==> SomeonePushes(t, pid)
    {
      if SomeonePushes(t, pid) {
        var w :| Pushing(t, w) && t.wakers[w].pid == pid;
        assert Pushing(s, w) && SomeonePushes(s, pid);
      }
    }
  }

  lemma StepKeeps(s: State, step: Step)
    requires Inv(s) && Enabled(s, step)
    ensures Inv(Next(s, step))
  {
    match step
    case Enter(waker, pid) => EnterKeeps(s, waker, pid);
    case Push(waker) => PushKeeps(s, waker);
    case Raise(waker) => RaiseKeeps(s, waker);
    case Lower => LowerKeeps(s);
    case TakeAll => TakeAllKeeps(s);
  }

  /** The states of a run, each step of which was possible. */
  ghost predicate IsRun(states: seq<State>, steps: seq<Step>) {
    && |states| == |steps| + 1 && states[0] == Start()
    && forall i :: 0 <= i < |steps| ==> Follows(states[i], steps[i], states[i + 1])
  }

  ghost predicate Follows(s: State, step: Step, t: State) {
    Enabled(s, step) && t == Next(s, step)
  }

  /** In every interleaving of listeners and drains the queue stays sound. */
  lemma {:induction false} RunsAreSound(states: seq<State>, steps: seq<Step>, i: nat)
    requires IsRun(states, steps) && i < |states|
    ensures Inv(states[i])
  {
    if i == 0 {
      StartIsSound();
    } else {
      RunsAreSound(states, steps, i - 1);
      assert Follows(states[i - 1], steps[i - 1], states[i]);
      StepKeeps(states[i - 1], steps[i - 1]);
    }
  }

  /** No wake is lost: when no listener is under way, the next drain finds the flag up and takes out
      every process that is owed a wake, once each, and no other. */
  lemma NothingIsLost(s: State)
    requires Inv(s) && s.wakers == map[] && s.drain.Idle? && s.owed != {}
    ensures s.pending && Queued(s.queue) == s.owed && Distinct(s.queue)
    ensures Enabled(s, Lower) && Enabled(Next(s, Lower), TakeAll)
    ensures Next(Next(s, Lower), TakeAll).owed == {}
  {
    assert forall pid :: !SomeonePushes(s, pid);
    var pid :| pid in s.owed;
    assert pid in s.queue;
  }

  /** A wake under way stays owed until a drain takes it: whatever step comes next, the process is
      still owed unless that step takes it out of the queue. */
  lemma OwedUntilTaken(s: State, step: Step, pid: nat)
    requires Inv(s) && Enabled(s, step) && pid in s.owed
    ensures pid in Next(s, step).owed || (step == TakeAll && pid in s.queue)
  {
  }

  /** In every run a process that is owed a wake stays so until a drain takes it out of the queue. */
  lemma {:induction false} OwedAcrossRun(states: seq<State>, steps: seq<Step>, i: nat, j: nat, pid: nat)
    requires IsRun(states, steps) && i <= j < |states| && pid in states[i].owed
    requires forall k :: i <= k < j ==> steps[k] != TakeAll || pid !in states[k].queue
    ensures pid in states[j].owed
    decreases j - i
  {
    if i < j {
      OwedAcrossRun(states, steps, i, j - 1, pid);
      RunsAreSound(states, steps, j - 1);
      assert Follows(states[j - 1], steps[j - 1], states[j]);
      OwedUntilTaken(states[j - 1], steps[j - 1], pid);
    }
  }
}
