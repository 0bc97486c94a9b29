/** The real-time interval timers of thread groups. */
module IntervalTimers {
  import opened Prelude
  import opened KeyedIndex
  import opened TimerArithmetic

  datatype RealTimer = RealTimer(deadline: Option<nat>, interval: nat)

  type RealTimers = map<nat, RealTimer>

  predicate RealTimerOk(t: RealTimer) {
    t.interval <= U64_MAX && (t.deadline.Some? ==> t.deadline.value <= U64_MAX)
  }

  function DeadlinesOf(timers: RealTimers): map<nat, nat> {
    map g | g in timers && timers[g].deadline.Some? :: timers[g].deadline.value
  }

  /** The index agrees with the timers, but for the groups in `hidden`. */
  ghost predicate Agrees(index: Index, timers: RealTimers, hidden: set<nat>) {
    Indexes(index, DeadlinesOf(timers) - hidden)
  }

  /** Next expiry of a periodic timer, computed in 128 bits. */
  function NextDeadline(deadline: nat, interval: nat, now: nat): nat
    requires interval > 0
  {
    Min(deadline + (Max(now - deadline, 0) / interval + 1) * interval, U64_MAX)
  }

  predicate Expired(t: RealTimer, now: nat) {
    t.deadline.Some? && t.deadline.value <= now
  }

  /** A timer after it has been taken as expired; `None` if it is gone. */
  function AfterExpiry(t: RealTimer, now: nat): Option<RealTimer>
    requires t.deadline.Some?
  {
    if t.interval == 0 then None
    else Some(t.(deadline := Some(NextDeadline(t.deadline.value, t.interval, now))))
  }

  /** The interval timer and the timer file descriptor compute the same next expiry. */
  lemma SameAsTimerFd(t: RealTimer, now: nat, kind: DeadlineClass, ticks: nat, cancel: bool)
    requires RealTimerOk(t) && Expired(t, now) && t.interval > 0 && now <= U64_MAX && t.deadline.value != 0
    ensures AfterExpiry(t, now) ==
            Some(t.(deadline := Some(Refreshed(Timer(kind, t.interval, t.deadline.value, ticks, cancel), now).expires)))
  {
    WideFormAgrees(t.deadline.value, t.interval, now);
  }

  lemma AfterExpiryIsLater(t: RealTimer, now: nat)
    requires RealTimerOk(t) && Expired(t, now) && t.interval > 0 && now < U64_MAX
    ensures now < AfterExpiry(t, now).value.deadline.value <= U64_MAX
  {
    WideFormAgrees(t.deadline.value, t.interval, now);
    NextIsLater(t.deadline.value, t.interval, now);
  }

  function WithTimer(timers: RealTimers, g: nat, t: Option<RealTimer>): RealTimers {
    if t.Some? then timers[g := t.value] else timers - {g}
  }

  function DeadlineIn(t: Option<RealTimer>): Option<nat> {
    if t.None? then None else t.value.deadline
  }

  function Lookup(timers: RealTimers, g: nat): Option<RealTimer> {
    if g in timers then Some(timers[g]) else None
  }

  function Out(index: Index, deadline: Option<nat>, g: nat): Index {
    if deadline.Some? then Leave(index, deadline.value, g) else index
  }

  function In(index: Index, deadline: Option<nat>, g: nat): Index {
    if deadline.Some? then Enter(index, deadline.value, g) else index
  }

  lemma ChangeAgrees(index: Index, timers: RealTimers, g: nat, t: Option<RealTimer>, hidden: set<nat>)
    requires Agrees(index, timers, hidden)
    requires g in hidden ==> DeadlineIn(Lookup(timers, g)).Some? && DeadlineIn(Lookup(timers, g)).value !in index
    ensures Agrees(In(Out(index, DeadlineIn(Lookup(timers, g)), g), DeadlineIn(t), g), WithTimer(timers, g, t),
                   hidden - {g})
  {
    var m := DeadlinesOf(timers) - hidden;
    var from, to := DeadlineIn(Lookup(timers, g)), DeadlineIn(t);
    if from.Some? && g !in hidden {
      LeaveKeeps(index, m, from.value, g);
    }
    assert Indexes(Out(index, from, g), m - {g}) by {
      assert from.None? || g in hidden ==> m - {g} == m;
    }
    var m' := DeadlinesOf(WithTimer(timers, g, t)) - (hidden - {g});
    if to.Some? {
      EnterKeeps(Out(index, from, g), m - {g}, to.value, g);
      assert m' == (m - {g})[g := to.value];
    } else {
      assert m' == m - {g};
    }
  }

  lemma SlotAgrees(index: Index, timers: RealTimers, d: nat)
    requires Agrees(index, timers, {}) && d in index
    ensures Agrees(index - {d}, timers, index[d]) && index[d] != {}
    ensures forall g :: g in index[d] ==> g in timers && timers[g].deadline == Some(d)
  {
    assert DeadlinesOf(timers) - {} == DeadlinesOf(timers);
    DropSlotKeeps(index, DeadlinesOf(timers), d);
    assert SlotOk(index, DeadlinesOf(timers), d);
  }

  function ExpiredIn(timers: RealTimers, now: nat): set<nat> {
    set g | g in timers && Expired(timers[g], now)
  }

  lemma NothingExpired(index: Index, timers: RealTimers, now: nat)
    requires Agrees(index, timers, {}) && forall d :: d in index ==> d > now
    ensures ExpiredIn(timers, now) == {}
  {
    forall g | g in timers
      ensures !Expired(timers[g], now)
    {
      assert Filed(index, DeadlinesOf(timers) - {}, g);
    }
  }

  class RealTimerRegistry {
    var timers: RealTimers
    var deadlines: Index
    var next: nat

    ghost predicate Indexed(hidden: set<nat>)
      reads this
    {
      Agrees(deadlines, timers, hidden) && forall g :: g in timers ==> RealTimerOk(timers[g])
    }

    ghost predicate Valid()
      reads this
    {
      Indexed({}) && IsNext(next, deadlines)
    }

    constructor ()
      ensures Valid() && timers == map[]
    {
      timers, deadlines, next := map[], map[], U64_MAX;
    }

    method PublishNextDeadline()
      modifies this`next
      ensures IsNext(next, deadlines)
    {
      if deadlines.Keys == {} {
        next := U64_MAX;
      } else {
        next := Least(deadlines.Keys);
      }
    }

    /** Puts a new timer in place of the old one, with its entry in the index. */
    method Change(g: nat, t: Option<RealTimer>, ghost hidden: set<nat>)
      requires Indexed(hidden) && (t.Some? ==> RealTimerOk(t.value))
      requires g in hidden ==> DeadlineIn(Lookup(timers, g)).Some? && DeadlineIn(Lookup(timers, g)).value !in deadlines
      modifies this`timers, this`deadlines
      ensures Indexed(hidden - {g}) && timers == WithTimer(old(timers), g, t)
      ensures deadlines == In(Out(old(deadlines), DeadlineIn(Lookup(old(timers), g)), g), DeadlineIn(t), g)
    {
      ChangeAgrees(deadlines, timers, g, t, hidden);
      hide Agrees;
      deadlines := In(Out(deadlines, DeadlineIn(Lookup(timers, g)), g), DeadlineIn(t), g);
      timers := WithTimer(timers, g, t);
    }

    /** Sets the timer of a group and says what was left of the old one. */
    method SetRealTimer(g: nat, now: nat, value: nat, interval: nat) returns (left: nat, period: nat)
      requires Valid() && now <= U64_MAX && value <= U64_MAX && interval <= U64_MAX
      modifies this
      ensures Valid()
      ensures timers == if value == 0 && interval == 0 then old(timers) - {g}
                        else
                          old(timers)[g := RealTimer(if value != 0 then Some(SatAdd(now, value)) else None, interval)]
      ensures period == if g in old(timers) then old(timers)[g].interval else 0
      ensures left == if g in old(timers) && old(timers)[g].deadline.Some?
                      then Max(old(timers)[g].deadline.value - now, 0) else 0
    {
      hide Agrees;
      var before := Lookup(timers, g);
      var t := RealTimer(if value != 0 then Some(SatAdd(now, value)) else None, interval);
      Change(g, if t.deadline.None? && t.interval == 0 then None else Some(t), {});
      assert {} - {g} == {};
      PublishNextDeadline();
      left := if DeadlineIn(before).Some? then Max(DeadlineIn(before).value - now, 0) else 0;
      period := if before.Some? then before.value.interval else 0;
    }

    method ThreadGroupReaped(g: nat)
      requires Valid()
      modifies this
      ensures Valid() && timers == old(timers) - {g}
    {
      hide Agrees;
      Change(g, None, {});
      assert {} - {g} == {};
      PublishNextDeadline();
    }

    /** Takes every timer that has expired, once each, and starts its next period. Afterwards only
        later deadlines are left. */
    method TakeExpired(now: nat) returns (expired: seq<nat>)
      requires Valid() && now <= U64_MAX && AllLapse(timers, now)
      modifies this
      ensures Valid() && ExpiredIn(timers, now) == {}
      ensures Distinct(expired) && (forall g :: g in expired <==> g in ExpiredIn(old(timers), now))
      ensures forall g :: Lookup(timers, g) == Advanced(Lookup(old(timers), g), now)
      ensures forall d :: d in deadlines ==> d > now
    {
      hide Agrees, Advanced;
      expired := [];
      NoneTaken(timers, now);
      while true
        invariant Indexed({}) && Taken(old(timers), timers, expired, now)
        decreases ExpiredIn(timers, now)
      {
        var done := deadlines.Keys == {};
        var deadline := 0;
        if !done {
          deadline := Least(deadlines.Keys);
          done := deadline > now;
        }
        if done {
          NothingExpired(deadlines, timers, now);
          AllTaken(old(timers), timers, expired, now);
          PublishNextDeadline();
          return;
        }
        expired := TakeSlot(deadline, now, expired, old(timers));
      }
    }

    /** Takes the timers of the earliest slot. */
    method TakeSlot(deadline: nat, now: nat, before: seq<nat>, ghost original: RealTimers) returns (expired: seq<nat>)
      requires Indexed({}) && deadline in deadlines && deadline <= now <= U64_MAX
               && Taken(original, timers, before, now)
      requires AllLapse(original, now)
      modifies this`timers, this`deadlines
      ensures Indexed({}) && Taken(original, timers, expired, now)
      ensures ExpiredIn(timers, now) < ExpiredIn(old(timers), now)
    {
      SlotAgrees(deadlines, timers, deadline);
      hide Agrees, Taken;
      var groups := deadlines[deadline];
      deadlines := deadlines - {deadline};
      expired := before;
      while groups != {}
        invariant Indexed(groups) && deadline !in deadlines && Taken(original, timers, expired, now)
        invariant forall g :: g in groups ==> g in timers && timers[g].deadline == Some(deadline)
        invariant ExpiredIn(timers, now) <= ExpiredIn(old(timers), now)
        invariant ExpiredIn(timers, now) < ExpiredIn(old(timers), now) || groups == old(deadlines[deadline])
        decreases groups
      {
        var g := Least(groups);
        var t := timers[g];
        StillLapses(original, timers, expired, g, now);
        if t.interval > 0 {
          AfterExpiryIsLater(t, now);
        }
        OneFewer(timers, g, now);
        OneTaken(original, timers, expired, g, now);
        Change(g, AfterExpiry(t, now), groups);
        expired := expired + [g];
        groups := groups - {g};
      }
    }
  }

  /** What a sweep makes of a timer. */
  function Advanced(t: Option<RealTimer>, now: nat): Option<RealTimer> {
    if t.Some? && Expired(t.value, now) then AfterExpiry(t.value, now) else t
  }

  /** The groups in `expired` have been taken, the others are as they were. */
  ghost predicate Taken(original: RealTimers, timers: RealTimers, expired: seq<nat>, now: nat) {
    && Distinct(expired)
    && (forall g :: g in original ==> RealTimerOk(original[g]))
    && (forall g :: g in expired ==> g in ExpiredIn(original, now))
    && (forall g ::
          Lookup(timers, g) == if g in expired then Advanced(Lookup(original, g), now) else Lookup(original, g))
  }

  lemma NoneTaken(timers: RealTimers, now: nat)
    requires forall g :: g in timers ==> RealTimerOk(timers[g])
    ensures Taken(timers, timers, [], now)
  {
  }

  /** Once taken, the timer is not expired any more: it is not expired, not periodic, or there is a later
      moment. */
  predicate Lapses(t: RealTimer, now: nat) {
    Expired(t, now) ==> t.interval == 0 || now < U64_MAX
  }

  predicate AllLapse(timers: RealTimers, now: nat) {
    forall g :: g in timers ==> Lapses(timers[g], now)
  }

  lemma StillLapses(original: RealTimers, timers: RealTimers, expired: seq<nat>, g: nat, now: nat)
    requires Taken(original, timers, expired, now) && g in timers && now <= U64_MAX && AllLapse(original, now)
    ensures Lapses(timers[g], now)
  {
    assert Lookup(timers, g) == if g in expired then Advanced(Lookup(original, g), now) else Lookup(original, g);
    if g in expired {
      AdvancedIsLater(original[g], now);
    }
  }

  /** Taking a timer at the last moment leaves it expired exactly if it is periodic. */
  lemma LapsesExactly(t: RealTimer, now: nat)
    requires RealTimerOk(t) && now <= U64_MAX && Expired(t, now)
    ensures Lapses(t, now) <==> (AfterExpiry(t, now).Some? ==> !Expired(AfterExpiry(t, now).value, now))
  {
    if t.interval > 0 && now < U64_MAX {
      AfterExpiryIsLater(t, now);
    }
  }

  lemma AdvancedIsLater(t: RealTimer, now: nat)
    requires RealTimerOk(t) && now <= U64_MAX && Lapses(t, now)
    ensures Advanced(Some(t), now).Some? ==> !Expired(Advanced(Some(t), now).value, now)
  {
    if Expired(t, now) && t.interval > 0 {
      AfterExpiryIsLater(t, now);
    }
  }

  /** A timer that is still expired has not been taken. */
  lemma OneTaken(original: RealTimers, timers: RealTimers, expired: seq<nat>, g: nat, now: nat)
    requires Taken(original, timers, expired, now) && g in timers && Expired(timers[g], now) && now <= U64_MAX
    requires AllLapse(original, now)
    ensures Taken(original, WithTimer(timers, g, AfterExpiry(timers[g], now)), expired + [g], now)
  {
    assert Lookup(timers, g) == Some(timers[g]);
    if g in expired {
      AdvancedIsLater(original[g], now);
    }
    assert g !in expired && Lookup(original, g) == Some(timers[g]);
    var t := WithTimer(timers, g, AfterExpiry(timers[g], now));
    forall h
      ensures Lookup(t, h) == if h in expired + [g] then Advanced(Lookup(original, h), now) else Lookup(original, h)
    {
      assert Lookup(timers, h) == if h in expired then Advanced(Lookup(original, h), now) else Lookup(original, h);
    }
    forall i, j | 0 <= i <= |expired| && 0 <= j <= |expired| && i != j
      ensures Differ(expired + [g], i, j)
    {
      assert i < |expired| && j < |expired| ==> Differ(expired, i, j);
    }
  }

  lemma OneFewer(timers: RealTimers, g: nat, now: nat)
    requires g in timers && Expired(timers[g], now)
    requires AfterExpiry(timers[g], now).Some? ==> !Expired(AfterExpiry(timers[g], now).value, now)
    ensures ExpiredIn(WithTimer(timers, g, AfterExpiry(timers[g], now)), now) == ExpiredIn(timers, now) - {g}
    ensures g in ExpiredIn(timers, now)
  {
  }

  lemma AllTaken(original: RealTimers, timers: RealTimers, expired: seq<nat>, now: nat)
    requires Taken(original, timers, expired, now) && ExpiredIn(timers, now) == {}
    ensures forall g :: g in expired <==> g in ExpiredIn(original, now)
    ensures forall g :: Lookup(timers, g) == Advanced(Lookup(original, g), now)
  {
    forall g
      ensures g in expired <==> g in ExpiredIn(original, now)
      ensures Lookup(timers, g) == Advanced(Lookup(original, g), now)
    {
      assert Lookup(timers, g) == if g in expired then Advanced(Lookup(original, g), now) else Lookup(original, g);
      assert g !in ExpiredIn(timers, now);
    }
  }
}
