/** The registry of timer file descriptors with its deadline indexes. */
module TimerFds {
  import opened Prelude
  import opened KeyedIndex
  import opened TimerArithmetic

  type Timers = map<nat, Timer>

  datatype TimerSpec = TimerSpec(interval: nat, value: nat)

  /** When the running timers of a class expire. */
  function Expiries(timers: Timers, c: DeadlineClass): map<nat, nat> {
    map id | id in timers && timers[id].kind == c && timers[id].expires != 0 :: timers[id].expires
  }

  /** A timer's entry moves from one deadline to another; zero stands for no entry. */
  function Moved(index: Index, from: nat, to: nat, id: nat): Index {
    var rest := if from != 0 then Leave(index, from, id) else index;
    if to != 0 then Enter(rest, to, id) else rest
  }

  /** The index of a class agrees with its timers, but for those in `hidden`, which were taken out. */
  ghost predicate Agrees(index: Index, timers: Timers, c: DeadlineClass, hidden: set<nat>) {
    Indexes(index, Expiries(timers, c) - hidden)
  }

  lemma MovedAgrees(index: Index, timers: Timers, c: DeadlineClass, id: nat, t: Timer, hidden: set<nat>)
    requires Agrees(index, timers, c, hidden) && id in timers && timers[id].kind == t.kind == c
    ensures Agrees(Moved(index, timers[id].expires, t.expires, id), timers[id := t], c, hidden - {id})
  {
    var from, to := timers[id].expires, t.expires;
    var m := Expiries(timers, c) - hidden;
    var rest := if from != 0 then Leave(index, from, id) else index;
    if from != 0 && id !in hidden {
      LeaveKeeps(index, m, from, id);
    } else if from != 0 {
      LeaveAbsent(index, m, from, id);
    }
    assert Indexes(rest, m - {id}) by {
      assert from == 0 || id in hidden ==> m - {id} == m;
    }
    var m' := Expiries(timers[id := t], c) - (hidden - {id});
    if to != 0 {
      EnterKeeps(rest, m - {id}, to, id);
      assert m' == (m - {id})[id := to];
    } else {
      assert m' == m - {id};
    }
  }

  /** Taking out an entry that is not there changes nothing, even if its slot has come back meanwhile. */
  lemma LeaveAbsent(index: Index, m: map<nat, nat>, k: nat, id: nat)
    requires Indexes(index, m) && id !in m
    ensures Leave(index, k, id) == index
  {
    assert SlotOk(index, m, k);
    if k in index {
      assert index[k] - {id} == index[k];
    }
  }

  lemma OtherClassAgrees(index: Index, timers: Timers, c: DeadlineClass, id: nat, t: Timer, hidden: set<nat>)
    requires Agrees(index, timers, c, hidden) && id in timers && timers[id].kind == t.kind != c
    ensures Agrees(index, timers[id := t], c, hidden - {id})
  {
    assert Expiries(timers[id := t], c) - (hidden - {id}) == Expiries(timers, c) - hidden;
  }

  lemma NewTimerAgrees(index: Index, timers: Timers, c: DeadlineClass, id: nat, t: Timer, hidden: set<nat>)
    requires Agrees(index, timers, c, hidden) && id !in timers && t.expires == 0
    ensures Agrees(index, timers[id := t], c, hidden)
  {
    assert Expiries(timers[id := t], c) - hidden == Expiries(timers, c) - hidden;
  }

  lemma GoneTimerAgrees(index: Index, timers: Timers, c: DeadlineClass, id: nat, hidden: set<nat>)
    requires Agrees(index, timers, c, hidden) && id in timers && timers[id].expires == 0
    ensures Agrees(index, timers - {id}, c, hidden)
  {
    assert Expiries(timers - {id}, c) - hidden == Expiries(timers, c) - hidden;
  }

  lemma SlotAgrees(index: Index, timers: Timers, c: DeadlineClass, d: nat, hidden: set<nat>)
    requires Agrees(index, timers, c, hidden) && d in index
    ensures Agrees(index - {d}, timers, c, hidden + index[d]) && index[d] != {} && index[d] !! hidden
    ensures forall id :: id in index[d] ==> id in timers && timers[id].kind == c && timers[id].expires == d != 0
  {
    var m := Expiries(timers, c) - hidden;
    DropSlotKeeps(index, m, d);
    assert SlotOk(index, m, d);
    assert m - index[d] == Expiries(timers, c) - (hidden + index[d]);
  }

  lemma OtherClassHides(index: Index, timers: Timers, c: DeadlineClass, hidden: set<nat>, ids: set<nat>)
    requires Agrees(index, timers, c, hidden) && forall id :: id in ids ==> id in timers && timers[id].kind != c
    ensures Agrees(index, timers, c, hidden + ids)
  {
    assert Expiries(timers, c) - (hidden + ids) == Expiries(timers, c) - hidden;
  }

  function DueIds(timers: Timers, c: DeadlineClass, now: nat): set<nat> {
    set id | id in timers && timers[id].kind == c && Due(timers[id], now)
  }

  /** Without early deadlines in the index no timer is due but for those taken out. */
  lemma NothingDue(index: Index, timers: Timers, c: DeadlineClass, now: nat, hidden: set<nat>)
    requires Agrees(index, timers, c, hidden) && forall d :: d in index ==> d > now
    ensures DueIds(timers, c, now) <= hidden
  {
    forall id | id in timers && timers[id].kind == c && id !in hidden
      ensures !Due(timers[id], now)
    {
      assert Filed(index, Expiries(timers, c) - hidden, id);
    }
  }

  /** The timers of a slot are taken out by a sweep at `now`. */
  ghost function WithSlot(taken: map<nat, nat>, ids: set<nat>, now: nat): map<nat, nat> {
    taken + map id | id in ids :: now
  }

  lemma SlotShrinks(taken: map<nat, nat>, ids: set<nat>, now: nat, id: nat)
    requires ids !! taken.Keys && id in ids
    ensures WithSlot(taken, ids, now) - {id} == WithSlot(taken, ids - {id}, now)
  {
  }

  lemma SlotIsEmpty(taken: map<nat, nat>, now: nat)
    ensures WithSlot(taken, {}, now) == taken
  {
  }

  /** Every method is one step under the registry's lock, but for `Read`, which is two, and for
      `WakeExpiredClass`, which takes a slot in one step and refreshes each of its timers in another. What
      each step keeps therefore holds however the steps of several sweeps and other calls are mixed. */
  class TimerFdRegistry {
    var nextId: nat
    var timers: Timers
    var monotonic: Index
    var realtime: Index
    var nextMonotonic: nat
    var nextRealtime: nat
    /** The timers that sweeps under way have taken out of the index, with the time of the sweep. */
    ghost var taken: map<nat, nat>

    ghost predicate Indexed()
      reads this
    {
      Agrees(monotonic, timers, Monotonic, taken.Keys) && Agrees(realtime, timers, Realtime, taken.Keys)
    }

    /** A timer that was taken out is due at the time of the sweep that will refresh it. */
    ghost predicate TakenOk()
      reads this
    {
      forall id :: id in taken ==> id in timers && Due(timers[id], taken[id])
    }

    function IndexOf(c: DeadlineClass): Index
      reads this
    {
      if c.Monotonic? then monotonic else realtime
    }

    predicate NextOk()
      reads this
    {
      IsNext(nextMonotonic, monotonic) && IsNext(nextRealtime, realtime)
    }

    predicate TimersOk()
      reads this
    {
      forall id :: id in timers ==> TimerOk(timers[id]) && id < nextId
    }

    ghost predicate Valid()
      reads this
    {
      Indexed() && NextOk() && TimersOk() && TakenOk()
    }

    /** No running timer is ever lost: it is in the index under its expiry, or a sweep is about to refresh
        it. */
    lemma NoneIsLost(id: nat)
      requires Valid() && id in timers && timers[id].expires != 0
      ensures id in taken || (timers[id].expires in IndexOf(timers[id].kind)
                              && id in IndexOf(timers[id].kind)[timers[id].expires])
    {
      var c := timers[id].kind;
      assert Agrees(IndexOf(c), timers, c, taken.Keys);
      assert Filed(IndexOf(c), Expiries(timers, c) - taken.Keys, id);
    }

    constructor ()
      ensures Valid() && timers == map[] && taken == map[]
    {
      nextId, timers, monotonic, realtime := 1, map[], map[], map[];
      nextMonotonic, nextRealtime, taken := U64_MAX, U64_MAX, map[];
    }

    method RefreshNextDeadlines()
      modifies this`nextMonotonic, this`nextRealtime
      ensures NextOk()
    {
      nextMonotonic := FirstKey(monotonic);
      nextRealtime := FirstKey(realtime);
    }

    method FirstKey(index: Index) returns (next: nat)
      ensures IsNext(next, index)
    {
      if index.Keys == {} {
        return U64_MAX;
      }
      next := Least(index.Keys);
    }

    method Create(c: DeadlineClass) returns (id: nat)
      requires Valid()
      modifies this`nextId, this`timers
      ensures Valid() && id !in old(timers) && timers == old(timers)[id := Timer(c, 0, 0, 0, false)]
    {
      id := nextId;
      var t := Timer(c, 0, 0, 0, false);
      NewTimerAgrees(monotonic, timers, Monotonic, id, t, taken.Keys);
      NewTimerAgrees(realtime, timers, Realtime, id, t, taken.Keys);
      hide Agrees;
      nextId := nextId + 1;
      timers := timers[id := t];
    }

    /** Replaces a timer, with its entry in the index of its class. */
    method Replace(id: nat, t: Timer)
      requires Valid() && id in timers && t.kind == timers[id].kind && TimerOk(t)
      modifies this
      ensures Valid() && timers == old(timers)[id := t] && nextId == old(nextId) && taken == old(taken) - {id}
    {
      hide Agrees, Moved, TimerOk, Due;
      var from := timers[id].expires;
      ghost var hidden := taken.Keys;
      if t.kind.Monotonic? {
        MovedAgrees(monotonic, timers, Monotonic, id, t, hidden);
        OtherClassAgrees(realtime, timers, Realtime, id, t, hidden);
        monotonic := Moved(monotonic, from, t.expires, id);
      } else {
        MovedAgrees(realtime, timers, Realtime, id, t, hidden);
        OtherClassAgrees(monotonic, timers, Monotonic, id, t, hidden);
        realtime := Moved(realtime, from, t.expires, id);
      }
      timers, taken := timers[id := t], taken - {id};
      assert taken.Keys == hidden - {id};
      RefreshNextDeadlines();
    }

    /** Counts the expirations of a timer up to `now`. */
    method RefreshDue(id: nat, now: nat) returns (changed: bool)
      requires Valid() && id in timers && now <= U64_MAX
      modifies this
      ensures Valid() && changed == Due(old(timers)[id], now)
      ensures timers == old(timers)[id := Refreshed(old(timers)[id], now)]
      ensures taken == if changed then old(taken) - {id} else old(taken)
    {
      hide Agrees;
      var t := timers[id];
      RefreshedIsOk(t, now);
      if !Due(t, now) {
        assert timers == timers[id := t];
        return false;
      }
      Replace(id, Refreshed(t, now));
      changed := true;
    }

    method GetTime(id: nat, now: nat) returns (spec: TimerSpec)
      requires Valid() && id in timers && now <= U64_MAX
      modifies this
      ensures Valid() && timers == old(timers)[id := Refreshed(old(timers)[id], now)]
      ensures spec == TimerSpec(timers[id].interval, Max(timers[id].expires - now, 0))
    {
      hide Agrees;
      var _ := RefreshDue(id, now);
      spec := TimerSpec(timers[id].interval, Max(timers[id].expires - now, 0));
    }

    /** Sets a timer. What it counted before is forgotten, and expirations that the new setting puts
        in the past are counted at once. `None` if the flags do not go together. */
    method SetTime(id: nat, absolute: bool, cancelOnSet: bool, spec: TimerSpec, now: nat)
      returns (r: Option<TimerSpec>)
      requires Valid() && id in timers && now <= U64_MAX && spec.interval <= U64_MAX && spec.value <= U64_MAX
      modifies this
      ensures Valid()
      ensures r.None? <==> cancelOnSet && (!absolute || !old(timers)[id].kind.Realtime?)
      ensures r.None? ==> timers == old(timers)
      ensures r.Some? ==> timers == old(timers)[id := SetTimer(old(timers)[id], absolute, cancelOnSet, spec, now)]
      ensures r.Some? ==> id !in taken
      ensures r.Some? ==>
                r.value == TimerSpec(old(timers)[id].interval, Max(Refreshed(old(timers)[id], now).expires - now, 0))
    {
      hide Agrees, Refreshed;
      if cancelOnSet && (!absolute || !timers[id].kind.Realtime?) {
        return None;
      }
      RefreshKeepsInterval(timers[id], now);
      var _ := RefreshDue(id, now);
      var t := timers[id];
      var previous := TimerSpec(t.interval, Max(t.expires - now, 0));
      var setting := Timer(t.kind, spec.interval, FirstExpiry(absolute, spec.value, now), 0, cancelOnSet);
      RefreshedIsOk(setting, now);
      Replace(id, Refreshed(setting, now));
      r := Some(previous);
    }

    /** Hands out the ticks counted so far; `None` if there are none. */
    method Read(id: nat, now: nat) returns (ticks: Option<nat>)
      requires Valid() && id in timers && now <= U64_MAX
      modifies this
      ensures Valid()
      ensures timers == old(timers)[id := Refreshed(old(timers)[id], now).(ticks := 0)]
      ensures Refreshed(old(timers)[id], now).ticks == if ticks.None? then 0 else ticks.value
      ensures ticks.Some? ==> ticks.value > 0
    {
      hide Agrees, Refreshed;
      var _ := RefreshDue(id, now);
      var t := timers[id];
      ticks := TakeTicks(id);
      assert t.(ticks := 0) == if t.ticks == 0 then t else t.(ticks := 0);
    }

    /** The second step of `Read`. */
    method TakeTicks(id: nat) returns (ticks: Option<nat>)
      requires Valid() && id in timers
      modifies this`timers
      ensures Valid() && timers == old(timers)[id := old(timers)[id].(ticks := 0)]
      ensures old(timers)[id].ticks == if ticks.None? then 0 else ticks.value
      ensures ticks.Some? ==> ticks.value > 0
    {
      var t := timers[id];
      if t.ticks == 0 {
        assert t.(ticks := 0) == t && timers[id := t] == timers;
        return None;
      }
      SameExpiriesAgree(monotonic, timers, Monotonic, id, t.(ticks := 0), taken.Keys);
      SameExpiriesAgree(realtime, timers, Realtime, id, t.(ticks := 0), taken.Keys);
      hide Agrees;
      timers := timers[id := t.(ticks := 0)];
      ticks := Some(t.ticks);
    }

    method Drop(id: nat)
      requires Valid() && id in timers
      modifies this
      ensures Valid() && timers == old(timers) - {id} && taken == old(taken) - {id}
    {
      var stopped := timers[id].(expires := 0);
      ghost var before := timers;
      Disarm(id, stopped);
      GoneTimerAgrees(monotonic, timers, Monotonic, id, taken.Keys);
      GoneTimerAgrees(realtime, timers, Realtime, id, taken.Keys);
      hide Agrees;
      timers := timers - {id};
      assert before[id := stopped] - {id} == before - {id};
    }

    method Disarm(id: nat, stopped: Timer)
      requires Valid() && id in timers && stopped == timers[id].(expires := 0)
      modifies this
      ensures Valid() && timers == old(timers)[id := stopped] && taken == old(taken) - {id}
    {
      hide Agrees;
      Replace(id, stopped);
    }

    // -------------------------------------------------------------- the sweep

    /** The first step of a round of the sweep: takes the earliest slot that has passed out of the index;
        `None` if no deadline has passed. */
    method TakeSlot(c: DeadlineClass, now: nat) returns (ids: Option<set<nat>>)
      requires Valid()
      modifies this`monotonic, this`realtime, this`nextMonotonic, this`nextRealtime, this`taken
      ensures Valid()
      ensures ids.None? <==> forall d :: d in old(IndexOf(c)) ==> d > now
      ensures ids.None? ==> taken == old(taken) && IndexOf(c) == old(IndexOf(c))
      ensures ids.Some? ==> ids.value != {} && ids.value !! old(taken).Keys && ids.value <= DueIds(timers, c, now)
      ensures ids.Some? ==> taken == WithSlot(old(taken), ids.value, now)
    {
      var index := IndexOf(c);
      if index.Keys == {} {
        RefreshNextDeadlines();
        return None;
      }
      var deadline := Least(index.Keys);
      if deadline > now {
        RefreshNextDeadlines();
        return None;
      }
      RemoveSlot(c, deadline, now);
      RefreshNextDeadlines();
      ids := Some(index[deadline]);
    }

    method RemoveSlot(c: DeadlineClass, deadline: nat, ghost now: nat)
      requires Indexed() && TakenOk() && deadline in IndexOf(c) && deadline <= now
      modifies this`monotonic, this`realtime, this`taken
      ensures Indexed() && TakenOk()
      ensures var ids := old(IndexOf(c)[deadline]);
              && ids != {} && ids !! old(taken).Keys && ids <= DueIds(timers, c, now)
              && taken == WithSlot(old(taken), ids, now)
    {
      ghost var hidden := taken.Keys;
      if c.Monotonic? {
        SlotAgrees(monotonic, timers, Monotonic, deadline, hidden);
        OtherClassHides(realtime, timers, Realtime, hidden, monotonic[deadline]);
        hide Agrees;
        taken := WithSlot(taken, monotonic[deadline], now);
        assert taken.Keys == hidden + monotonic[deadline];
        monotonic := monotonic - {deadline};
      } else {
        SlotAgrees(realtime, timers, Realtime, deadline, hidden);
        OtherClassHides(monotonic, timers, Monotonic, hidden, realtime[deadline]);
        hide Agrees;
        taken := WithSlot(taken, realtime[deadline], now);
        assert taken.Keys == hidden + realtime[deadline];
        realtime := realtime - {deadline};
      }
    }

    /** The other steps of a round: one timer of the slot is refreshed, if it is still there and still due.
        Whatever happened to it in between, no sweep at or before `now` still has it afterwards. */
    method SweepTimer(id: nat, now: nat)
      requires Valid() && now <= U64_MAX
      modifies this
      ensures Valid()
      ensures timers == if id in old(timers) then old(timers)[id := Refreshed(old(timers)[id], now)] else old(timers)
      ensures taken == if id in old(timers) && Due(old(timers)[id], now) then old(taken) - {id} else old(taken)
      ensures id in taken ==> taken[id] > now
    {
      hide Agrees;
      if id in timers {
        var _ := RefreshDue(id, now);
      }
    }

    /** A sweep that nothing comes in between of. It refreshes every timer of the class that is due, but for
        those that sweeps under way have taken; afterwards only later deadlines are left. */
    method WakeExpiredClass(c: DeadlineClass, now: nat)
      requires Valid() && now <= U64_MAX && Settling(timers, c, now)
      modifies this
      ensures Valid() && timers.Keys == old(timers.Keys) && taken == old(taken)
      ensures forall id :: id in timers ==>
                timers[id] == if old(timers)[id].kind == c && id !in taken then Refreshed(old(timers)[id], now)
                              else old(timers)[id]
      ensures DueIds(timers, c, now) <= taken.Keys
      ensures forall d :: d in IndexOf(c) ==> d > now
    {
      hide Agrees, Refreshed, Due, Settles, WithSlot;
      while true
        invariant Valid() && timers.Keys == old(timers.Keys) && taken == old(taken) && Settling(timers, c, now)
        invariant forall id :: id in timers ==> SameOrRefreshed(old(timers)[id], timers[id], c, now)
        invariant forall id :: id in timers && id in taken ==> timers[id] == old(timers)[id]
        decreases DueIds(timers, c, now) - taken.Keys
      {
        ghost var before := timers;
        var slot := TakeSlot(c, now);
        if slot.None? {
          NothingDue(IndexOf(c), timers, c, now, taken.Keys);
          AllRefreshed(old(timers), timers, taken.Keys, c, now);
          return;
        }
        WakeSlot(c, slot.value, now, old(taken));
        StillRefreshedOnce(old(timers), before, timers, c, now);
        StillSettling(before, timers, c, now);
      }
    }

    /** Refreshes the timers of a slot that was taken. */
    method WakeSlot(c: DeadlineClass, slot: set<nat>, now: nat, ghost others: map<nat, nat>)
      requires Valid() && now <= U64_MAX && Settling(timers, c, now)
      requires slot != {} && slot !! others.Keys && slot <= DueIds(timers, c, now)
      requires taken == WithSlot(others, slot, now)
      modifies this
      ensures Valid() && timers.Keys == old(timers.Keys) && taken == others
      ensures forall id :: id in timers ==> SameOrRefreshed(old(timers)[id], timers[id], c, now)
      ensures forall id :: id in timers && id in others ==> timers[id] == old(timers)[id]
      ensures DueIds(timers, c, now) - others.Keys < DueIds(old(timers), c, now) - others.Keys
    {
      hide Agrees, Refreshed, Settling, WithSlot;
      var ids := slot;
      while ids != {}
        invariant Valid() && timers.Keys == old(timers.Keys) && ids <= slot
        invariant taken == WithSlot(others, ids, now)
        invariant forall id :: id in timers ==>
                    timers[id] == if id in slot && id !in ids then Refreshed(old(timers)[id], now) else old(timers)[id]
        decreases ids
      {
        var id := Least(ids);
        SlotShrinks(others, ids, now, id);
        SweepTimer(id, now);
        ids := ids - {id};
      }
      SlotIsEmpty(others, now);
      FewerDue(old(timers), timers, slot, others.Keys, c, now);
    }
  }

  function FirstExpiry(absolute: bool, value: nat, now: nat): nat {
    if value == 0 then 0 else if absolute then value else SatAdd(now, value)
  }

  function SetTimer(t: Timer, absolute: bool, cancelOnSet: bool, spec: TimerSpec, now: nat): Timer {
    Refreshed(Timer(t.kind, spec.interval, FirstExpiry(absolute, spec.value, now), 0, cancelOnSet), now)
  }

  lemma RefreshKeepsInterval(t: Timer, now: nat)
    ensures Refreshed(t, now).interval == t.interval && Refreshed(t, now).kind == t.kind
  {
  }

  lemma SameExpiriesAgree(index: Index, timers: Timers, c: DeadlineClass, id: nat, t: Timer, hidden: set<nat>)
    requires Agrees(index, timers, c, hidden) && id in timers
    requires t.kind == timers[id].kind && t.expires == timers[id].expires
    ensures Agrees(index, timers[id := t], c, hidden)
  {
    assert Expiries(timers[id := t], c) - hidden == Expiries(timers, c) - hidden;
  }

  predicate SameOrRefreshed(before: Timer, after: Timer, c: DeadlineClass, now: nat) {
    after == before || (before.kind == c && after == Refreshed(before, now))
  }

  /** The sweep of class `c` comes to an end: every timer of the class settles. */
  predicate Settling(timers: Timers, c: DeadlineClass, now: nat) {
    forall id :: id in timers && timers[id].kind == c ==> Settles(timers[id], now)
  }

  lemma OnceIsEnough(timers: Timers, id: nat, c: DeadlineClass, now: nat)
    requires Settling(timers, c, now) && now <= U64_MAX && id in timers && timers[id].kind == c && TimerOk(timers[id])
    ensures Refreshed(Refreshed(timers[id], now), now) == Refreshed(timers[id], now)
  {
    RefreshedIsOk(timers[id], now);
  }

  /** Refreshing a timer again at the same time changes nothing. */
  lemma StillRefreshedOnce(first: Timers, before: Timers, timers: Timers, c: DeadlineClass, now: nat)
    requires first.Keys == before.Keys == timers.Keys && Settling(first, c, now) && now <= U64_MAX
    requires forall id :: id in first ==> TimerOk(first[id])
    requires forall id :: id in before ==> SameOrRefreshed(first[id], before[id], c, now)
    requires forall id :: id in timers ==> SameOrRefreshed(before[id], timers[id], c, now)
    ensures forall id :: id in timers ==> SameOrRefreshed(first[id], timers[id], c, now)
  {
    hide Refreshed, Settles, TimerOk;
    forall id | id in timers
      ensures SameOrRefreshed(first[id], timers[id], c, now)
    {
      assert SameOrRefreshed(first[id], before[id], c, now) && SameOrRefreshed(before[id], timers[id], c, now);
      if first[id].kind == c {
        OnceIsEnough(first, id, c, now);
      }
    }
  }

  lemma StillSettling(before: Timers, timers: Timers, c: DeadlineClass, now: nat)
    requires Settling(before, c, now) && timers.Keys == before.Keys && now <= U64_MAX
    requires forall id :: id in before ==> TimerOk(before[id])
    requires forall id :: id in timers ==> SameOrRefreshed(before[id], timers[id], c, now)
    ensures Settling(timers, c, now)
  {
    forall id | id in timers && timers[id].kind == c
      ensures Settles(timers[id], now)
    {
      RefreshedIsOk(before[id], now);
    }
  }

  lemma AllRefreshed(before: Timers, timers: Timers, taken: set<nat>, c: DeadlineClass, now: nat)
    requires timers.Keys == before.Keys && DueIds(timers, c, now) <= taken
    requires forall id :: id in timers ==> SameOrRefreshed(before[id], timers[id], c, now)
    requires forall id :: id in timers && id in taken ==> timers[id] == before[id]
    ensures forall id :: id in timers ==>
              timers[id] == if before[id].kind == c && id !in taken then Refreshed(before[id], now) else before[id]
  {
    forall id | id in timers
      ensures timers[id] == if before[id].kind == c && id !in taken then Refreshed(before[id], now) else before[id]
    {
      assert id !in taken ==> id !in DueIds(timers, c, now);
    }
  }

  lemma FewerDue(before: Timers, timers: Timers, slot: set<nat>, others: set<nat>, c: DeadlineClass, now: nat)
    requires timers.Keys == before.Keys && now <= U64_MAX && Settling(before, c, now)
    requires slot != {} && slot !! others && slot <= DueIds(before, c, now)
    requires forall id :: id in before ==> TimerOk(before[id])
    requires forall id :: id in timers ==> timers[id] == if id in slot then Refreshed(before[id], now) else before[id]
    ensures DueIds(timers, c, now) - others < DueIds(before, c, now) - others
  {
    forall id | id in timers
      ensures id in DueIds(timers, c, now) <==> id in DueIds(before, c, now) && id !in slot
    {
      RefreshedIsOk(before[id], now);
    }
    var id :| id in slot;
    assert id in DueIds(before, c, now) - others && id !in DueIds(timers, c, now);
  }
}
