/** Catching up with a periodic timer. */
module TimerArithmetic {
  import opened Prelude

  type Index = map<nat, set<nat>>

  /** The earliest deadline of an index, or the greatest number if there is none. */
  predicate IsNext(next: nat, index: Index) {
    if index.Keys == {} then next == U64_MAX else next in index && forall d :: d in index ==> next <= d
  }

  function SatAdd(a: nat, b: nat): nat {
    if a + b <= U64_MAX then a + b else U64_MAX
  }

  function SatMul(a: nat, b: nat): nat {
    if a * b <= U64_MAX then a * b else U64_MAX
  }

  /** How often a timer that is due since `expires` has expired by `now`. */
  function Periods(expires: nat, interval: nat, now: nat): nat
    requires interval > 0 && expires <= now
  {
    (now - expires) / interval + 1
  }

  /** Exactly the expirations up to `now` are counted: the last of them is not after it, the next
      one is. */
  lemma PeriodsAreExact(expires: nat, interval: nat, now: nat)
    requires interval > 0 && expires <= now
    ensures expires + (Periods(expires, interval, now) - 1) * interval <= now
    ensures now < expires + Periods(expires, interval, now) * interval
  {
    var d := now - expires;
    assert d == (d / interval) * interval + d % interval;
  }

  /** The count is the only one with that property. */
  lemma PeriodsAreUnique(expires: nat, interval: nat, now: nat, p: nat)
    requires interval > 0 && expires <= now && p > 0
    requires expires + (p - 1) * interval <= now < expires + p * interval
    ensures Periods(expires, interval, now) == p
  {
    var q := Periods(expires, interval, now);
    PeriodsAreExact(expires, interval, now);
    if q < p {
      Scale(q, p - 1, interval);
    } else if p < q {
      Scale(p, q - 1, interval);
    }
  }

  lemma Scale(a: nat, b: nat, c: nat)
    requires a <= b
    ensures a * c <= b * c
  {
  }

  /** Catching up in two steps counts what one step does. */
  lemma PeriodsAddUp(expires: nat, interval: nat, m: nat, n: nat)
    requires interval > 0 && expires <= m <= n
    ensures n < expires + Periods(expires, interval, m) * interval ==>
              Periods(expires, interval, n) == Periods(expires, interval, m)
    ensures expires + Periods(expires, interval, m) * interval <= n ==>
              Periods(expires, interval, n) ==
              Periods(expires, interval, m) + Periods(expires + Periods(expires, interval, m) * interval, interval, n)
  {
    var p := Periods(expires, interval, m);
    PeriodsAreExact(expires, interval, m);
    if n < expires + p * interval {
      PeriodsAreUnique(expires, interval, n, p);
    } else {
      var e := expires + p * interval;
      var q := Periods(e, interval, n);
      PeriodsAreExact(e, interval, n);
      assert (p + q) * interval == p * interval + q * interval;
      assert (p + q - 1) * interval == p * interval + (q - 1) * interval;
      PeriodsAreUnique(expires, interval, n, p + q);
    }
  }

  /** The saturating 64-bit form of the next expiry and the one that goes through 128 bits agree. */
  lemma WideFormAgrees(expires: nat, interval: nat, now: nat)
    requires 0 < interval <= U64_MAX && expires <= now <= U64_MAX
    ensures SatAdd(expires, SatMul(Periods(expires, interval, now), interval)) ==
            Min(expires + ((now - expires) / interval + 1) * interval, U64_MAX)
  {
  }

  /** The next expiry is later than `now`, unless `now` is the last moment there is. */
  lemma NextIsLater(expires: nat, interval: nat, now: nat)
    requires 0 < interval <= U64_MAX && expires <= now <= U64_MAX
    ensures SatAdd(expires, SatMul(Periods(expires, interval, now), interval)) > now <==> now < U64_MAX
  {
    PeriodsAreExact(expires, interval, now);
  }

  // ---------------------------------------------------------------- a timer

  datatype DeadlineClass = Monotonic | Realtime

  /** `expires` is zero for a timer that is not running. */
  datatype Timer = Timer(kind: DeadlineClass, interval: nat, expires: nat, ticks: nat, cancelOnSet: bool)

  predicate TimerOk(t: Timer) {
    t.interval <= U64_MAX && t.expires <= U64_MAX && t.ticks <= U64_MAX
  }

  predicate Due(t: Timer, now: nat) {
    t.expires != 0 && t.expires <= now
  }

  /** The timer after its expirations up to `now` have been counted. */
  function Refreshed(t: Timer, now: nat): Timer {
    if !Due(t, now) then t
    else if t.interval == 0 then t.(ticks := SatAdd(t.ticks, 1), expires := 0)
    else
      var periods := Periods(t.expires, t.interval, now);
      t.(ticks := SatAdd(t.ticks, periods), expires := SatAdd(t.expires, SatMul(periods, t.interval)))
  }

  /** Counting up to `now` does not reach the ends of 64 bits. */
  predicate Roomy(t: Timer, now: nat) {
    Due(t, now) ==>
      if t.interval == 0 then t.ticks < U64_MAX
      else t.ticks + Periods(t.expires, t.interval, now) <= U64_MAX
           && t.expires + Periods(t.expires, t.interval, now) * t.interval <= U64_MAX
  }

  /** How often a timer is refreshed in between does not matter for its ticks and next expiry, though both
      saturate; only at the last moment there must be room left. */
  lemma RefreshInBetween(t: Timer, m: nat, n: nat)
    requires TimerOk(t) && m <= n <= U64_MAX && (n < U64_MAX || Roomy(t, n))
    ensures Refreshed(Refreshed(t, m), n) == Refreshed(t, n)
  {
    if Due(t, m) && t.interval > 0 {
      var p := Periods(t.expires, t.interval, m);
      PeriodsAddUp(t.expires, t.interval, m, n);
      PeriodsAreExact(t.expires, t.interval, m);
      Scale(p, Periods(t.expires, t.interval, n), t.interval);
      if t.expires + p * t.interval <= n {
        var q := Periods(t.expires + p * t.interval, t.interval, n);
        assert (p + q) * t.interval == p * t.interval + q * t.interval;
      }
    }
  }

  lemma RoomBefore(t: Timer, m: nat, n: nat)
    requires TimerOk(t) && m <= n <= U64_MAX
    ensures Roomy(t, n) ==> Roomy(t, m)
  {
    if Due(t, m) && t.interval > 0 {
      PeriodsAddUp(t.expires, t.interval, m, n);
      Scale(Periods(t.expires, t.interval, m), Periods(t.expires, t.interval, n), t.interval);
    }
  }

  function RefreshedAt(t: Timer, times: seq<nat>): Timer {
    if times == [] then t else Refreshed(RefreshedAt(t, times[..|times| - 1]), times[|times| - 1])
  }

  /** Any number of refreshes before `now`, at rising times, change nothing about the one at `now`. */
  lemma {:induction false} RefreshesInBetween(t: Timer, times: seq<nat>, now: nat)
    requires TimerOk(t) && now <= U64_MAX && (now < U64_MAX || Roomy(t, now))
    requires forall i, j :: 0 <= i < j < |times| ==> times[i] <= times[j]
    requires forall i :: 0 <= i < |times| ==> times[i] <= now
    ensures Refreshed(RefreshedAt(t, times), now) == Refreshed(t, now)
  {
    if times != [] {
      var front, last := times[..|times| - 1], times[|times| - 1];
      RefreshInBetween(t, last, now);
      RoomBefore(t, last, now);
      RefreshesInBetween(t, front, last);
    }
  }

  lemma RoomAfter(t: Timer, m: nat, n: nat)
    requires TimerOk(t) && m <= n <= U64_MAX && Roomy(t, n)
    ensures Roomy(Refreshed(t, m), n)
  {
    RoomBefore(t, m, n);
    if Due(t, m) && t.interval > 0 {
      var p := Periods(t.expires, t.interval, m);
      PeriodsAddUp(t.expires, t.interval, m, n);
      if t.expires + p * t.interval <= n {
        var q := Periods(t.expires + p * t.interval, t.interval, n);
        assert (p + q) * t.interval == p * t.interval + q * t.interval;
      }
    }
  }

  // ---------------------------------------------------------------- ticks handed out

  /** A timer is looked at, or its ticks are read, which hands them out. */
  datatype Visit = Look(at: nat) | Read(at: nat)

  /** The timer after some visits, and the ticks handed out by them. */
  function Visited(t: Timer, visits: seq<Visit>): (Timer, nat) {
    if visits == [] then (t, 0)
    else
      var (before, given) := Visited(t, visits[..|visits| - 1]);
      var after := Refreshed(before, visits[|visits| - 1].at);
      if visits[|visits| - 1].Look? then (after, given) else (after.(ticks := 0), given + after.ticks)
  }

  /** The timer at its last visit, had nothing been handed out. */
  function Unread(t: Timer, visits: seq<Visit>): Timer {
    if visits == [] then t else Refreshed(t, visits[|visits| - 1].at)
  }

  predicate Rising(visits: seq<Visit>, now: nat) {
    && (forall i, j :: 0 <= i < j < |visits| ==> visits[i].at <= visits[j].at)
    && (forall i :: 0 <= i < |visits| ==> visits[i].at <= now)
  }

  /** Ticks that were handed out before are missing afterwards, and nothing else changes. */
  lemma RefreshShifts(t: Timer, given: nat, now: nat)
    requires given <= t.ticks && TimerOk(t) && Roomy(t, now)
    ensures Refreshed(t.(ticks := t.ticks - given), now) ==
            Refreshed(t, now).(ticks := Refreshed(t, now).ticks - given)
    ensures Refreshed(t, now).ticks >= t.ticks
  {
  }

  lemma {:induction false} VisitsAddUp(t: Timer, visits: seq<Visit>, now: nat)
    requires TimerOk(t) && now <= U64_MAX && Roomy(t, now) && Rising(visits, now)
    ensures Visited(t, visits).1 <= Unread(t, visits).ticks
    ensures Visited(t, visits).0 == Unread(t, visits).(ticks := Unread(t, visits).ticks - Visited(t, visits).1)
  {
    hide Refreshed, Roomy;
    if visits != [] {
      var front, last := visits[..|visits| - 1], visits[|visits| - 1];
      VisitsAddUp(t, front, now);
      RoomBefore(t, last.at, now);
      UnreadIsRoomy(t, front, last.at);
      RefreshShifts(Unread(t, front), Visited(t, front).1, last.at);
    }
  }

  /** Up to now, a timer that was visited and not read is as good as new. */
  lemma UnreadIsRoomy(t: Timer, visits: seq<Visit>, now: nat)
    requires TimerOk(t) && now <= U64_MAX && Roomy(t, now) && Rising(visits, now)
    ensures TimerOk(Unread(t, visits)) && Roomy(Unread(t, visits), now)
    ensures Refreshed(Unread(t, visits), now) == Refreshed(t, now)
  {
    hide Refreshed, Roomy, Settles;
    if visits != [] {
      var m := visits[|visits| - 1].at;
      RefreshedIsOk(t, m);
      RoomAfter(t, m, now);
      RefreshInBetween(t, m, now);
    }
  }

  /** However often a timer is looked at and read before: where nothing reaches the ends of 64 bits, the
      ticks handed out and the ticks left are together those that one refresh at the end counts, and the
      next expiry is the same. */
  lemma TicksAreConserved(t: Timer, visits: seq<Visit>, now: nat)
    requires TimerOk(t) && now <= U64_MAX && Roomy(t, now) && Rising(visits, now)
    ensures Visited(t, visits).1 + Refreshed(Visited(t, visits).0, now).ticks == Refreshed(t, now).ticks
    ensures Refreshed(Visited(t, visits).0, now).expires == Refreshed(t, now).expires
  {
    hide Refreshed, Roomy, Visited, Unread;
    VisitsAddUp(t, visits, now);
    UnreadIsRoomy(t, visits, now);
    RefreshShifts(Unread(t, visits), Visited(t, visits).1, now);
  }

  // ---------------------------------------------------------------- the last moment

  /** The timer is not due any more once it is refreshed: it is not due, not periodic, or there is a later
      moment. */
  predicate Settles(t: Timer, now: nat) {
    Due(t, now) ==> t.interval == 0 || now < U64_MAX
  }

  lemma RefreshedIsOk(t: Timer, now: nat)
    requires TimerOk(t) && now <= U64_MAX
    ensures TimerOk(Refreshed(t, now)) && Refreshed(t, now).kind == t.kind
    ensures Settles(t, now) <==> !Due(Refreshed(t, now), now)
    ensures Due(Refreshed(t, now), now) ==> now == U64_MAX && t.interval > 0 && Refreshed(t, now).expires == U64_MAX
  {
    if Due(t, now) && t.interval > 0 {
      NextIsLater(t.expires, t.interval, now);
    }
  }

  /** At the last moment that 64 bits can hold, a periodic timer stays due for ever. */
  lemma LastMomentIsForEver(t: Timer)
    requires TimerOk(t) && Due(t, U64_MAX) && t.interval > 0
    ensures Due(Refreshed(t, U64_MAX), U64_MAX) && Refreshed(Refreshed(t, U64_MAX), U64_MAX).expires == U64_MAX
  {
    NextIsLater(t.expires, t.interval, U64_MAX);
    NextIsLater(Refreshed(t, U64_MAX).expires, t.interval, U64_MAX);
  }
}
