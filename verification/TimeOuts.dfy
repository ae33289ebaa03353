/** Time-out accounting of blocking calls: `xTaskCheckForTimeOut` against an unbounded clock. */
module TimeOuts {
  import opened Ticks
  import R = TickRuns

  /** What a call remembers: the overflow count and the tick of its last check. */
  datatype Mark = Mark(overflows: nat, entering: nat)

  function OverflowsAt(clock: nat): nat {
    clock / WRAP % WRAP
  }

  function TickAt(clock: nat): nat {
    clock % WRAP
  }

  function MarkAt(clock: nat): Mark {
    Mark(OverflowsAt(clock), TickAt(clock))
  }

  datatype Outcome = Outcome(expired: bool, wait: nat, mark: Mark)

  /** A check, with the ticks still to wait. */
  function Check(tick: nat, overflows: nat, m: Mark, wait: nat): Outcome
    requires tick < WRAP && m.entering < WRAP
  {
    var elapsed := (tick - m.entering) % WRAP;
    if wait == MAX_DELAY then Outcome(false, wait, m)
    else if overflows != m.overflows && tick >= m.entering then Outcome(true, 0, m)
    else if elapsed < wait then Outcome(false, wait - elapsed, Mark(overflows, tick))
    else Outcome(true, 0, m)
  }

  class TimeOut {
    var overflowCount: nat
    var timeOnEntering: nat

    ghost function View(): Mark
      reads this
    {
      Mark(overflowCount, timeOnEntering)
    }

    /** `vTaskInternalSetTimeOutState` */
    constructor (tick: nat, overflows: nat)
      ensures View() == Mark(overflows, tick)
    {
      overflowCount, timeOnEntering := overflows, tick;
    }

    /** `xTaskCheckForTimeOut` */
    method CheckForTimeOut(tick: nat, overflows: nat, ticksToWait: nat) returns (expired: bool, left: nat)
      requires tick < WRAP && timeOnEntering < WRAP
      modifies this
      ensures Outcome(expired, left, View()) == Check(tick, overflows, old(View()), ticksToWait)
    {
      var elapsedTime := (tick - timeOnEntering) % WRAP;
      left := ticksToWait;
      if ticksToWait == MAX_DELAY {
        expired := false;
      } else if overflows != overflowCount && tick >= timeOnEntering {
        expired := true;
        left := 0;
      } else if elapsedTime < ticksToWait {
        left := left - elapsedTime;
        overflowCount, timeOnEntering := overflows, tick;
        expired := false;
      } else {
        left := 0;
        expired := true;
      }
    }
  }

  // ----- against the clock

  lemma Parts(clock: nat)
    ensures clock == clock / WRAP * WRAP + TickAt(clock) && TickAt(clock) < WRAP
  {
  }

  /** The tick difference is the time elapsed, without whole turns of the tick. */
  lemma Elapsed(from: nat, now: nat)
    requires from <= now
    ensures (TickAt(now) - TickAt(from)) % WRAP == (now - from) % WRAP
  {
    Parts(from);
    Parts(now);
    var d := now / WRAP - from / WRAP;
    assert now - from == d * WRAP + (TickAt(now) - TickAt(from));
    SameRest(d, TickAt(now) - TickAt(from));
  }

  lemma SameRest(d: int, r: int)
    requires -WRAP < r < WRAP
    ensures (d * WRAP + r) % WRAP == r % WRAP
  {
    if r < 0 {
      RestOf(d - 1, r + WRAP);
      RestOf(-1, r + WRAP);
    } else {
      RestOf(d, r);
      RestOf(0, r);
    }
  }

  lemma RestOf(d: int, r: int)
    requires 0 <= r < WRAP
    ensures (d * WRAP + r) % WRAP == r
  {
  }

  /** Within one turn of the tick, the overflow count has changed iff the tick is behind. */
  lemma WithinATurn(from: nat, now: nat)
    requires from <= now < from + WRAP
    ensures OverflowsAt(now) != OverflowsAt(from) ==> TickAt(now) < TickAt(from)
  {
    Parts(from);
    Parts(now);
    if now / WRAP != from / WRAP {
      assert now / WRAP == from / WRAP + 1;
    }
  }

  /** A check less than one turn of the tick after the last is exact: it reports expiry iff as many ticks
      have passed as there were to wait, and otherwise deducts those that have passed. */
  lemma CheckExact(from: nat, now: nat, wait: nat)
    requires from <= now < from + WRAP && wait < MAX_DELAY
    ensures var r := Check(TickAt(now), OverflowsAt(now), MarkAt(from), wait);
            && (r.expired <==> now - from >= wait)
            && (!r.expired ==> r.wait == wait - (now - from) && r.mark == MarkAt(now))
            && (r.expired ==> r.wait == 0)
  {
    Elapsed(from, now);
    WithinATurn(from, now);
    RestOf(0, now - from);
    hide OverflowsAt, TickAt;
  }

  /** However late the check: it is right iff at most one turn has passed, or the overflow is seen, or the
      rest of the time alone is as long as the wait. Unexpired, it deducts that rest and counts from now. */
  lemma CheckRightIff(from: nat, now: nat, wait: nat)
    requires from <= now && wait < MAX_DELAY
    ensures Check(TickAt(now), OverflowsAt(now), MarkAt(from), wait).expired == (now - from >= wait) <==>
              || now - from < WRAP
              || (OverflowsAt(now) != OverflowsAt(from) && TickAt(now) >= TickAt(from))
              || (now - from) % WRAP >= wait
    ensures var r := Check(TickAt(now), OverflowsAt(now), MarkAt(from), wait);
            if r.expired then r.wait == 0 && r.mark == MarkAt(from)
            else r.wait == wait - (now - from) % WRAP > 0 && r.mark == MarkAt(now)
  {
    Elapsed(from, now);
    if now - from < WRAP {
      CheckExact(from, now, wait);
    }
    hide OverflowsAt, TickAt;
  }

  /** A check that comes almost two turns of the tick late, with the tick behind that of the last: it takes
      the wait for unfinished, by five ticks. */
  lemma LateCheckMisses()
    ensures var from, now, wait := 10, 2 * WRAP, WRAP - 5;
            var r := Check(TickAt(now), OverflowsAt(now), MarkAt(from), wait);
            now - from >= wait && !r.expired && r.wait == 5
  {
    assert 2 * WRAP / WRAP == 2 && 2 * WRAP % WRAP == 0;
    SameRest(0, -10);
    RestOf(-1, WRAP - 10);
  }

  // ----- a whole wait

  ghost predicate CheckAt(start: nat, wait: nat, times: seq<nat>, rs: seq<Outcome>, i: nat)
    requires i < |times| == |rs|
  {
    && LastBefore(start, times, i) <= times[i]
    && (i > 0 ==> !rs[i - 1].expired && rs[i - 1].mark.entering < WRAP)
    && rs[i] == Check(TickAt(times[i]), OverflowsAt(times[i]),
                      if i == 0 then MarkAt(start) else rs[i - 1].mark,
                      if i == 0 then wait else rs[i - 1].wait)
  }

  /** When the time was last looked at before the i-th check. */
  function LastBefore(start: nat, times: seq<nat>, i: nat): nat
    requires i <= |times|
  {
    if i == 0 then start else times[i - 1]
  }

  /** The outcomes of the checks made at the given clock times, up to the first that reports expiry. */
  ghost predicate Checks(start: nat, wait: nat, times: seq<nat>, rs: seq<Outcome>) {
    |rs| == |times| && forall i :: 0 <= i < |times| ==> CheckAt(start, wait, times, rs, i)
  }

  /** Each check follows the one before it by less than one turn of the tick. */
  ghost predicate Timely(start: nat, times: seq<nat>) {
    forall i :: 0 <= i < |times| ==> times[i] < LastBefore(start, times, i) + WRAP
  }

  /** Through any number of checks, less than one turn of the tick apart, the remaining wait is the original
      wait less the real time elapsed, and expiry is reported iff that has reached it. */
  lemma {:induction false} WaitAccounted(start: nat, wait: nat, times: seq<nat>, rs: seq<Outcome>, k: nat)
    requires Checks(start, wait, times, rs) && Timely(start, times) && k < |times| && wait < MAX_DELAY
    ensures rs[k].expired <==> times[k] - start >= wait
    ensures !rs[k].expired ==> rs[k].wait == wait - (times[k] - start) && rs[k].mark == MarkAt(times[k])
    ensures times[k] >= start
  {
    assert CheckAt(start, wait, times, rs, k);
    if k == 0 {
      CheckExact(start, times[0], wait);
    } else {
      WaitAccounted(start, wait, times, rs, k - 1);
      CheckExact(times[k - 1], times[k], rs[k - 1].wait);
    }
  }

  /** A wait without end never ends: no check reports expiry, however many there are and however far apart,
      and each leaves the wait as long as it was. */
  lemma {:induction false} WaitsForEver(start: nat, times: seq<nat>, rs: seq<Outcome>, k: nat)
    requires Checks(start, MAX_DELAY, times, rs) && k < |times|
    ensures rs[k] == Outcome(false, MAX_DELAY, MarkAt(start))
  {
    assert CheckAt(start, MAX_DELAY, times, rs, k);
    if k > 0 {
      WaitsForEver(start, times, rs, k - 1);
    }
  }

  // ----- the counters themselves

  /** The overflow count is that of the turns of the tick. */
  ghost predicate Counts(epoch: nat, t: Time) {
    t.overflows == epoch % WRAP
  }

  lemma TickCounts(epoch: nat, t: Time)
    requires Ok(t) && Counts(epoch, t)
    ensures Counts(Epoch(epoch, t), Tick(t).0)
  {
    TickIsTurn(t);
    ExpireOverflows(Turn(t));
    NextCount(epoch);
    hide Tick, Expire, Ok;
  }

  lemma {:induction false} ExpireOverflows(t: Time)
    ensures Expire(t).0.overflows == t.overflows
    decreases |t.delayed|
  {
    if t.delayed != [] && t.tick >= t.delayed[0].value {
      ExpireOverflows(t.(delayed := t.delayed[1..]));
    }
  }

  lemma NextCount(epoch: nat)
    ensures (epoch % WRAP + 1) % WRAP == (epoch + 1) % WRAP
  {
  }

  lemma {:induction false} TickedCounts(epoch: nat, t: Time, n: nat)
    requires Ok(t) && Counts(epoch, t)
    ensures Ok(R.Ticked(t, n).0) && Counts(R.EpochAfter(epoch, t, n), R.Ticked(t, n).0)
    decreases n
  {
    hide Ok, Tick, Counts, Epoch;
    R.TickedExact(epoch, t, n);
    if n > 0 {
      TickedCounts(epoch, t, n - 1);
      TickCounts(R.EpochAfter(epoch, t, n - 1), R.Ticked(t, n - 1).0);
    }
  }

  lemma {:induction false} RemoveAllOverflows(t: Time, tasks: seq<nat>)
    ensures R.RemoveAll(t, tasks).overflows == t.overflows
    decreases |tasks|
  {
    hide Without;
    if tasks != [] {
      RemoveAllOverflows(RemoveDelayed(t, tasks[0]), tasks[1..]);
    }
  }

  lemma StepCounts(w: R.World, e: R.Event)
    requires R.Sound(w.s) && R.Enabled(w, e) && Counts(w.epoch, w.s.time)
    ensures Counts(R.Step(w, e).epoch, R.Step(w, e).s.time)
  {
    hide Ok, Tick, Epoch, Without, Insert;
    match e
    case TickInterrupt => TickCounts(w.epoch, w.s.time);
    case Suspend =>
    case Resume =>
      R.ClearedKeeps(w.epoch, w.s);
      RemoveAllOverflows(w.s.time, w.s.pending);
      TickedCounts(w.epoch, R.Cleared(w.s), w.s.pended);
      R.CountKept(w);
    case UnblockTask(_) =>
    case DelayTask(_, _) =>
  }

  /** The counters that a call marks and a check compares are those of the unbounded clock, throughout every
      run of ticks, delays and nested suspensions. */
  lemma {:induction false} CountersExact(ws: seq<R.World>, es: seq<R.Event>, k: nat)
    requires R.Run(ws, es) && k <= |es| && Counts(ws[0].epoch, ws[0].s.time)
    ensures Counts(ws[k].epoch, ws[k].s.time)
    ensures Mark(ws[k].s.time.overflows, ws[k].s.time.tick) == MarkAt(R.Clock(ws[k]))
  {
    hide R.Step, Counts;
    R.NoTickLost(ws, es, k);
    if k > 0 {
      CountersExact(ws, es, k - 1);
      R.NoTickLost(ws, es, k - 1);
      StepCounts(ws[k - 1], es[k - 1]);
      assert ws[k - 1 + 1] == R.Step(ws[k - 1], es[k - 1]);
    }
    CountsMark(ws[k].epoch, ws[k].s.time);
  }

  lemma CountsMark(epoch: nat, t: Time)
    requires Ok(t) && Counts(epoch, t)
    ensures Mark(t.overflows, t.tick) == MarkAt(Now(epoch, t))
  {
    RestOf(epoch, t.tick);
    Parts(Now(epoch, t));
    hide Ok;
  }
}
