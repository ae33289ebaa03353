/** Delays and ticks over whole runs, with ticks deferred while the scheduler is suspended. */
module TickRuns {
  import opened Ticks

  /** `pended` ticks are still to be processed; `pending` tasks are to be made ready on resumption. */
  datatype Sched = Sched(time: Time, nesting: nat, pended: nat, pending: seq<nat>)

  function Ticked(t: Time, n: nat): (r: (Time, seq<nat>))
    decreases n
  {
    if n == 0 then (t, [])
    else
      var (t1, w1) := Ticked(t, n - 1);
      var (t2, w2) := Tick(t1);
      (t2, w1 + w2)
  }

  function RemoveAll(t: Time, tasks: seq<nat>): Time
    decreases |tasks|
  {
    if tasks == [] then t else RemoveAll(RemoveDelayed(t, tasks[0]), tasks[1..])
  }

  // ----- the operations of tasks.c, with the tasks each makes ready

  /** `xTaskIncrementTick`, as the tick interrupt calls it. */
  function TickIsr(s: Sched): (Sched, seq<nat>) {
    if s.nesting == 0 then (s.(time := Tick(s.time).0), Tick(s.time).1) else (s.(pended := s.pended + 1), [])
  }

  /** `vTaskSuspendAll` */
  function SuspendAll(s: Sched): Sched {
    s.(nesting := s.nesting + 1)
  }

  /** `xTaskResumeAll` */
  function ResumeAll(s: Sched): (Sched, seq<nat>)
    requires s.nesting > 0
  {
    if s.nesting > 1 then (s.(nesting := s.nesting - 1), [])
    else
      var t1 := RemoveAll(s.time, s.pending);
      var t2 := if s.pending == [] then t1 else ResetNext(t1);
      var (t3, woken) := Ticked(t2, s.pended);
      (Sched(t3, 0, 0, []), s.pending + woken)
  }

  /** `xTaskRemoveFromEventList`: while the scheduler is suspended the task is only noted. */
  function Unblock(s: Sched, task: nat): (Sched, seq<nat>) {
    if s.nesting == 0 then (s.(time := RemoveDelayed(s.time, task)), [task])
    else (s.(pending := s.pending + [task]), [])
  }

  function Delay(s: Sched, task: nat, wait: nat): Sched
    requires s.time.tick < WRAP && wait < WRAP
  {
    s.(time := AddDelayed(s.time, task, wait))
  }

  // ----- deferred ticks

  /** Nothing is left undone while the scheduler runs. */
  ghost predicate Sound(s: Sched) {
    Ok(s.time) && (s.nesting == 0 ==> s.pended == 0 && s.pending == [])
  }

  lemma {:induction false} TickedSum(t: Time, a: nat, b: nat)
    ensures Ticked(t, a + b) == (Ticked(Ticked(t, a).0, b).0, Ticked(t, a).1 + Ticked(Ticked(t, a).0, b).1)
    decreases b
  {
    hide Tick;
    if b == 0 {
      assert Ticked(t, a).1 + [] == Ticked(t, a).1;
    } else {
      TickedSum(t, a, b - 1);
      assert a + b - 1 == a + (b - 1);
      var (t1, w1) := Ticked(t, a);
      var (t2, w2) := Ticked(t1, b - 1);
      Assoc(w1, w2, Tick(t2).1);
    }
  }

  lemma Assoc(a: seq<nat>, b: seq<nat>, c: seq<nat>)
    ensures (a + b) + c == a + (b + c)
  {
  }

  function Isrs(s: Sched, n: nat): (r: (Sched, seq<nat>))
    decreases n
  {
    if n == 0 then (s, [])
    else
      var (s1, w1) := Isrs(s, n - 1);
      var (s2, w2) := TickIsr(s1);
      (s2, w1 + w2)
  }

  lemma {:induction false} IsrsRunning(s: Sched, n: nat)
    requires s.nesting == 0
    ensures Isrs(s, n) == (s.(time := Ticked(s.time, n).0), Ticked(s.time, n).1)
    decreases n
  {
    if n > 0 {
      IsrsRunning(s, n - 1);
    }
  }

  lemma {:induction false} IsrsSuspended(s: Sched, n: nat)
    requires s.nesting > 0
    ensures Isrs(s, n) == (s.(pended := s.pended + n), [])
    decreases n
  {
    if n > 0 {
      IsrsSuspended(s, n - 1);
      var empty: seq<nat> := [];
      assert empty + empty == empty;
    }
  }

  /** Ticks that arrive just before the outermost resumption have the same effect, on the same tasks in the
      same order, as if they arrived after it. */
  lemma DeferredTicks(s: Sched, n: nat)
    requires s.nesting == 1
    ensures var (later, w1) := Isrs(s, n);
            var (resumed, w2) := ResumeAll(s);
            var (now, w3) := Isrs(resumed, n);
            && w1 == [] && later.nesting == 1
            && ResumeAll(later).0 == now && ResumeAll(later).1 == w2 + w3
            && now.pended == 0 && now.pending == []
  {
    IsrsSuspended(s, n);
    var t1 := RemoveAll(s.time, s.pending);
    var t2 := if s.pending == [] then t1 else ResetNext(t1);
    TickedSum(t2, s.pended, n);
    IsrsRunning(ResumeAll(s).0, n);
    hide Ticked, Isrs, RemoveAll;
    Assoc(s.pending, Ticked(t2, s.pended).1, Ticked(Ticked(t2, s.pended).0, n).1);
  }

  // ----- what every operation keeps

  lemma {:induction false} RemoveAllKeeps(epoch: nat, t: Time, tasks: seq<nat>)
    requires Ok(t)
    ensures Ok(RemoveAll(t, tasks)) && RemoveAll(t, tasks).tick == t.tick
    ensures forall x: nat, due: nat :: Scheduled(epoch, RemoveAll(t, tasks), x, due) <==> x !in tasks && Scheduled(epoch, t, x, due)
    decreases |tasks|
  {
    if tasks != [] {
      RemoveKeeps(epoch, t, tasks[0]);
      RemoveAllKeeps(epoch, RemoveDelayed(t, tasks[0]), tasks[1..]);
    }
  }

  lemma ResetNextKeeps(epoch: nat, t: Time)
    requires Ok(t)
    ensures Ok(ResetNext(t)) && ResetNext(t).tick == t.tick
    ensures forall x: nat, due: nat :: Scheduled(epoch, ResetNext(t), x, due) <==> Scheduled(epoch, t, x, due)
  {
    if t.delayed != [] {
      HeadIn(t.delayed);
    }
  }

  /** The epoch after n more ticks. */
  function EpochAfter(epoch: nat, t: Time, n: nat): nat
    decreases n
  {
    if n == 0 then epoch else Epoch(EpochAfter(epoch, t, n - 1), Ticked(t, n - 1).0)
  }

  /** Processing n ticks wakes exactly the tasks due in them. */
  lemma {:induction false} TickedExact(epoch: nat, t: Time, n: nat)
    requires Ok(t)
    ensures var (t', woken) := Ticked(t, n);
            var epoch' := EpochAfter(epoch, t, n);
            && Ok(t') && Now(epoch', t') == Now(epoch, t) + n
            && (forall x :: x in woken <==> exists due: nat :: Scheduled(epoch, t, x, due) && due <= Now(epoch, t) + n)
            && forall x: nat, due: nat :: Scheduled(epoch', t', x, due) <==> Scheduled(epoch, t, x, due) && due > Now(epoch, t) + n
    decreases n
  {
    hide Ok, Scheduled, Tick, Epoch;
    if n == 0 {
      FutureOnly(epoch, t);
    } else {
      TickedExact(epoch, t, n - 1);
      var t1, epoch1 := Ticked(t, n - 1).0, EpochAfter(epoch, t, n - 1);
      TickExact(epoch1, t1);
      var (t', woken) := Ticked(t, n);
      forall x
        ensures x in woken <==> exists due: nat :: Scheduled(epoch, t, x, due) && due <= Now(epoch, t) + n
      {
        if x in Tick(t1).1 {
          assert Scheduled(epoch1, t1, x, Now(epoch1, t1) + 1);
          assert Scheduled(epoch, t, x, Now(epoch, t) + n);
        }
      }
    }
  }

  lemma FutureOnly(epoch: nat, t: Time)
    requires Ok(t)
    ensures forall x: nat, due: nat :: Scheduled(epoch, t, x, due) ==> due > Now(epoch, t)
  {
  }

  // ----- runs

  datatype Event = TickInterrupt | Suspend | Resume | UnblockTask(task: nat) | DelayTask(task: nat, wait: nat)

  /** The scheduler with its unbounded clock, and the tasks the last event made ready. */
  datatype World = World(s: Sched, epoch: nat, woken: seq<nat>)

  ghost predicate Enabled(w: World, e: Event) {
    match e
    case Resume => w.s.nesting > 0
    case DelayTask(_, wait) => w.s.time.tick < WRAP && 0 < wait < WRAP
    case _ => true
  }

  /** The lists as the pended ticks will find them on resumption. */
  function Cleared(s: Sched): Time {
    if s.pending == [] then s.time else ResetNext(RemoveAll(s.time, s.pending))
  }

  ghost function Step(w: World, e: Event): World
    requires Enabled(w, e)
  {
    match e
    case TickInterrupt =>
      var (s', woken) := TickIsr(w.s);
      World(s', if w.s.nesting == 0 then Epoch(w.epoch, w.s.time) else w.epoch, woken)
    case Suspend => World(SuspendAll(w.s), w.epoch, [])
    case Resume =>
      var (s', woken) := ResumeAll(w.s);
      World(s', if w.s.nesting == 1 then EpochAfter(w.epoch, Cleared(w.s), w.s.pended) else w.epoch, woken)
    case UnblockTask(task) =>
      var (s', woken) := Unblock(w.s, task);
      World(s', w.epoch, woken)
    case DelayTask(task, wait) => World(Delay(w.s, task, wait), w.epoch, [])
  }

  function Clock(w: World): nat {
    Now(w.epoch, w.s.time)
  }

  lemma ClearedKeeps(epoch: nat, s: Sched)
    requires Ok(s.time)
    ensures Ok(Cleared(s)) && Cleared(s).tick == s.time.tick
    ensures forall x: nat, due: nat :: Scheduled(epoch, Cleared(s), x, due) <==> x !in s.pending && Scheduled(epoch, s.time, x, due)
  {
    RemoveAllKeeps(epoch, s.time, s.pending);
    ResetNextKeeps(epoch, RemoveAll(s.time, s.pending));
  }

  /** Every event keeps the lists sound; the tick count and the pended ticks together grow by one with each
      tick interrupt and never otherwise. */
  lemma StepKeeps(w: World, e: Event)
    requires Sound(w.s) && Enabled(w, e)
    ensures var w' := Step(w, e);
            && Sound(w'.s)
            && Clock(w') + w'.s.pended == Clock(w) + w.s.pended + if e.TickInterrupt? then 1 else 0
  {
    hide Ok, Scheduled, Tick, Epoch;
    match e
    case TickInterrupt =>
      TickExact(w.epoch, w.s.time);
    case Suspend =>
    case Resume =>
      ClearedKeeps(w.epoch, w.s);
      TickedExact(w.epoch, Cleared(w.s), w.s.pended);
      CountKept(w);
    case UnblockTask(task) =>
      RemoveKeeps(w.epoch, w.s.time, task);
    case DelayTask(task, wait) =>
      DelayOk(w.s.time, task, wait);
      DelayTick(w.s.time, task, wait);
  }

  lemma CountKept(w: World)
    requires w.s.nesting > 0
    ensures w.s.nesting == 1 ==> ResumeAll(w.s).0 == Sched(Ticked(Cleared(w.s), w.s.pended).0, 0, 0, [])
    ensures w.s.nesting == 1 ==> ResumeAll(w.s).1 == w.s.pending + Ticked(Cleared(w.s), w.s.pended).1
  {
  }

  lemma DelayTick(t: Time, task: nat, wait: nat)
    requires t.tick < WRAP && wait < WRAP
    ensures AddDelayed(t, task, wait).tick == t.tick
  {
  }

  ghost predicate Run(ws: seq<World>, es: seq<Event>) {
    && |ws| == |es| + 1 && Sound(ws[0].s)
    && forall i :: 0 <= i < |es| ==> Enabled(ws[i], es[i]) && ws[i + 1] == Step(ws[i], es[i])
  }

  function TickInterrupts(es: seq<Event>): nat {
    if es == [] then 0
    else TickInterrupts(es[..|es| - 1]) + if es[|es| - 1].TickInterrupt? then 1 else 0
  }

  /** No tick is lost through any nesting of suspensions; while the scheduler runs, none is outstanding. */
  lemma {:induction false} NoTickLost(ws: seq<World>, es: seq<Event>, k: nat)
    requires Run(ws, es) && k <= |es|
    ensures Sound(ws[k].s)
    ensures Clock(ws[k]) + ws[k].s.pended == Clock(ws[0]) + ws[0].s.pended + TickInterrupts(es[..k])
    ensures ws[k].s.nesting == 0 ==> ws[k].s.pended == 0 && ws[k].s.pending == []
  {
    if k > 0 {
      NoTickLost(ws, es, k - 1);
      StepKeeps(ws[k - 1], es[k - 1]);
      assert ws[k - 1 + 1] == Step(ws[k - 1], es[k - 1]);
      assert es[..k][..k - 1] == es[..k - 1];
    }
  }

  function Suspensions(es: seq<Event>): int {
    if es == [] then 0
    else Suspensions(es[..|es| - 1])
         + match es[|es| - 1]
           case Suspend => 1
           case Resume => -1
           case _ => 0
  }

  /** The scheduler runs again when it has been resumed as often as it was suspended, and not before. */
  lemma {:induction false} NestingCounts(ws: seq<World>, es: seq<Event>, k: nat)
    requires Run(ws, es) && k <= |es|
    ensures ws[k].s.nesting == ws[0].s.nesting + Suspensions(es[..k])
  {
    if k > 0 {
      NestingCounts(ws, es, k - 1);
      assert ws[k - 1 + 1] == Step(ws[k - 1], es[k - 1]);
      assert es[..k][..k - 1] == es[..k - 1];
      NestingStep(ws[k - 1], es[k - 1]);
    }
  }

  lemma NestingStep(w: World, e: Event)
    requires Enabled(w, e)
    ensures Step(w, e).s.nesting == w.s.nesting + if e.Suspend? then 1 else if e.Resume? then -1 else 0
  {
    hide Tick, Ticked, AddDelayed, RemoveAll, EpochAfter;
  }

  /** The task waits for clock time due and for nothing else. */
  ghost predicate WaitsFor(w: World, x: nat, due: nat) {
    && x !in w.s.pending
    && forall d: nat :: Scheduled(w.epoch, w.s.time, x, d) <==> d == due && Clock(w) < due
  }

  predicate Concerns(e: Event, x: nat) {
    (e.UnblockTask? || e.DelayTask?) && e.task == x
  }

  lemma StepWakes(w: World, e: Event, x: nat, due: nat)
    requires Sound(w.s) && Enabled(w, e) && WaitsFor(w, x, due) && !Concerns(e, x)
    ensures var w' := Step(w, e);
            WaitsFor(w', x, due) && (x in w'.woken <==> Clock(w) < due <= Clock(w'))
  {
    hide Ok, Scheduled, Tick, Epoch;
    match e
    case TickInterrupt =>
      TickExact(w.epoch, w.s.time);
    case Suspend =>
    case Resume =>
      ClearedKeeps(w.epoch, w.s);
      TickedExact(w.epoch, Cleared(w.s), w.s.pended);
      CountKept(w);
      ResumeWakes(w, x, due);
    case UnblockTask(task) =>
      RemoveKeeps(w.epoch, w.s.time, task);
    case DelayTask(task, wait) =>
      DelayTick(w.s.time, task, wait);
      forall d: nat
        ensures Scheduled(w.epoch, Delay(w.s, task, wait).time, x, d) <==> Scheduled(w.epoch, w.s.time, x, d)
      {
        DelayExact(w.epoch, w.s.time, task, wait, x, d);
      }
  }

  lemma ResumeWakes(w: World, x: nat, due: nat)
    requires Sound(w.s) && w.s.nesting > 0 && WaitsFor(w, x, due)
    ensures var w' := Step(w, Resume);
            WaitsFor(w', x, due) && (x in w'.woken <==> Clock(w) < due <= Clock(w'))
  {
    hide Ok, Scheduled, Tick, Epoch;
    ClearedKeeps(w.epoch, w.s);
    TickedExact(w.epoch, Cleared(w.s), w.s.pended);
    CountKept(w);
    hide Ticked, EpochAfter, ResumeAll, Cleared;
    if w.s.nesting == 1 {
      var n, t := w.s.pended, Cleared(w.s);
      assert Now(w.epoch, t) == Clock(w);
      if Clock(w) < due {
        assert Scheduled(w.epoch, t, x, due);
      }
    }
  }

  /** Exact wake-up. A task that delays itself for d ticks at clock time c is made ready when the tick c + d
      is processed, never earlier and never later, unless some other event concerns it first. */
  lemma {:induction false} ExactWakeUp(ws: seq<World>, es: seq<Event>, x: nat, k: nat, j: nat)
    requires Run(ws, es) && k < j < |es|
    requires es[k].DelayTask? && es[k].task == x
    requires x !in ws[k].s.pending && forall d: nat :: !Scheduled(ws[k].epoch, ws[k].s.time, x, d)
    requires forall i :: k < i <= j ==> !Concerns(es[i], x)
    ensures var due := Clock(ws[k]) + es[k].wait;
            && WaitsFor(ws[j + 1], x, due)
            && (x in ws[j + 1].woken <==> Clock(ws[j]) < due <= Clock(ws[j + 1]))
    decreases j
  {
    var due := Clock(ws[k]) + es[k].wait;
    if j == k + 1 {
      DelayedWaits(ws, es, x, k);
    } else {
      ExactWakeUp(ws, es, x, k, j - 1);
    }
    NoTickLost(ws, es, j);
    assert ws[j + 1] == Step(ws[j], es[j]);
    StepWakes(ws[j], es[j], x, due);
  }

  lemma DelayedWaits(ws: seq<World>, es: seq<Event>, x: nat, k: nat)
    requires Run(ws, es) && k < |es| && es[k].DelayTask? && es[k].task == x
    requires x !in ws[k].s.pending && forall d: nat :: !Scheduled(ws[k].epoch, ws[k].s.time, x, d)
    ensures WaitsFor(ws[k + 1], x, Clock(ws[k]) + es[k].wait)
  {
    NoTickLost(ws, es, k);
    var w := ws[k];
    assert ws[k + 1] == Step(w, es[k]);
    DelayTick(w.s.time, x, es[k].wait);
    forall d: nat
      ensures Scheduled(w.epoch, Delay(w.s, x, es[k].wait).time, x, d) <==> d == Clock(w) + es[k].wait
    {
      DelayExact(w.epoch, w.s.time, x, es[k].wait, x, d);
    }
  }

  // ----- the next unblock time

  /** The next unblock time is that of the first task to wake, or the greatest tick if there is none. */
  ghost predicate NextExact(t: Time) {
    t.next == if t.delayed == [] then MAX_DELAY else t.delayed[0].value
  }

  lemma AddNext(t: Time, task: nat, wait: nat)
    requires Ok(t) && NextExact(t) && 0 < wait < WRAP
    ensures NextExact(AddDelayed(t, task, wait))
  {
    hide Insert, AddDelayed;
    WakeTime(t, task, wait);
    InsertHead(t.delayed, Entry(t.tick + wait, task));
  }

  lemma TickNext(t: Time)
    requires Ok(t) && (NextExact(t) || t.tick == MAX_DELAY || t.tick + 1 >= t.next)
    ensures NextExact(Tick(t).0)
  {
    TickIsTurn(t);
    TurnKeeps(0, t);
    if Turn(t).tick >= Turn(t).next {
      ExpireTakes(Turn(t));
    }
    hide Tick, Expire, Scheduled, SortedEntries;
  }

  lemma {:induction false} TickedNext(t: Time, n: nat)
    requires Ok(t) && NextExact(t)
    ensures NextExact(Ticked(t, n).0)
    decreases n
  {
    hide Ok, Tick, NextExact;
    if n > 0 {
      TickedNext(t, n - 1);
      TickedExact(0, t, n - 1);
      TickNext(Ticked(t, n - 1).0);
    }
  }

  /** The next unblock time is exact, and stays so through delays, ticks and suspensions. Only a task that is
      unblocked before its time may leave it too early, which costs one look at the list; a resumption that
      makes tasks ready, or the next tick that looks, puts it right. */
  lemma NextKept(w: World, e: Event)
    requires Sound(w.s) && Enabled(w, e)
    ensures NextExact(w.s.time) && !(e.UnblockTask? && w.s.nesting == 0) ==> NextExact(Step(w, e).s.time)
    ensures e.Resume? && w.s.nesting == 1 && w.s.pending != [] ==> NextExact(Step(w, e).s.time)
    ensures e.TickInterrupt? && w.s.nesting == 0 && (w.s.time.tick == MAX_DELAY || w.s.time.tick + 1 >= w.s.time.next) ==>
              NextExact(Step(w, e).s.time)
  {
    match e
    case TickInterrupt =>
      if w.s.nesting == 0 && (NextExact(w.s.time) || w.s.time.tick == MAX_DELAY || w.s.time.tick + 1 >= w.s.time.next) {
        TickNext(w.s.time);
      }
    case Suspend =>
    case Resume =>
      ResumeNext(w);
    case UnblockTask(_) =>
    case DelayTask(task, wait) =>
      if NextExact(w.s.time) {
        AddNext(w.s.time, task, wait);
      }
  }

  lemma ResumeNext(w: World)
    requires Sound(w.s) && w.s.nesting > 0
    ensures NextExact(w.s.time) || (w.s.nesting == 1 && w.s.pending != []) ==> NextExact(Step(w, Resume).s.time)
  {
    if w.s.nesting == 1 && (NextExact(w.s.time) || w.s.pending != []) {
      ClearedKeeps(w.epoch, w.s);
      ClearedNext(w.s);
      CountKept(w);
      hide Cleared, NextExact, Ticked;
      TickedNext(Cleared(w.s), w.s.pended);
    }
  }

  lemma ClearedNext(s: Sched)
    requires NextExact(s.time) || s.pending != []
    ensures NextExact(Cleared(s))
  {
  }

  // ----- deferred against on arrival

  /** The same event met on arrival, as if the scheduler were never suspended: every tick is processed and
      every task made ready at once. A delay counts from the last tick processed; when that lies behind by
      some ticks, they are over already. */
  ghost function Arrive(v: World, e: Event, behind: nat): World
    requires v.s.time.tick < WRAP && (e.DelayTask? ==> 0 < e.wait < WRAP)
  {
    match e
    case TickInterrupt => Step(v, e)
    case UnblockTask(_) => Step(v, e)
    case DelayTask(task, wait) => if wait > behind then Step(v, DelayTask(task, wait - behind)) else v.(woken := [task])
    case _ => v.(woken := [])
  }

  /** vs meets on arrival the events that ws defers; the running task, which delays itself, is not among
      those waiting to be made ready. */
  ghost predicate OnArrival(ws: seq<World>, vs: seq<World>, es: seq<Event>) {
    && Run(ws, es) && |vs| == |ws| && vs[0] == ws[0] && ws[0].s.nesting == 0
    && forall i :: 0 <= i < |es| ==>
         && vs[i].s.time.tick < WRAP && (es[i].DelayTask? ==> 0 < es[i].wait < WRAP && es[i].task !in ws[i].s.pending)
         && vs[i + 1] == Arrive(vs[i], es[i], ws[i].s.pended)
  }

  /** The tasks made ready by the first k events. */
  function Readied(ws: seq<World>, k: nat): seq<nat>
    requires k < |ws|
  {
    if k == 0 then [] else Readied(ws, k - 1) + ws[k].woken
  }

  ghost predicate Overdue(w: World, clock: nat, x: nat) {
    exists due: nat :: Scheduled(w.epoch, w.s.time, x, due) && due <= clock
  }

  /** How the deferring scheduler w stands to v, which has met the same events on arrival. */
  ghost predicate Follows(w: World, v: World) {
    && Sound(w.s) && Sound(v.s) && v.s.nesting == 0
    && Clock(v) == Clock(w) + w.s.pended
    && forall x: nat, due: nat ::
         Scheduled(v.epoch, v.s.time, x, due) <==>
           x !in w.s.pending && Scheduled(w.epoch, w.s.time, x, due) && due > Clock(v)
  }

  /** What it has still to make ready. */
  ghost predicate Owes(w: World, v: World, x: nat) {
    x in w.s.pending || Overdue(w, Clock(v), x)
  }

  /** Whatever one of them makes ready, the other makes ready or comes to owe. */
  ghost predicate Even(w: World, v: World, w': World, v': World) {
    forall x: nat :: (x in v'.woken || Owes(w, v, x)) <==> (x in w'.woken || Owes(w', v', x))
  }

  /** One has made ready what the other has, or owes. */
  ghost predicate Accounted(onArrival: seq<nat>, deferred: seq<nat>, w: World, v: World) {
    forall x: nat :: x in onArrival <==> x in deferred || Owes(w, v, x)
  }

  lemma NothingOverdue(w: World)
    requires Sound(w.s)
    ensures forall x: nat :: !Overdue(w, Clock(w), x)
  {
    FutureOnly(w.epoch, w.s.time);
  }

  lemma TickFollows(w: World, v: World)
    requires Follows(w, v) && v.s.time.tick < WRAP
    ensures var w', v' := Step(w, TickInterrupt), Arrive(v, TickInterrupt, w.s.pended);
            Follows(w', v') && Even(w, v, w', v')
  {
    hide Ok, Scheduled, Tick, Epoch;
    TickExact(v.epoch, v.s.time);
    TickExact(w.epoch, w.s.time);
    NothingOverdue(w);
    var w', v' := Step(w, TickInterrupt), Arrive(v, TickInterrupt, w.s.pended);
    if w.s.nesting > 0 {
      forall x: nat
        ensures Overdue(w', Clock(v'), x) <==> Overdue(w, Clock(v), x) || Scheduled(w.epoch, w.s.time, x, Clock(v) + 1)
      {
      }
    } else {
      NothingOverdue(w');
    }
  }

  lemma UnblockFollows(w: World, v: World, task: nat)
    requires Follows(w, v)
    ensures var w', v' := Step(w, UnblockTask(task)), Arrive(v, UnblockTask(task), w.s.pended);
            Follows(w', v') && Even(w, v, w', v')
  {
    hide Ok, Scheduled, Tick, Epoch;
    RemoveKeeps(v.epoch, v.s.time, task);
    RemoveKeeps(w.epoch, w.s.time, task);
    NothingOverdue(w);
    var w' := Step(w, UnblockTask(task));
    if w.s.nesting == 0 {
      NothingOverdue(w');
    }
  }

  lemma DelayFollows(w: World, v: World, task: nat, wait: nat)
    requires Follows(w, v) && 0 < wait < WRAP && task !in w.s.pending && w.s.time.tick < WRAP && v.s.time.tick < WRAP
    ensures var w', v' := Step(w, DelayTask(task, wait)), Arrive(v, DelayTask(task, wait), w.s.pended);
            Follows(w', v') && Even(w, v, w', v')
  {
    hide Ok, Scheduled, AddDelayed;
    var e, behind := DelayTask(task, wait), w.s.pended;
    DelayOk(w.s.time, task, wait);
    DelayTick(w.s.time, task, wait);
    if wait > behind {
      DelayOk(v.s.time, task, wait - behind);
      DelayTick(v.s.time, task, wait - behind);
    }
    forall x: nat, due: nat
      ensures Scheduled(w.epoch, AddDelayed(w.s.time, task, wait), x, due) <==>
                Scheduled(w.epoch, w.s.time, x, due) || (x == task && due == Clock(w) + wait)
      ensures wait > behind ==>
                (Scheduled(v.epoch, AddDelayed(v.s.time, task, wait - behind), x, due) <==>
                   Scheduled(v.epoch, v.s.time, x, due) || (x == task && due == Clock(w) + wait))
    {
      DelayExact(w.epoch, w.s.time, task, wait, x, due);
      if wait > behind {
        DelayExact(v.epoch, v.s.time, task, wait - behind, x, due);
      }
    }
    var w', v' := Step(w, e), Arrive(v, e, behind);
    assert Clock(w') == Clock(w) && Clock(v') == Clock(v);
    forall x: nat, due: nat
      ensures Scheduled(v'.epoch, v'.s.time, x, due) <==>
                x !in w'.s.pending && Scheduled(w'.epoch, w'.s.time, x, due) && due > Clock(v')
    {
      assert Scheduled(v.epoch, v.s.time, x, due) <==>
               x !in w.s.pending && Scheduled(w.epoch, w.s.time, x, due) && due > Clock(v);
    }
    forall x: nat
      ensures Overdue(w', Clock(v'), x) <==> Overdue(w, Clock(v), x) || (x == task && wait <= behind)
    {
      if x == task && wait <= behind {
        assert Scheduled(w'.epoch, w'.s.time, x, Clock(w) + wait);
      }
    }
  }

  lemma ResumeFollows(w: World, v: World)
    requires Follows(w, v) && w.s.nesting > 0
    ensures var w', v' := Step(w, Resume), Arrive(v, Resume, w.s.pended);
            Follows(w', v') && Even(w, v, w', v')
  {
    hide Ok, Scheduled, Tick, Epoch;
    ClearedKeeps(w.epoch, w.s);
    TickedExact(w.epoch, Cleared(w.s), w.s.pended);
    CountKept(w);
    hide Ticked, EpochAfter, ResumeAll, Cleared;
    var w' := Step(w, Resume);
    if w.s.nesting == 1 {
      NothingOverdue(w');
      forall x: nat
        ensures x in Ticked(Cleared(w.s), w.s.pended).1 <==> x !in w.s.pending && Overdue(w, Clock(v), x)
      {
        if Overdue(w, Clock(v), x) && x !in w.s.pending {
          var due: nat :| Scheduled(w.epoch, w.s.time, x, due) && due <= Clock(v);
          assert Scheduled(w.epoch, Cleared(w.s), x, due);
        }
      }
    }
  }

  lemma StepFollows(w: World, v: World, e: Event)
    requires Follows(w, v) && Enabled(w, e) && v.s.time.tick < WRAP && (e.DelayTask? ==> e.task !in w.s.pending)
    ensures var w', v' := Step(w, e), Arrive(v, e, w.s.pended);
            Follows(w', v') && Even(w, v, w', v')
  {
    hide Step, Arrive, Follows, Even;
    match e
    case TickInterrupt => TickFollows(w, v);
    case Suspend => SuspendFollows(w, v);
    case Resume => ResumeFollows(w, v);
    case UnblockTask(task) => UnblockFollows(w, v, task);
    case DelayTask(task, wait) => DelayFollows(w, v, task, wait);
  }

  lemma SuspendFollows(w: World, v: World)
    requires Follows(w, v) && v.s.time.tick < WRAP
    ensures var w', v' := Step(w, Suspend), Arrive(v, Suspend, w.s.pended);
            Follows(w', v') && Even(w, v, w', v')
  {
    hide Ok, Scheduled;
  }

  lemma {:induction false} FollowsThroughout(ws: seq<World>, vs: seq<World>, es: seq<Event>, k: nat)
    requires OnArrival(ws, vs, es) && k <= |es|
    ensures Follows(ws[k], vs[k])
    ensures Accounted(Readied(vs, k), Readied(ws, k), ws[k], vs[k])
  {
    hide Step, Arrive, Ok, Scheduled, Owes, Even, Follows;
    if k == 0 {
      StartFollows(ws[0]);
    } else {
      FollowsThroughout(ws, vs, es, k - 1);
      StepFollows(ws[k - 1], vs[k - 1], es[k - 1]);
      assert ws[k - 1 + 1] == Step(ws[k - 1], es[k - 1]) && vs[k - 1 + 1] == Arrive(vs[k - 1], es[k - 1], ws[k - 1].s.pended);
      EvenOut(ws, vs, k);
    }
  }

  lemma StartFollows(w: World)
    requires Sound(w.s) && w.s.nesting == 0
    ensures Follows(w, w) && forall x: nat :: !Owes(w, w, x)
  {
    NothingOverdue(w);
    FutureOnly(w.epoch, w.s.time);
  }

  lemma EvenOut(ws: seq<World>, vs: seq<World>, k: nat)
    requires 0 < k < |ws| == |vs| && Even(ws[k - 1], vs[k - 1], ws[k], vs[k])
    requires Accounted(Readied(vs, k - 1), Readied(ws, k - 1), ws[k - 1], vs[k - 1])
    ensures Accounted(Readied(vs, k), Readied(ws, k), ws[k], vs[k])
  {
    hide Owes;
  }

  /** Deferred ticks lose nothing. Through any ticks, events, delays and nested suspensions, whenever the
      scheduler runs again it has made ready the same tasks, has the same tasks still waiting for the same
      times, and has reached the same clock time as if each tick had been processed on arrival. */
  lemma DeferredAsOnArrival(ws: seq<World>, vs: seq<World>, es: seq<Event>, k: nat)
    requires OnArrival(ws, vs, es) && k <= |es| && ws[k].s.nesting == 0
    ensures forall x: nat :: x in Readied(ws, k) <==> x in Readied(vs, k)
    ensures Clock(ws[k]) == Clock(vs[k]) && ws[k].s.pended == 0 && ws[k].s.pending == []
    ensures forall x: nat, due: nat :: Scheduled(ws[k].epoch, ws[k].s.time, x, due) <==> Scheduled(vs[k].epoch, vs[k].s.time, x, due)
  {
    hide Ok, Scheduled;
    FollowsThroughout(ws, vs, es, k);
    NothingOverdue(ws[k]);
    FutureOnly(ws[k].epoch, ws[k].s.time);
  }
}
