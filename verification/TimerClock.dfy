/** The timer daemon's state against an unbounded clock: no timer is fired before its time, and every timer
    on a list is due when its start and its period say. */
module TimerClock {
  import opened Ticks
  import opened TimerLists

  datatype Command = Start(timer: nat, at: nat) | Stop(timer: nat) | ChangePeriod(timer: nat, period: nat)

  /** `fired` holds the expiries whose callback was made, with the tick each was due at. */
  datatype Daemon = Daemon(current: seq<Entry>, overflow: seq<Entry>, lastTime: nat, timers: Timers,
                           active: set<nat>, commands: seq<Command>, fired: seq<Entry>)

  /** The restart commands for the given expiries. */
  function Restarts(es: seq<Entry>): (cs: seq<Command>)
    ensures |cs| == |es|
  {
    seq(|es|, i requires 0 <= i < |es| => Start(es[i].task, es[i].value))
  }

  lemma RestartsAppend(a: seq<Entry>, b: seq<Entry>)
    ensures Restarts(a + b) == Restarts(a) + Restarts(b)
  {
  }

  ghost predicate Off(list: seq<Entry>, t: nat) {
    forall e :: e in list ==> e.task != t
  }

  ghost predicate Apart(a: seq<Entry>, b: seq<Entry>) {
    forall x, y :: x in a && y in b ==> x.task != y.task
  }

  ghost predicate Valid(d: Daemon) {
    && d.lastTime < WRAP && Sane(d.timers)
    && ListOk(d.current, d.timers) && ListOk(d.overflow, d.timers)
    && Apart(d.current, d.overflow)
  }

  // ----- what each function of timers.c does

  /** `prvSampleTimeNow` */
  ghost function Sampled(d: Daemon, tick: nat): Daemon
    requires Valid(d)
  {
    if tick < d.lastTime then
      var (fires, restarts) := Drain(d.current, d.timers);
      d.(current := d.overflow, overflow := [], lastTime := tick,
         fired := d.fired + fires, commands := d.commands + Restarts(restarts))
    else d.(lastTime := tick)
  }

  /** `prvInsertTimerInActiveList`, which also tells whether the timer has expired already. */
  ghost function Inserted(d: Daemon, t: nat, expiry: nat, now: nat, command: nat): (Daemon, bool)
    requires t in d.timers
  {
    match Decide(expiry, now, command, d.timers[t].period)
    case ProcessNow => (d, true)
    case IntoCurrent => (d.(current := Insert(d.current, Entry(expiry, t))), false)
    case IntoOverflow => (d.(overflow := Insert(d.overflow, Entry(expiry, t))), false)
  }

  /** `prvProcessExpiredTimer` for the timer at the head of the list. */
  ghost function Expired(d: Daemon, now: nat): Daemon
    requires d.current != [] && d.current[0].task in d.timers
  {
    var head := d.current[0];
    var k := d.timers[head.task];
    var d1 := d.(current := d.current[1..], fired := d.fired + [head]);
    if k.autoReload then
      var (d2, late) := Inserted(d1, head.task, (head.value + k.period) % WRAP, now, head.value);
      if late then d2.(commands := d2.commands + [Start(head.task, head.value)]) else d2
    else d1.(active := d1.active - {head.task})
  }

  ghost function Removed(d: Daemon, t: nat): Daemon {
    d.(current := Without(d.current, t), overflow := Without(d.overflow, t))
  }

  /** What a command does after the lists have been sampled. */
  ghost function Carried(d: Daemon, c: Command, tick: nat): Daemon
    requires c.timer in d.timers
  {
    match c
    case Start(t, at) =>
      var expiry := (at + d.timers[t].period) % WRAP;
      var (d2, late) := Inserted(d.(active := d.active + {t}), t, expiry, tick, at);
      if late then
        d2.(fired := d2.fired + [Entry(expiry, t)],
            commands := if d2.timers[t].autoReload then d2.commands + [Start(t, expiry)] else d2.commands)
      else d2
    case Stop(t) => d.(active := d.active - {t})
    case ChangePeriod(t, period) =>
      var d2 := d.(active := d.active + {t}, timers := d.timers[t := d.timers[t].(period := period)]);
      Inserted(d2, t, (tick + period) % WRAP, tick, tick).0
  }

  /** `prvProcessReceivedCommands`, for one command. */
  ghost function Obeyed(d: Daemon, c: Command, tick: nat): Daemon
    requires Valid(Removed(d, c.timer)) && c.timer in d.timers
  {
    Carried(Sampled(Removed(d, c.timer), tick), c, tick)
  }

  // ----- what they keep

  lemma Joins(list: seq<Entry>, other: seq<Entry>, timers: Timers, e: Entry)
    requires ListOk(list, timers) && Apart(list, other) && Off(list, e.task) && Off(other, e.task)
    requires e.task in timers && e.value < WRAP
    ensures ListOk(Insert(list, e), timers) && Apart(Insert(list, e), other) && Apart(other, Insert(list, e))
  {
    InsertOrders(list, e);
    InsertHas(list, e);
    InsertDistinct(list, e);
  }

  lemma Leaves(list: seq<Entry>, other: seq<Entry>, timers: Timers)
    requires ListOk(list, timers) && Apart(list, other) && list != []
    ensures list[0].task in timers && list[0].value < WRAP
    ensures ListOk(list[1..], timers) && Apart(list[1..], other)
    ensures Off(list[1..], list[0].task) && Off(other, list[0].task)
  {
    TailOk(list, timers);
    HeadIn(list);
  }

  lemma PeriodOf(timers: Timers, t: nat)
    requires Sane(timers)
    ensures t in timers ==> 0 < timers[t].period < WRAP
  {
  }

  lemma SampledKeeps(d: Daemon, tick: nat)
    requires Valid(d) && tick < WRAP
    ensures Valid(Sampled(d, tick)) && Sampled(d, tick).timers == d.timers && Sampled(d, tick).active == d.active
    ensures forall t :: Off(d.current, t) && Off(d.overflow, t) ==>
              Off(Sampled(d, tick).current, t) && Off(Sampled(d, tick).overflow, t)
  {
  }

  lemma InsertedKeeps(d: Daemon, t: nat, expiry: nat, now: nat, command: nat)
    requires Valid(d) && t in d.timers && expiry < WRAP && Off(d.current, t) && Off(d.overflow, t)
    ensures Valid(Inserted(d, t, expiry, now, command).0)
  {
    hide ListOk, Apart, Off, Insert, Decide;
    Turned(d);
    Joins(d.current, d.overflow, d.timers, Entry(expiry, t));
    Joins(d.overflow, d.current, d.timers, Entry(expiry, t));
  }

  lemma Turned(d: Daemon)
    requires Apart(d.current, d.overflow)
    ensures Apart(d.overflow, d.current)
  {
  }

  ghost predicate Unique(list: seq<Entry>) {
    forall i, j :: 0 <= i < j < |list| ==> list[i].task != list[j].task
  }

  lemma {:induction false} WithoutDistinct(list: seq<Entry>, t: nat)
    requires Unique(list)
    ensures Unique(Without(list, t))
  {
    if list != [] {
      WithoutDistinct(list[1..], t);
      WithoutHas(list[1..], t);
      var r := Without(list[1..], t);
      forall i | 0 <= i < |r|
        ensures r[i].task != list[0].task
      {
        assert r[i] in list[1..];
        var k :| 0 <= k < |list[1..]| && list[1..][k] == r[i];
        assert list[k + 1] == r[i];
      }
      ConsDistinct(list[0], r);
    }
  }

  lemma ConsDistinct(e: Entry, r: seq<Entry>)
    requires Unique(r) && forall i :: 0 <= i < |r| ==> r[i].task != e.task
    ensures Unique([e] + r)
  {
  }

  lemma RemovedKeeps(d: Daemon, t: nat)
    requires Valid(d)
    ensures Valid(Removed(d, t)) && Off(Removed(d, t).current, t) && Off(Removed(d, t).overflow, t)
  {
    hide Without;
    WithoutHas(d.current, t);
    WithoutHas(d.overflow, t);
    WithoutOrders(d.current, t);
    WithoutOrders(d.overflow, t);
    WithoutDistinct(d.current, t);
    WithoutDistinct(d.overflow, t);
  }

  lemma ExpiredKeeps(d: Daemon, now: nat)
    requires Valid(d) && d.current != []
    ensures d.current[0].task in d.timers && Valid(Expired(d, now))
  {
    hide ListOk, Apart, Off, Insert, Decide;
    Leaves(d.current, d.overflow, d.timers);
    var head := d.current[0];
    var d1 := d.(current := d.current[1..], fired := d.fired + [head]);
    InsertedKeeps(d1, head.task, (head.value + d.timers[head.task].period) % WRAP, now, head.value);
  }

  lemma OtherPeriod(list: seq<Entry>, timers: Timers, t: nat, k: Kind)
    requires ListOk(list, timers) && t in timers
    ensures ListOk(list, timers[t := k])
  {
  }

  lemma ObeyedKeeps(d: Daemon, c: Command, tick: nat)
    requires Valid(d) && c.timer in d.timers && tick < WRAP && (c.ChangePeriod? ==> 0 < c.period < WRAP)
    ensures Valid(Removed(d, c.timer)) && Valid(Obeyed(d, c, tick))
  {
    hide ListOk, Apart, Off, Insert, Decide, Sampled, Removed;
    RemovedKeeps(d, c.timer);
    SampledKeeps(Removed(d, c.timer), tick);
    RemovedTimers(d, c.timer);
    var d1 := Sampled(Removed(d, c.timer), tick);
    match c
    case Start(t, at) =>
      InsertedKeeps(d1.(active := d1.active + {t}), t, (at + d1.timers[t].period) % WRAP, tick, at);
    case Stop(t) =>
    case ChangePeriod(t, period) =>
      OtherPeriod(d1.current, d1.timers, t, d1.timers[t].(period := period));
      OtherPeriod(d1.overflow, d1.timers, t, d1.timers[t].(period := period));
      var d2 := d1.(active := d1.active + {t}, timers := d1.timers[t := d1.timers[t].(period := period)]);
      InsertedKeeps(d2, t, (tick + period) % WRAP, tick, tick);
  }

  lemma RemovedTimers(d: Daemon, t: nat)
    ensures Removed(d, t).timers == d.timers
  {
  }

  // ----- against the clock

  /** Clock time n is that of the last sample. */
  ghost predicate At(d: Daemon, epoch: nat, n: nat) {
    d.lastTime < WRAP && n == epoch * WRAP + d.lastTime
  }

  /** The timer is on a list, to expire at clock time due. */
  ghost predicate DueAt(d: Daemon, epoch: nat, t: nat, due: nat) {
    || (exists e :: e in d.current && e.task == t && Due(epoch, false, e) == due)
    || (exists e :: e in d.overflow && e.task == t && Due(epoch, true, e) == due)
  }

  function EpochOf(n: nat): nat {
    n / WRAP
  }

  lemma ClockParts(n: nat)
    ensures n == EpochOf(n) * WRAP + n % WRAP && n % WRAP < WRAP
  {
  }

  /** A sample less than one turn of the tick after the last switches the lists iff the epoch has changed.
      What it fires was due by the end of the old epoch, so not before its time; what it leaves on the lists
      is due when it was. */
  lemma SampleExact(d: Daemon, epoch: nat, last: nat, n: nat)
    requires Valid(d) && At(d, epoch, last) && last <= n < last + WRAP
    ensures var d' := Sampled(d, n % WRAP);
            var switched := n % WRAP < d.lastTime;
            && EpochOf(n) == (if switched then epoch + 1 else epoch) && At(d', EpochOf(n), n)
            && (forall t: nat, due: nat :: DueAt(d', EpochOf(n), t, due) ==> DueAt(d, epoch, t, due))
            && (forall t: nat, due: nat :: DueAt(d, epoch, t, due) ==>
                  DueAt(d', EpochOf(n), t, due) || (switched && due < EpochOf(n) * WRAP <= n))
  {
    hide Drain, SortedEntries;
    ClockParts(n);
    NextEpoch(epoch, d.lastTime, n);
    assert forall e :: Due(epoch + 1, false, e) == Due(epoch, true, e);
  }

  lemma NextEpoch(epoch: nat, tick: nat, n: nat)
    requires tick < WRAP && epoch * WRAP + tick <= n < epoch * WRAP + tick + WRAP
    ensures EpochOf(n) == if n % WRAP < tick then epoch + 1 else epoch
  {
    ClockParts(n);
  }

  /** A timer started at clock time c and obeyed at time n, less than one turn of the tick later, is fired
      at once iff its period has passed; otherwise it is on a list, due exactly one period after c. */
  lemma StartExact(d: Daemon, t: nat, c: nat, n: nat)
    requires Valid(d) && t in d.timers && Off(d.current, t) && Off(d.overflow, t)
    requires At(d, EpochOf(n), n) && c <= n < c + WRAP
    ensures 0 < d.timers[t].period < WRAP
    ensures var period := d.timers[t].period;
            var (d', late) := Inserted(d, t, (c % WRAP + period) % WRAP, n % WRAP, c % WRAP);
            && (late <==> n >= c + period)
            && (late ==> d' == d)
            && (!late ==> DueAt(d', EpochOf(n), t, c + period))
  {
    hide SortedEntries, ListOk, Insert, Decide;
    PeriodOf(d.timers, t);
    ClockParts(n);
    var period := d.timers[t].period;
    var e := Entry((c % WRAP + period) % WRAP, t);
    DecideExact(c, n, period, EpochOf(n), n % WRAP);
    InsertHas(d.current, e);
    InsertHas(d.overflow, e);
    var d' := Inserted(d, t, e.value, n % WRAP, c % WRAP).0;
    if Decide(e.value, n % WRAP, c % WRAP, period) == IntoCurrent {
      assert e in d'.current;
    } else if Decide(e.value, n % WRAP, c % WRAP, period) == IntoOverflow {
      assert e in d'.overflow;
    }
  }

  /** The timer the daemon fires between switches has expired, and it is the first to do so. */
  lemma HeadExpires(d: Daemon, n: nat)
    requires Valid(d) && At(d, EpochOf(n), n) && d.current != [] && d.current[0].value <= n % WRAP
    ensures DueAt(d, EpochOf(n), d.current[0].task, EpochOf(n) * WRAP + d.current[0].value)
    ensures EpochOf(n) * WRAP + d.current[0].value <= n
    ensures forall t: nat, due: nat :: DueAt(d, EpochOf(n), t, due) ==> due >= EpochOf(n) * WRAP + d.current[0].value
  {
    ClockParts(n);
    HeadIn(d.current);
    TailOk(d.current, d.timers);
    hide SortedEntries;
    forall e | e in d.current
      ensures e.value >= d.current[0].value
    {
      if e != d.current[0] {
        assert e in d.current[1..];
      }
    }
  }
}
