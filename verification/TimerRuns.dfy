/** A timer over whole runs of the daemon: it is fired for each of its expiries, once and in order, and for
    none before its time. */
module TimerRuns {
  import opened Ticks
  import opened TimerLists
  import opened TimerClock

  /** `Look` is a sample of the tick, `Process` the expiry of the timer at the head of the list, `Send` a
      task's command, `Obey` the execution of the command at the head of the queue. */
  datatype Event = Look(now: nat) | Process | Send(q: Sent) | Obey(now: nat)

  /** A command in the daemon's queue, with the clock time that it names. */
  datatype Sent = Sent(c: Command, issued: nat)

  /** The restart that the daemon sends itself for an expiry. */
  function Restart(e: Entry): Sent {
    Sent(Start(e.task, e.value % WRAP), e.value)
  }

  function RestartAll(es: seq<Entry>): (qs: seq<Sent>)
    ensures |qs| == |es|
  {
    seq(|es|, i requires 0 <= i < |es| => Restart(es[i]))
  }

  /** The daemon, the clock time of its last sample, the expiries fired, each with the clock time at which it
      was due, and the queue of commands. */
  datatype World = World(d: Daemon, n: nat, log: seq<Entry>, queue: seq<Sent>)

  ghost predicate Sendable(q: Sent, timers: Timers) {
    && q.c.timer in timers && (q.c.ChangePeriod? ==> 0 < q.c.period < WRAP)
    && (q.c.Start? ==> q.c.at == q.issued % WRAP)
  }

  ghost predicate QueueOk(queue: seq<Sent>, timers: Timers) {
    forall i :: 0 <= i < |queue| ==> Sendable(queue[i], timers)
  }

  ghost predicate Good(w: World) {
    Valid(w.d) && At(w.d, EpochOf(w.n), w.n) && QueueOk(w.queue, w.d.timers)
  }

  /** Less than one turn of the tick passes between two samples, and between a command and its execution. */
  ghost predicate CanStep(w: World, e: Event) {
    && Good(w)
    && match e
       case Look(now) => w.n <= now < w.n + WRAP
       case Process => w.d.current != [] && w.d.current[0].value <= w.n % WRAP
       case Send(q) => Sendable(q, w.d.timers)
       case Obey(now) => w.queue != [] && w.n <= now < w.n + WRAP && w.queue[0].issued <= now < w.queue[0].issued + WRAP
  }

  /** Expiries of the given epoch, by the clock. */
  function Clocked(epoch: nat, es: seq<Entry>): (r: seq<Entry>)
    ensures |r| == |es|
  {
    seq(|es|, i requires 0 <= i < |es| => Entry(epoch * WRAP + es[i].value, es[i].task))
  }

  /** What a sample at the tick fires. */
  ghost function SampleLog(d: Daemon, epoch: nat, tick: nat): seq<Entry>
    requires Valid(d)
  {
    if tick < d.lastTime then Clocked(epoch, Drain(d.current, d.timers).0) else []
  }

  /** The restarts that a sample at the tick sends. */
  ghost function SampleSent(d: Daemon, epoch: nat, tick: nat): seq<Entry>
    requires Valid(d)
  {
    if tick < d.lastTime then Clocked(epoch, Drain(d.current, d.timers).1) else []
  }

  /** An auto-reload timer that has expired again by the time it is processed has a restart sent. */
  ghost function ProcessSent(d: Daemon, n: nat): seq<Entry>
    requires d.current != [] && d.current[0].task in d.timers
  {
    var head := d.current[0];
    var k := d.timers[head.task];
    var d1 := d.(current := d.current[1..], fired := d.fired + [head]);
    if k.autoReload && Inserted(d1, head.task, (head.value + k.period) % WRAP, n % WRAP, head.value).1
    then [Entry(EpochOf(n) * WRAP + head.value, head.task)] else []
  }

  ghost function Step(w: World, e: Event): World
    requires CanStep(w, e)
  {
    match e
    case Look(now) =>
      World(Sampled(w.d, now % WRAP), now, w.log + SampleLog(w.d, EpochOf(w.n), now % WRAP),
            w.queue + RestartAll(SampleSent(w.d, EpochOf(w.n), now % WRAP)))
    case Process =>
      ExpiredKeeps(w.d, w.n % WRAP);
      var head := w.d.current[0];
      World(Expired(w.d, w.n % WRAP), w.n, w.log + [Entry(EpochOf(w.n) * WRAP + head.value, head.task)],
            w.queue + RestartAll(ProcessSent(w.d, w.n)))
    case Send(q) => w.(queue := w.queue + [q])
    case Obey(now) =>
      var q := w.queue[0];
      ObeyedKeeps(w.d, q.c, now % WRAP);
      var d1 := Removed(w.d, q.c.timer);
      World(Obeyed(w.d, q.c, now % WRAP), now,
            w.log + SampleLog(d1, EpochOf(w.n), now % WRAP) + LateLog(Sampled(d1, now % WRAP), q, now),
            w.queue[1..] + RestartAll(SampleSent(d1, EpochOf(w.n), now % WRAP)
                                      + LateSent(Sampled(d1, now % WRAP), q, now)))
  }

  /** What an event has the daemon send itself. */
  ghost function Sends(w: World, e: Event): seq<Entry>
    requires CanStep(w, e)
  {
    match e
    case Look(now) => SampleSent(w.d, EpochOf(w.n), now % WRAP)
    case Process =>
      ExpiredKeeps(w.d, w.n % WRAP);
      ProcessSent(w.d, w.n)
    case Send(_) => []
    case Obey(now) =>
      var q := w.queue[0];
      ObeyedKeeps(w.d, q.c, now % WRAP);
      var d1 := Removed(w.d, q.c.timer);
      SampleSent(d1, EpochOf(w.n), now % WRAP) + LateSent(Sampled(d1, now % WRAP), q, now)
  }

  /** A start that is obeyed too late fires the timer at once. */
  ghost function LateLog(d: Daemon, q: Sent, now: nat): seq<Entry>
    requires q.c.timer in d.timers
  {
    var t, period := q.c.timer, d.timers[q.c.timer].period;
    if q.c.Start? && Inserted(d.(active := d.active + {t}), t, (q.c.at + period) % WRAP, now % WRAP, q.c.at).1
    then [Entry(q.issued + period, t)] else []
  }

  /** And has it restarted from there. */
  ghost function LateSent(d: Daemon, q: Sent, now: nat): seq<Entry>
    requires q.c.timer in d.timers
  {
    if d.timers[q.c.timer].autoReload then LateLog(d, q, now) else []
  }

  /** k expiries, one period apart. */
  function Series(due: nat, period: nat, k: nat): (r: seq<nat>)
    ensures |r| == k
    decreases k
  {
    if k == 0 then [] else [due] + Series(due + period, period, k - 1)
  }

  /** k periods later. */
  function Later(due: nat, period: nat, k: nat): nat {
    due + k * period
  }

  lemma LaterStep(due: nat, period: nat, k: nat)
    ensures Later(due + period, period, k) == Later(due, period, k + 1)
    ensures Later(due, period, 0) == due && Later(due, period, 1) == due + period
    ensures Later(due, period, k + 1) == Later(due, period, k) + period
  {
    assert (k + 1) * period == k * period + period;
  }

  lemma LaterFrom(base: nat, due: nat, period: nat, k: nat)
    ensures Later(base + due, period, k) == base + Later(due, period, k)
  {
  }

  // ----- what is known of one timer

  /** A timer is on a list, or waits for a start that was sent for it to be obeyed, or is stopped. */
  datatype Mode = Listed | Restarting | Stopped

  /** The next expiry of the timer: that of its entry, or one period after the time it is started from. */
  ghost predicate Next(d: Daemon, epoch: nat, t: nat, due: nat, mode: Mode) {
    if mode == Listed then DueAt(d, epoch, t, due) else Off(d.current, t) && Off(d.overflow, t)
  }

  lemma {:induction false} OfAppend(a: seq<Entry>, b: seq<Entry>, t: nat)
    ensures Of(a + b, t) == Of(a, t) + Of(b, t)
  {
    hide Of;
    if a == [] {
      NothingOf(t);
      assert a + b == b;
    } else {
      var rest := a[1..];
      OfAppend(rest, b, t);
      assert a == [a[0]] + rest && a + b == [a[0]] + (rest + b);
      OfCons(a[0], rest, t);
      OfCons(a[0], rest + b, t);
    }
  }

  lemma {:induction false} OfClocked(epoch: nat, es: seq<Entry>, t: nat)
    ensures |Of(Clocked(epoch, es), t)| == |Of(es, t)|
    ensures forall i :: 0 <= i < |Of(es, t)| ==> Of(Clocked(epoch, es), t)[i] == epoch * WRAP + Of(es, t)[i]
  {
    if es != [] {
      OfClocked(epoch, es[1..], t);
      assert Clocked(epoch, es)[1..] == Clocked(epoch, es[1..]);
    }
  }

  /** The expiries left in an epoch are a series. */
  lemma {:induction false} TimesSeries(v: nat, k: Kind)
    requires k.period > 0
    ensures |Times(v, k)| >= 1 && Times(v, k) == Series(v, k.period, |Times(v, k)|)
    ensures Times(v, k)[|Times(v, k)| - 1] == Later(v, k.period, |Times(v, k)| - 1)
    decreases if v < WRAP then WRAP - v else 0
  {
    hide Later;
    LaterStep(v, k.period, 0);
    if k.autoReload && v + k.period < WRAP {
      TimesSeries(v + k.period, k);
      assert Times(v, k)[1..] == Times(v + k.period, k);
      LaterStep(v, k.period, |Times(v + k.period, k)| - 1);
    }
  }

  lemma {:induction false} SeriesShift(base: nat, due: nat, period: nat, k: nat, s: seq<nat>)
    requires |s| == k && forall i :: 0 <= i < k ==> s[i] == base + Series(due, period, k)[i]
    ensures s == Series(base + due, period, k)
    decreases k
  {
    hide Series;
    if k > 0 {
      SeriesTail(base, due, period, k, s);
      SeriesShift(base, due + period, period, k - 1, s[1..]);
      SeriesCons(base + due, period, k);
      assert s == [s[0]] + s[1..];
    } else {
      NoneFired(base + due, period);
    }
  }

  lemma SeriesCons(due: nat, period: nat, k: nat)
    requires k > 0
    ensures Series(due, period, k) == [due] + Series(due + period, period, k - 1)
  {
  }

  lemma SeriesTail(base: nat, due: nat, period: nat, k: nat, s: seq<nat>)
    requires |s| == k > 0 && forall i :: 0 <= i < k ==> s[i] == base + Series(due, period, k)[i]
    ensures s[0] == base + due
    ensures forall i :: 0 <= i < k - 1 ==> s[1..][i] == base + Series(due + period, period, k - 1)[i]
  {
    var rest := Series(due + period, period, k - 1);
    SeriesCons(due, period, k);
    hide Series;
    forall i | 0 <= i < k - 1
      ensures s[1..][i] == base + rest[i]
    {
      assert s[i + 1] == base + ([due] + rest)[i + 1];
    }
  }

  // ----- what a sample fires

  /** A timer's one entry says when it is due. */
  lemma DueEntry(d: Daemon, epoch: nat, t: nat, due: nat)
    requires Valid(d) && DueAt(d, epoch, t, due)
    ensures epoch * WRAP <= due
    ensures due < (epoch + 1) * WRAP ==> Entry(due - epoch * WRAP, t) in d.current && Off(d.overflow, t)
    ensures due >= (epoch + 1) * WRAP ==>
              due - (epoch + 1) * WRAP < WRAP && Entry(due - (epoch + 1) * WRAP, t) in d.overflow && Off(d.current, t)
  {
    hide SortedEntries;
    if e :| e in d.current && e.task == t && Due(epoch, false, e) == due {
      assert e == Entry(due - epoch * WRAP, t);
    } else {
      var e :| e in d.overflow && e.task == t && Due(epoch, true, e) == due;
      assert e == Entry(due - (epoch + 1) * WRAP, t);
    }
  }

  lemma OffSkips(list: seq<Entry>, timers: Timers, t: nat)
    requires ListOk(list, timers) && Sane(timers) && Off(list, t)
    ensures Of(Drain(list, timers).0, t) == [] && Of(Drain(list, timers).1, t) == []
  {
    DrainSkips(list, timers, t);
  }

  lemma EntryKnown(list: seq<Entry>, timers: Timers, e: Entry)
    requires ListOk(list, timers) && e in list
    ensures e.value < WRAP && e.task in timers
  {
  }

  /** The timer's share of what a switch of the lists fires: the rest of its series in the epoch. */
  lemma DrainSeries(list: seq<Entry>, timers: Timers, epoch: nat, t: nat, v: nat) returns (k: nat)
    requires ListOk(list, timers) && Sane(timers) && Entry(v, t) in list
    ensures t in timers && timers[t].period > 0 && k >= 1
    ensures Of(Clocked(epoch, Drain(list, timers).0), t) == Series(epoch * WRAP + v, timers[t].period, k)
    ensures Later(v, timers[t].period, k - 1) < WRAP && (!timers[t].autoReload ==> k == 1)
    ensures Of(Clocked(epoch, Drain(list, timers).1), t)
         == if timers[t].autoReload then [epoch * WRAP + Later(v, timers[t].period, k - 1)] else []
  {
    hide Later, Drain, ListOk, Times, Series, Of;
    EntryKnown(list, timers, Entry(v, t));
    DrainFires(list, timers, t, v);
    var ts := Times(v, timers[t]);
    k := |ts|;
    TimesSeries(v, timers[t]);
    TimesCount(v, timers[t]);
    OfClocked(epoch, Drain(list, timers).0, t);
    SeriesShift(epoch * WRAP, v, timers[t].period, k, Of(Clocked(epoch, Drain(list, timers).0), t));
    OfClocked(epoch, Drain(list, timers).1, t);
  }

  /** The restart sent for an expiry names the tick at which it was due. */
  lemma RestTick(epoch: nat, v: nat)
    requires v < WRAP
    ensures (epoch * WRAP + v) % WRAP == v
  {
  }

  /** A sample: the expiries of the timer that it makes good for are the next k of its series, none before
      its time, and afterwards the timer is due one period after the last of them. */
  lemma SampleFires(d: Daemon, n: nat, now: nat, t: nat, due: nat, mode: Mode) returns (k: nat, mode': Mode)
    requires Valid(d) && At(d, EpochOf(n), n) && n <= now < n + WRAP && t in d.timers && Next(d, EpochOf(n), t, due, mode)
    ensures Fires(d, Sampled(d, now % WRAP), EpochOf(now), now, t, due, mode, k, mode', SampleLog(d, EpochOf(n), now % WRAP),
                  SampleSent(d, EpochOf(n), now % WRAP))
    ensures mode != Listed ==> k == 0 && mode' == mode
    ensures Valid(Sampled(d, now % WRAP)) && At(Sampled(d, now % WRAP), EpochOf(now), now)
  {
    hide SortedEntries, Drain, ListOk, Apart, Later, Next, Fires, SampleLog, SampleSent, Sampled, Valid, At;
    var epoch, tick := EpochOf(n), now % WRAP;
    SampledKeeps(d, tick);
    SampleExact(d, epoch, n, now);
    k, mode' := 0, mode;
    if tick >= d.lastTime {
      NotSwitched(d, epoch, now, t, due, mode);
    } else if mode != Listed {
      OffSwitched(d, epoch, now, t, due, mode);
    } else if due >= (epoch + 1) * WRAP {
      LaterSwitched(d, epoch, now, t, due);
    } else {
      k, mode' := DueSwitched(d, epoch, now, t, due);
    }
  }

  /** The tick has not gone down. */
  lemma NotSwitched(d: Daemon, epoch: nat, now: nat, t: nat, due: nat, mode: Mode)
    requires Valid(d) && now % WRAP >= d.lastTime && EpochOf(now) == epoch && t in d.timers && Next(d, epoch, t, due, mode)
    ensures Fires(d, Sampled(d, now % WRAP), epoch, now, t, due, mode, 0, mode, SampleLog(d, epoch, now % WRAP),
                  SampleSent(d, epoch, now % WRAP))
  {
    hide SortedEntries, Drain, ListOk, Apart;
    NoneFired(due, d.timers[t].period);
  }

  /** It has, and the timer is on no list. */
  lemma OffSwitched(d: Daemon, epoch: nat, now: nat, t: nat, due: nat, mode: Mode)
    requires Valid(d) && now % WRAP < d.lastTime && t in d.timers && Next(d, epoch, t, due, mode) && mode != Listed
    ensures Fires(d, Sampled(d, now % WRAP), epoch + 1, now, t, due, mode, 0, mode, SampleLog(d, epoch, now % WRAP),
                  SampleSent(d, epoch, now % WRAP))
  {
    hide SortedEntries, Drain, ListOk, Apart;
    NoneFired(due, d.timers[t].period);
    NotFired(d, epoch, t);
  }

  /** It has, and the timer is due in the next epoch. */
  lemma LaterSwitched(d: Daemon, epoch: nat, now: nat, t: nat, due: nat)
    requires Valid(d) && now % WRAP < d.lastTime && t in d.timers && Next(d, epoch, t, due, Listed) && due >= (epoch + 1) * WRAP
    ensures Fires(d, Sampled(d, now % WRAP), epoch + 1, now, t, due, Listed, 0, Listed, SampleLog(d, epoch, now % WRAP),
                  SampleSent(d, epoch, now % WRAP))
  {
    hide SortedEntries, Drain, ListOk, Apart;
    NoneFired(due, d.timers[t].period);
    DueEntry(d, epoch, t, due);
    NotFired(d, epoch, t);
    Moved(d, epoch, now % WRAP, t, due);
  }

  /** It has, and the timer was due in the epoch that is over: the rest of its series is made good. */
  lemma DueSwitched(d: Daemon, epoch: nat, now: nat, t: nat, due: nat) returns (k: nat, mode': Mode)
    requires Valid(d) && now % WRAP < d.lastTime && EpochOf(now) == epoch + 1 && t in d.timers
    requires Next(d, epoch, t, due, Listed) && due < (epoch + 1) * WRAP
    ensures Fires(d, Sampled(d, now % WRAP), epoch + 1, now, t, due, Listed, k, mode', SampleLog(d, epoch, now % WRAP),
                  SampleSent(d, epoch, now % WRAP))
  {
    hide SortedEntries, Drain, ListOk, Apart, Later, Series, Of, DueAt;
    DueEntry(d, epoch, t, due);
    ClockParts(now);
    var v, p := due - epoch * WRAP, d.timers[t].period;
    k := DrainSeries(d.current, d.timers, epoch, t, v);
    mode' := if d.timers[t].autoReload then Restarting else Stopped;
    LaterFrom(epoch * WRAP, v, p, k - 1);
    LaterStep(due, p, k - 1);
    GoneFromLists(d, now % WRAP, t);
  }

  lemma GoneFromLists(d: Daemon, tick: nat, t: nat)
    requires Valid(d) && tick < d.lastTime && Off(d.overflow, t)
    ensures Off(Sampled(d, tick).current, t) && Off(Sampled(d, tick).overflow, t)
  {
    hide SortedEntries, Drain, ListOk, Apart;
  }

  /** k expiries of the timer have been logged, and the timer has gone over from one mode to the other; a
      restart has been sent for it iff it was fired and now waits for one, for the last of those
      expiries. */
  ghost predicate Fires(d: Daemon, d': Daemon, epoch': nat, now: nat, t: nat, due: nat, mode: Mode, k: nat, mode': Mode,
                        log: seq<Entry>, sent: seq<Entry>)
    requires t in d.timers
  {
    var period := d.timers[t].period;
    && t in d'.timers && d'.timers[t] == d.timers[t]
    && Of(log, t) == Series(due, period, k)
    && (k > 0 ==> Later(due, period, k - 1) <= now)
    && Next(d', epoch', t, Later(due, period, k), mode')
    && (if d.timers[t].autoReload then mode != Stopped ==> mode' != Stopped else k <= 1 && (k == 1 ==> mode' == Stopped))
    && (mode == Stopped ==> k == 0 && mode' == Stopped)
    && (k == 0 ==> mode' == mode || (mode == Restarting && mode' == Listed))
    && Of(sent, t) == if k > 0 && mode' == Restarting then [Later(due, period, k - 1)] else []
  }

  lemma NotFired(d: Daemon, epoch: nat, t: nat)
    requires Valid(d) && Off(d.current, t)
    ensures Of(Clocked(epoch, Drain(d.current, d.timers).0), t) == []
    ensures Of(Clocked(epoch, Drain(d.current, d.timers).1), t) == []
  {
    OffSkips(d.current, d.timers, t);
    OfClocked(epoch, Drain(d.current, d.timers).0, t);
    OfClocked(epoch, Drain(d.current, d.timers).1, t);
  }

  lemma Moved(d: Daemon, epoch: nat, tick: nat, t: nat, due: nat)
    requires Valid(d) && tick < d.lastTime && due >= (epoch + 1) * WRAP && Entry(due - (epoch + 1) * WRAP, t) in d.overflow
    ensures DueAt(Sampled(d, tick), epoch + 1, t, due)
  {
    assert Due(epoch + 1, false, Entry(due - (epoch + 1) * WRAP, t)) == due;
  }

  // ----- the other events

  /** Another timer entered on a list changes nothing for this one. */
  lemma InsertedOther(d: Daemon, epoch: nat, u: nat, expiry: nat, now: nat, command: nat, t: nat, due: nat, mode: Mode)
    requires u in d.timers && u != t && Next(d, epoch, t, due, mode)
    ensures Next(Inserted(d, u, expiry, now, command).0, epoch, t, due, mode)
  {
    hide Insert, Decide;
    InsertHas(d.current, Entry(expiry, u));
    InsertHas(d.overflow, Entry(expiry, u));
  }

  lemma HeadGone(d: Daemon, epoch: nat, t: nat, due: nat, mode: Mode, fired: seq<Entry>, active: set<nat>)
    requires Valid(d) && d.current != [] && d.current[0].task != t && Next(d, epoch, t, due, mode)
    ensures Next(d.(current := d.current[1..], fired := fired, active := active), epoch, t, due, mode)
  {
    hide SortedEntries;
    assert d.current == [d.current[0]] + d.current[1..];
  }

  /** The head of the list is some other timer's. */
  lemma OtherExpires(w: World, t: nat, due: nat, mode: Mode)
    requires CanStep(w, Process) && t in w.d.timers && w.d.current[0].task != t && Next(w.d, EpochOf(w.n), t, due, mode)
    ensures w.d.current[0].task in w.d.timers
    ensures var d' := Expired(w.d, w.n % WRAP); d'.timers == w.d.timers && Next(d', EpochOf(w.n), t, due, mode)
  {
    hide Insert, Decide, SortedEntries, ListOk, Next, Inserted;
    ExpiredKeeps(w.d, w.n % WRAP);
    var d, head := w.d, w.d.current[0];
    var k := d.timers[head.task];
    HeadGone(d, EpochOf(w.n), t, due, mode, d.fired + [head], d.active);
    HeadGone(d, EpochOf(w.n), t, due, mode, d.fired + [head], d.active - {head.task});
    var d1 := d.(current := d.current[1..], fired := d.fired + [head]);
    InsertedOther(d1, EpochOf(w.n), head.task, (head.value + k.period) % WRAP, w.n % WRAP, head.value, t, due, mode);
    InsertedSame(d1, head.task, (head.value + k.period) % WRAP, w.n % WRAP, head.value);
    MoreCommands(Inserted(d1, head.task, (head.value + k.period) % WRAP, w.n % WRAP, head.value).0, EpochOf(w.n), t, due, mode,
                 [Start(head.task, head.value)]);
  }

  lemma MoreCommands(d: Daemon, epoch: nat, t: nat, due: nat, mode: Mode, cs: seq<Command>)
    requires Next(d, epoch, t, due, mode)
    ensures Next(d.(commands := d.commands + cs), epoch, t, due, mode)
  {
  }

  lemma InsertedSame(d: Daemon, u: nat, expiry: nat, now: nat, command: nat)
    requires u in d.timers
    ensures var d' := Inserted(d, u, expiry, now, command).0;
            d'.timers == d.timers && d'.commands == d.commands && d'.fired == d.fired && d'.lastTime == d.lastTime
  {
  }

  /** The timer's own expiry: it is fired, and an auto-reload timer goes back on a list or has its restart
      sent, to be due one period on. */
  lemma OwnExpires(w: World, t: nat, due: nat) returns (mode': Mode)
    requires CanStep(w, Process) && w.d.current[0].task == t && t in w.d.timers && Next(w.d, EpochOf(w.n), t, due, Listed)
    ensures Fires(w.d, Expired(w.d, w.n % WRAP), EpochOf(w.n), w.n, t, due, Listed, 1, mode',
                  [Entry(EpochOf(w.n) * WRAP + w.d.current[0].value, t)], ProcessSent(w.d, w.n))
  {
    hide Insert, Decide, SortedEntries, Later, Inserted, Series, ListOk, Apart, Expired, ProcessSent, Of, Valid, Next;
    var d, head, epoch := w.d, w.d.current[0], EpochOf(w.n);
    var period := d.timers[t].period;
    DueOf(d, epoch, t, due);
    HeadDue(d, epoch, t, due);
    LaterStep(due, period, 0);
    ClockParts(w.n);
    Shorter(d, head);
    OneFired(due, period, t);
    var d1 := d.(current := d.current[1..], fired := d.fired + [head]);
    if d.timers[t].autoReload {
      mode' := OwnReloads(d, d1, w.n, t, due);
    } else {
      mode' := Stopped;
      OwnStops(d, d1, w.n, t, due);
    }
  }

  lemma DueOf(d: Daemon, epoch: nat, t: nat, due: nat)
    requires Next(d, epoch, t, due, Listed)
    ensures DueAt(d, epoch, t, due)
  {
  }

  lemma OwnStops(d: Daemon, d1: Daemon, n: nat, t: nat, due: nat)
    requires d.current != [] && d.current[0].task == t && t in d.timers && !d.timers[t].autoReload
    requires d1 == d.(current := d.current[1..], fired := d.fired + [d.current[0]]) && Off(d1.current, t) && Off(d1.overflow, t)
    ensures var d' := Expired(d, n % WRAP);
            d'.timers == d.timers && Next(d', EpochOf(n), t, Later(due, d.timers[t].period, 1), Stopped)
    ensures Of(ProcessSent(d, n), t) == []
  {
    hide Inserted;
  }

  lemma OwnReloads(d: Daemon, d1: Daemon, n: nat, t: nat, due: nat) returns (mode': Mode)
    requires Valid(d1) && d.current != [] && d.current[0].task == t && t in d.timers && d.timers[t].autoReload
    requires d1 == d.(current := d.current[1..], fired := d.fired + [d.current[0]]) && Off(d1.current, t) && Off(d1.overflow, t)
    requires At(d1, EpochOf(n), n) && due <= n < due + WRAP
    requires due == EpochOf(n) * WRAP + d.current[0].value && d.current[0].value < WRAP
    ensures mode' == Listed || mode' == Restarting
    ensures var d' := Expired(d, n % WRAP);
            d'.timers == d.timers && Next(d', EpochOf(n), t, due + d.timers[t].period, mode')
    ensures Of(ProcessSent(d, n), t) == if mode' == Restarting then [due] else []
  {
    hide Inserted, Insert, Decide, SortedEntries, ListOk, Apart;
    var head, period := d.current[0], d.timers[t].period;
    RestTick(EpochOf(n), head.value);
    StartExact(d1, t, due, n);
    InsertedSame(d1, t, (head.value + period) % WRAP, n % WRAP, head.value);
    mode' := if Inserted(d1, t, (head.value + period) % WRAP, n % WRAP, head.value).1 then Restarting else Listed;
    OneOf(due, t);
  }

  lemma OneOf(due: nat, t: nat)
    ensures Of([Entry(due, t)], t) == [due]
  {
  }

  lemma OneFired(due: nat, period: nat, t: nat)
    ensures Of([Entry(due, t)], t) == Series(due, period, 1)
  {
    assert Series(due + period, period, 0) == [];
  }

  lemma HeadDue(d: Daemon, epoch: nat, t: nat, due: nat)
    requires Valid(d) && d.current != [] && d.current[0].task == t && DueAt(d, epoch, t, due)
    ensures due == epoch * WRAP + d.current[0].value
  {
    hide SortedEntries;
    DueEntry(d, epoch, t, due);
    HeadIn(d.current);
    if due < (epoch + 1) * WRAP {
      SameEntry(d.current, d.current[0], Entry(due - epoch * WRAP, t));
    }
  }

  lemma Shorter(d: Daemon, head: Entry)
    requires Valid(d) && d.current != [] && head == d.current[0]
    ensures Valid(d.(current := d.current[1..], fired := d.fired + [head]))
    ensures Off(d.current[1..], head.task) && Off(d.overflow, head.task)
  {
    Leaves(d.current, d.overflow, d.timers);
    hide SortedEntries, ListOk;
    assert forall x :: x in d.current[1..] ==> x in d.current;
  }

  lemma RemovedOther(d: Daemon, epoch: nat, u: nat, t: nat, due: nat, mode: Mode)
    requires Valid(d) && u != t && Next(d, epoch, t, due, mode)
    ensures Next(Removed(d, u), epoch, t, due, mode)
  {
    hide Without;
    WithoutHas(d.current, u);
    WithoutHas(d.overflow, u);
  }

  /** Another timer's command: only the sample that goes with it concerns this one. */
  lemma OtherObeyed(w: World, e: Event, t: nat, due: nat, mode: Mode) returns (k: nat, mode': Mode)
    requires CanStep(w, e) && e.Obey? && w.queue[0].c.timer != t && t in w.d.timers && Next(w.d, EpochOf(w.n), t, due, mode)
    ensures Fires(w.d, Step(w, e).d, EpochOf(e.now), e.now, t, due, mode, k, mode', Step(w, e).log[|w.log|..], Sends(w, e))
    ensures mode != Listed ==> k == 0 && mode' == mode
  {
    hide Next, Inserted, Sampled, Without, Fires, SampleLog, LateLog, SampleSent, LateSent;
    var c := w.queue[0].c;
    var d0 := Removed(w.d, c.timer);
    RemovedKeeps(w.d, c.timer);
    RemovedTimers(w.d, c.timer);
    RemovedOther(w.d, EpochOf(w.n), c.timer, t, due, mode);
    ObeyedKeeps(w.d, c, e.now % WRAP);
    k, mode' := SampleFires(d0, w.n, e.now, t, due, mode);
    AfterSample(w, e, d0, t, due, mode, k, mode');
  }

  lemma AfterSample(w: World, e: Event, d0: Daemon, t: nat, due: nat, mode: Mode, k: nat, mode': Mode)
    requires CanStep(w, e) && e.Obey? && w.queue[0].c.timer != t && t in w.d.timers
    requires d0 == Removed(w.d, w.queue[0].c.timer) && Valid(d0) && d0.timers == w.d.timers
    requires Fires(d0, Sampled(d0, e.now % WRAP), EpochOf(e.now), e.now, t, due, mode, k, mode',
                   SampleLog(d0, EpochOf(w.n), e.now % WRAP), SampleSent(d0, EpochOf(w.n), e.now % WRAP))
    ensures Fires(w.d, Step(w, e).d, EpochOf(e.now), e.now, t, due, mode, k, mode', Step(w, e).log[|w.log|..], Sends(w, e))
  {
    hide Next, Inserted, Sampled, Without, SampleLog, LateLog, SampleSent, LateSent, Of, Series, Later, Removed, Valid, Step, Sends;
    var q := w.queue[0];
    ObeyParts(w, e);
    var d1 := Sampled(d0, e.now % WRAP);
    SampledKeeps(d0, e.now % WRAP);
    var log, late := SampleLog(d0, EpochOf(w.n), e.now % WRAP), LateLog(d1, q, e.now);
    OfAppend(log, late, t);
    var sent, lateSent := SampleSent(d0, EpochOf(w.n), e.now % WRAP), LateSent(d1, q, e.now);
    OfAppend(sent, lateSent, t);
    LateOther(d1, q, e.now, t);
    assert Of(log, t) + [] == Of(log, t) && Of(sent, t) + [] == Of(sent, t);
    ObeyedOther(d0, d1, q.c, e.now, t, Later(due, w.d.timers[t].period, k), mode');
  }

  lemma LateOther(d: Daemon, q: Sent, now: nat, t: nat)
    requires q.c.timer in d.timers && q.c.timer != t
    ensures Of(LateLog(d, q, now), t) == [] && Of(LateSent(d, q, now), t) == []
  {
  }

  lemma ObeyedOther(d0: Daemon, d1: Daemon, c: Command, clock: nat, t: nat, due: nat, mode: Mode)
    requires Valid(d0) && d1 == Sampled(d0, clock % WRAP) && c.timer in d0.timers && c.timer != t
    requires d1.timers == d0.timers && Next(d1, EpochOf(clock), t, due, mode)
    ensures var d' := Carried(d1, c, clock % WRAP);
            && Next(d', EpochOf(clock), t, due, mode)
            && (t in d1.timers ==> t in d'.timers && d'.timers[t] == d1.timers[t])
            && forall x :: x in d1.commands ==> x in d'.commands
  {
    hide Inserted, Sampled;
    var epoch, now, u := EpochOf(clock), clock % WRAP, c.timer;
    match c
    case Start(_, at) =>
      var d2, expiry := d1.(active := d1.active + {u}), (at + d1.timers[u].period) % WRAP;
      SameLists(d1, d2, epoch, t, due, mode);
      InsertedOther(d2, epoch, u, expiry, now, at, t, due, mode);
      InsertedSame(d2, u, expiry, now, at);
      var d3 := Inserted(d2, u, expiry, now, at).0;
      SameLists(d3, Carried(d1, c, now), epoch, t, due, mode);
    case Stop(_) =>
      SameLists(d1, Carried(d1, c, now), epoch, t, due, mode);
    case ChangePeriod(_, period) =>
      var d2 := d1.(active := d1.active + {u}, timers := d1.timers[u := d1.timers[u].(period := period)]);
      SameLists(d1, d2, epoch, t, due, mode);
      InsertedOther(d2, epoch, u, (now + period) % WRAP, now, now, t, due, mode);
      InsertedSame(d2, u, (now + period) % WRAP, now, now);
  }

  lemma SameLists(d: Daemon, d': Daemon, epoch: nat, t: nat, due: nat, mode: Mode)
    requires d'.current == d.current && d'.overflow == d.overflow && Next(d, epoch, t, due, mode)
    ensures Next(d', epoch, t, due, mode)
  {
  }

  /** The timer's own start, whatever has become of it before: it is fired at once if its period is over, and
      listed otherwise. */
  lemma OwnObeyed(w: World, e: Event, t: nat, due: nat) returns (k: nat, mode': Mode)
    requires CanStep(w, e) && e.Obey? && w.queue[0].c.timer == t && w.queue[0].c.Start?
    requires t in w.d.timers && w.queue[0].issued + w.d.timers[t].period == due
    ensures Fires(w.d, Step(w, e).d, EpochOf(e.now), e.now, t, due, Restarting, k, mode', Step(w, e).log[|w.log|..], Sends(w, e))
    ensures k == 0 ==> mode' == Listed
  {
    hide Inserted, Sampled, SampleLog, LateLog, SampleSent, LateSent, Valid, Carried, Next, Removed, Fires, Step, Sends, QueueOk;
    var q, d0, now := w.queue[0], Removed(w.d, t), e.now % WRAP;
    HeadSendable(w);
    RemovedKeeps(w.d, t);
    RemovedTimers(w.d, t);
    RemovedTime(w.d, t);
    OffNext(d0, EpochOf(w.n), t, due);
    var k0, mode0 := SampleFires(d0, w.n, e.now, t, due, Restarting);
    var d1 := Sampled(d0, now);
    SampledKeeps(d0, now);
    FiresNext(d0, d1, EpochOf(e.now), e.now, t, due, SampleLog(d0, EpochOf(w.n), now), SampleSent(d0, EpochOf(w.n), now));
    k, mode' := OwnStarted(d1, q, e.now, t, due);
    ObeyParts(w, e);
    FiresThen(w.d, d0, d1, Carried(d1, q.c, now), EpochOf(e.now), e.now, t, due, k, mode',
              SampleLog(d0, EpochOf(w.n), now), LateLog(d1, q, e.now), SampleSent(d0, EpochOf(w.n), now), LateSent(d1, q, e.now));
  }

  /** The parts of a command's execution. */
  lemma ObeyParts(w: World, e: Event)
    requires CanStep(w, e) && e.Obey?
    ensures var q, tick := w.queue[0], e.now % WRAP;
            var d0 := Removed(w.d, q.c.timer);
            && Valid(d0) && q.c.timer in w.d.timers
            && var d1 := Sampled(d0, tick);
               && q.c.timer in d1.timers && Step(w, e).d == Carried(d1, q.c, tick) && w.log <= Step(w, e).log
               && Step(w, e).log[|w.log|..] == SampleLog(d0, EpochOf(w.n), tick) + LateLog(d1, q, e.now)
               && Sends(w, e) == SampleSent(d0, EpochOf(w.n), tick) + LateSent(d1, q, e.now)
  {
    hide Inserted, Sampled, SampleLog, LateLog, SampleSent, LateSent, Valid, Carried, Removed, QueueOk, Sendable, RestartAll;
    HeadSendable(w);
    var q, tick := w.queue[0], e.now % WRAP;
    ObeyedKeeps(w.d, q.c, tick);
    RemovedKeeps(w.d, q.c.timer);
    RemovedTimers(w.d, q.c.timer);
    var d0 := Removed(w.d, q.c.timer);
    SampledKeeps(d0, tick);
    assert Step(w, e).log == w.log + (SampleLog(d0, EpochOf(w.n), tick) + LateLog(Sampled(d0, tick), q, e.now));
  }

  lemma FiresNext(d: Daemon, d': Daemon, epoch: nat, now: nat, t: nat, due: nat, log: seq<Entry>, sent: seq<Entry>)
    requires t in d.timers && Fires(d, d', epoch, now, t, due, Restarting, 0, Restarting, log, sent)
    ensures t in d'.timers && d'.timers[t] == d.timers[t] && Next(d', epoch, t, due, Restarting)
  {
    hide Next, Later, Of, Series;
    NoneFired(due, d.timers[t].period);
  }

  /** A timer that waits for its restart: first a sample, which does nothing to it, then its start. */
  lemma FiresThen(d: Daemon, d0: Daemon, d1: Daemon, d2: Daemon, epoch: nat, now: nat, t: nat, due: nat, k: nat, mode': Mode,
                  log: seq<Entry>, late: seq<Entry>, sent: seq<Entry>, lateSent: seq<Entry>)
    requires t in d.timers && d0.timers == d.timers && t in d1.timers
    requires Fires(d0, d1, epoch, now, t, due, Restarting, 0, Restarting, log, sent)
    requires Fires(d1, d2, epoch, now, t, due, Restarting, k, mode', late, lateSent)
    ensures Fires(d, d2, epoch, now, t, due, Restarting, k, mode', log + late, sent + lateSent)
  {
    hide Next, Later, Of, Series;
    NoneFired(due, d.timers[t].period);
    OfAppend(log, late, t);
    OfAppend(sent, lateSent, t);
    assert [] + Of(late, t) == Of(late, t) && [] + Of(lateSent, t) == Of(lateSent, t);
  }

  lemma RemovedTime(d: Daemon, t: nat)
    ensures Removed(d, t).lastTime == d.lastTime
  {
  }

  lemma NothingOf(t: nat)
    ensures Of([], t) == []
  {
  }

  lemma NoneFired(due: nat, period: nat)
    ensures Series(due, period, 0) == [] && Later(due, period, 0) == due
  {
  }

  lemma OffNext(d: Daemon, epoch: nat, t: nat, due: nat)
    requires Off(d.current, t) && Off(d.overflow, t)
    ensures Next(d, epoch, t, due, Restarting)
  {
  }

  lemma OwnStarted(d: Daemon, q: Sent, clock: nat, t: nat, due: nat) returns (k: nat, mode': Mode)
    requires Valid(d) && q.c.timer == t && q.c.Start? && t in d.timers && q.c.at == q.issued % WRAP
    requires At(d, EpochOf(clock), clock) && q.issued <= clock < q.issued + WRAP
    requires Next(d, EpochOf(clock), t, due, Restarting) && q.issued + d.timers[t].period == due
    ensures Fires(d, Carried(d, q.c, clock % WRAP), EpochOf(clock), clock, t, due, Restarting, k, mode',
                  LateLog(d, q, clock), LateSent(d, q, clock))
    ensures k == 0 ==> mode' == Listed
  {
    hide Inserted, Later, Valid, Series, Of;
    var at, now, period, a := q.c.at, clock % WRAP, d.timers[t].period, d.(active := d.active + {t});
    ActiveValid(d, t);
    StartExact(a, t, q.issued, clock);
    InsertedSame(a, t, (at + period) % WRAP, now, at);
    var (d2, late) := Inserted(a, t, (at + period) % WRAP, now, at);
    LaterStep(due, period, 0);
    OneFired(due, period, t);
    NoneFired(due, period);
    NothingOf(t);
    k := if late then 1 else 0;
    mode' := if !late then Listed else if d.timers[t].autoReload then Restarting else Stopped;
    StartTick(q.issued, period);
    OneOf(due, t);
  }

  lemma ActiveValid(d: Daemon, t: nat)
    requires Valid(d)
    ensures Valid(d.(active := d.active + {t}))
  {
  }

  lemma StartTick(issued: nat, period: nat)
    ensures (issued % WRAP + period) % WRAP == (issued + period) % WRAP
  {
  }

  // ----- runs

  /** The commands of the queue that are for the timer. */
  function For(queue: seq<Sent>, t: nat): seq<Sent> {
    if queue == [] then []
    else (if queue[0].c.timer == t then [queue[0]] else []) + For(queue[1..], t)
  }

  lemma ForCons(q: Sent, queue: seq<Sent>, t: nat)
    ensures For([q] + queue, t) == (if q.c.timer == t then [q] else []) + For(queue, t)
  {
    assert ([q] + queue)[1..] == queue;
  }

  lemma ForNothing(t: nat)
    ensures For([], t) == []
  {
  }

  lemma {:induction false} ForAppend(a: seq<Sent>, b: seq<Sent>, t: nat)
    ensures For(a + b, t) == For(a, t) + For(b, t)
  {
    hide For;
    if a == [] {
      ForNothing(t);
      assert a + b == b;
    } else {
      var rest := a[1..];
      ForAppend(rest, b, t);
      assert a == [a[0]] + rest && a + b == [a[0]] + (rest + b);
      ForCons(a[0], rest, t);
      ForCons(a[0], rest + b, t);
    }
  }

  lemma {:induction false} ForRestarts(es: seq<Entry>, t: nat)
    ensures |For(RestartAll(es), t)| == |Of(es, t)|
    ensures forall i :: 0 <= i < |Of(es, t)| ==> For(RestartAll(es), t)[i] == Restart(Entry(Of(es, t)[i], t))
  {
    if es != [] {
      ForRestarts(es[1..], t);
      assert RestartAll(es)[1..] == RestartAll(es[1..]);
    }
  }

  /** The commands for the timer that are in the queue: one start, for its next expiry, if it waits for one,
      and otherwise none. */
  ghost predicate Pending(queue: seq<Sent>, t: nat, period: nat, due: nat, mode: Mode) {
    if mode == Restarting then
      |For(queue, t)| == 1 && For(queue, t)[0].c.Start? && For(queue, t)[0].issued + period == due
    else For(queue, t) == []
  }

  /** If the next command is for the timer, it is the start that it waits for. */
  lemma HeadPending(queue: seq<Sent>, t: nat, period: nat, due: nat, mode: Mode)
    requires Pending(queue, t, period, due, mode) && queue != [] && queue[0].c.timer == t
    ensures mode == Restarting && queue[0].c.Start? && queue[0].issued + period == due && For(queue[1..], t) == []
  {
  }

  /** After k expiries: what was sent for the last of them, or what was there before. */
  lemma PendingOn(queue: seq<Sent>, sent: seq<Entry>, t: nat, period: nat, due: nat, k: nat, mode': Mode)
    requires Of(sent, t) == if k > 0 && mode' == Restarting then [Later(due, period, k - 1)] else []
    requires k == 0 ==> Pending(queue, t, period, due, mode')
    requires k > 0 ==> For(queue, t) == []
    ensures Pending(queue + RestartAll(sent), t, period, Later(due, period, k), mode')
  {
    hide Later, Of;
    ForAppend(queue, RestartAll(sent), t);
    ForRestarts(sent, t);
    LaterStep(due, period, 0);
    if k > 0 {
      LaterStep(due, period, k - 1);
    }
  }

  lemma RestartsOk(es: seq<Entry>, queue: seq<Sent>, timers: Timers)
    requires QueueOk(queue, timers) && forall i :: 0 <= i < |es| ==> es[i].task in timers
    ensures QueueOk(queue + RestartAll(es), timers)
  {
  }

  lemma {:induction false} DrainTasks(list: seq<Entry>, timers: Timers)
    requires ListOk(list, timers) && Sane(timers)
    ensures forall i :: 0 <= i < |Drain(list, timers).1| ==> Drain(list, timers).1[i].task in timers
    decreases Weight(list)
  {
    hide NextList, Weight;
    if list != [] {
      HeadIn(list);
      DrainTasks(NextList(list, timers), timers);
    }
  }

  lemma SampleSends(d: Daemon, epoch: nat, tick: nat)
    requires Valid(d)
    ensures forall i :: 0 <= i < |SampleSent(d, epoch, tick)| ==> SampleSent(d, epoch, tick)[i].task in d.timers
  {
    hide Drain, ListOk, Apart;
    DrainTasks(d.current, d.timers);
  }

  lemma StepGood(w: World, e: Event)
    requires CanStep(w, e)
    ensures Good(Step(w, e)) && Step(w, e).n >= w.n && w.log <= Step(w, e).log
  {
    hide SortedEntries, Drain, ListOk, Apart, Inserted, Without, SampleLog, LateLog, SampleSent, Sampled, QueueOk;
    hide Sendable, RestartAll;
    ClockParts(w.n);
    match e
    case Look(now) =>
      SampledKeeps(w.d, now % WRAP);
      SampleExact(w.d, EpochOf(w.n), w.n, now);
      SampleSends(w.d, EpochOf(w.n), now % WRAP);
      RestartsOk(SampleSent(w.d, EpochOf(w.n), now % WRAP), w.queue, w.d.timers);
    case Process =>
      ExpiredKeeps(w.d, w.n % WRAP);
      ExpiredTime(w.d, w.n % WRAP);
      RestartsOk(ProcessSent(w.d, w.n), w.queue, w.d.timers);
    case Send(q) =>
      SentOk(w.queue, q, w.d.timers);
    case Obey(now) =>
      ObeyGood(w, e);
  }

  lemma SentOk(queue: seq<Sent>, q: Sent, timers: Timers)
    requires QueueOk(queue, timers) && Sendable(q, timers)
    ensures QueueOk(queue + [q], timers)
  {
  }

  lemma TailQueueOk(queue: seq<Sent>, timers: Timers, timers': Timers)
    requires QueueOk(queue, timers) && queue != [] && forall t :: t in timers ==> t in timers'
    ensures QueueOk(queue[1..], timers') && Sendable(queue[0], timers)
  {
  }

  lemma ObeyGood(w: World, e: Event)
    requires CanStep(w, e) && e.Obey?
    ensures Good(Step(w, e)) && Step(w, e).n >= w.n && w.log <= Step(w, e).log
  {
    hide SortedEntries, Drain, ListOk, Apart, Inserted, Without, SampleLog, LateLog, SampleSent, LateSent, Sampled;
    hide QueueOk, Sendable, RestartAll, Carried;
    var q, tick := w.queue[0], e.now % WRAP;
    TailQueueOk(w.queue, w.d.timers, w.d.timers);
    HeadSendable(w);
    RemovedKeeps(w.d, q.c.timer);
    RemovedTimers(w.d, q.c.timer);
    RemovedTime(w.d, q.c.timer);
    ObeyedKeeps(w.d, q.c, tick);
    var d0 := Removed(w.d, q.c.timer);
    SampleExact(d0, EpochOf(w.n), w.n, e.now);
    SampledKeeps(d0, tick);
    var d1 := Sampled(d0, tick);
    CarriedTime(d1, q.c, tick);
    SampleSends(d0, EpochOf(w.n), tick);
    LateSends(d1, q, e.now);
    TailQueueOk(w.queue, w.d.timers, Carried(d1, q.c, tick).timers);
    RestartsOk(SampleSent(d0, EpochOf(w.n), tick) + LateSent(d1, q, e.now), w.queue[1..], Carried(d1, q.c, tick).timers);
  }

  lemma HeadSendable(w: World)
    requires Good(w) && w.queue != []
    ensures Sendable(w.queue[0], w.d.timers) && w.queue[0].c.timer in w.d.timers
    ensures w.queue[0].c.ChangePeriod? ==> 0 < w.queue[0].c.period < WRAP
    ensures w.queue[0].c.Start? ==> w.queue[0].c.at == w.queue[0].issued % WRAP
  {
  }

  lemma LateSends(d: Daemon, q: Sent, now: nat)
    requires q.c.timer in d.timers
    ensures forall i :: 0 <= i < |LateSent(d, q, now)| ==> LateSent(d, q, now)[i].task in d.timers
  {
  }

  lemma ExpiredTime(d: Daemon, now: nat)
    requires d.current != [] && d.current[0].task in d.timers
    ensures Expired(d, now).lastTime == d.lastTime && Expired(d, now).timers == d.timers
  {
  }

  lemma CarriedTime(d: Daemon, c: Command, tick: nat)
    requires c.timer in d.timers
    ensures Carried(d, c, tick).lastTime == d.lastTime
    ensures forall t :: t in d.timers ==> t in Carried(d, c, tick).timers
  {
  }

  /** A command for the timer is obeyed. */
  ghost predicate OwnCommand(w: World, e: Event, t: nat)
    requires CanStep(w, e)
  {
    e.Obey? && w.queue[0].c.timer == t
  }

  /** An event other than a command for the timer fires the next k expiries of its series. */
  lemma OthersFire(w: World, e: Event, t: nat, due: nat, mode: Mode) returns (k: nat, mode': Mode)
    requires CanStep(w, e) && t in w.d.timers && Next(w.d, EpochOf(w.n), t, due, mode) && !OwnCommand(w, e, t)
    ensures w.log <= Step(w, e).log
    ensures Fires(w.d, Step(w, e).d, EpochOf(Step(w, e).n), Step(w, e).n, t, due, mode, k, mode',
                  Step(w, e).log[|w.log|..], Sends(w, e))
    ensures mode != Listed ==> k == 0 && mode' == mode
  {
    hide Next, Fires, SampleLog, LateLog, SampleSent, LateSent, ProcessSent, Sampled, Expired, Obeyed, Inserted, Valid;
    hide RestartAll;
    match e
    case Look(now) =>
      k, mode' := SampleFires(w.d, w.n, now, t, due, mode);
      assert Step(w, e).log[|w.log|..] == SampleLog(w.d, EpochOf(w.n), now % WRAP);
    case Process =>
      assert Step(w, e).log[|w.log|..] == [Entry(EpochOf(w.n) * WRAP + w.d.current[0].value, w.d.current[0].task)];
      if w.d.current[0].task == t {
        HeadListed(w, t, due, mode);
        k := 1;
        mode' := OwnExpires(w, t, due);
      } else {
        k, mode' := 0, mode;
        OtherExpires(w, t, due, mode);
        OtherFired(w, t, due, mode);
      }
    case Send(q) =>
      k, mode' := 0, mode;
      NothingHappens(w.d, EpochOf(w.n), w.n, t, due, mode);
      assert Step(w, e).log[|w.log|..] == [];
    case Obey(now) =>
      k, mode' := OtherObeyed(w, e, t, due, mode);
  }

  /** And so does the start that the timer waits for. */
  lemma StepFires(w: World, e: Event, t: nat, due: nat, mode: Mode) returns (k: nat, mode': Mode)
    requires CanStep(w, e) && t in w.d.timers && Next(w.d, EpochOf(w.n), t, due, mode)
    requires Pending(w.queue, t, w.d.timers[t].period, due, mode)
    ensures w.log <= Step(w, e).log
    ensures Fires(w.d, Step(w, e).d, EpochOf(Step(w, e).n), Step(w, e).n, t, due, mode, k, mode',
                  Step(w, e).log[|w.log|..], Sends(w, e))
    ensures OwnCommand(w, e, t) ==> mode == Restarting && For(w.queue[1..], t) == [] && (k == 0 ==> mode' == Listed)
    ensures !OwnCommand(w, e, t) && mode != Listed ==> k == 0 && mode' == mode
  {
    hide Next, Fires, SampleLog, LateLog, SampleSent, LateSent, ProcessSent, Sampled, Expired, Obeyed, Inserted, Valid;
    hide Pending, For, RestartAll;
    if OwnCommand(w, e, t) {
      HeadPending(w.queue, t, w.d.timers[t].period, due, mode);
      k, mode' := OwnObeyed(w, e, t, due);
    } else {
      k, mode' := OthersFire(w, e, t, due, mode);
    }
  }

  lemma NothingHappens(d: Daemon, epoch: nat, n: nat, t: nat, due: nat, mode: Mode)
    requires t in d.timers && Next(d, epoch, t, due, mode)
    ensures Fires(d, d, epoch, n, t, due, mode, 0, mode, [], [])
  {
    hide Next;
    NoneFired(due, d.timers[t].period);
  }

  lemma HeadListed(w: World, t: nat, due: nat, mode: Mode)
    requires w.d.current != [] && w.d.current[0].task == t && Next(w.d, EpochOf(w.n), t, due, mode)
    ensures mode == Listed
  {
    assert w.d.current[0] in w.d.current;
  }

  lemma OtherFired(w: World, t: nat, due: nat, mode: Mode)
    requires CanStep(w, Process) && t in w.d.timers && w.d.current[0].task != t && Next(w.d, EpochOf(w.n), t, due, mode)
    requires w.d.current[0].task in w.d.timers
    requires var d' := Expired(w.d, w.n % WRAP); d'.timers == w.d.timers && Next(d', EpochOf(w.n), t, due, mode)
    ensures Fires(w.d, Expired(w.d, w.n % WRAP), EpochOf(w.n), w.n, t, due, mode, 0, mode,
                  [Entry(EpochOf(w.n) * WRAP + w.d.current[0].value, w.d.current[0].task)], ProcessSent(w.d, w.n))
  {
    hide Next, Expired;
    NoneFired(due, w.d.timers[t].period);
    NotOf(Entry(EpochOf(w.n) * WRAP + w.d.current[0].value, w.d.current[0].task), t);
  }

  lemma NotOf(e: Entry, t: nat)
    requires e.task != t
    ensures Of([e], t) == []
  {
    assert [e][1..] == [];
  }

  ghost predicate Run(ws: seq<World>, es: seq<Event>) {
    && |ws| == |es| + 1 && Good(ws[0])
    && forall i :: 0 <= i < |es| ==> CanStep(ws[i], es[i]) && ws[i + 1] == Step(ws[i], es[i])
  }

  /** The expiries of the timer fired from the beginning of the run up to its i-th state. */
  ghost function FiredBy(ws: seq<World>, i: nat, t: nat): seq<nat>
    requires i < |ws|
  {
    Of(ws[i].log, t)
  }

  lemma {:induction false} SeriesAppend(due: nat, period: nat, a: nat, b: nat)
    ensures Series(due, period, a) + Series(Later(due, period, a), period, b) == Series(due, period, a + b)
    ensures Later(Later(due, period, a), period, b) == Later(due, period, a + b)
    decreases a
  {
    LaterStep(due, period, 0);
    if a == 0 {
    } else {
      LaterStep(due, period, a - 1);
      SeriesAppend(due + period, period, a - 1, b);
      assert Later(due, period, a) == Later(due + period, period, a - 1);
      LaterStep(due, period, a + b - 1);
    }
  }

  lemma LogGrows(log: seq<Entry>, log': seq<Entry>, t: nat)
    requires log <= log'
    ensures Of(log', t) == Of(log, t) + Of(log'[|log|..], t)
  {
    hide Of;
    OfAppend(log, log'[|log|..], t);
    assert log' == log + log'[|log|..];
  }

  lemma SeriesGlue(fired: seq<nat>, due: nat, period: nat, a: nat, b: nat)
    ensures fired + Series(due, period, a) + Series(Later(due, period, a), period, b) == fired + Series(due, period, a + b)
    ensures Later(Later(due, period, a), period, b) == Later(due, period, a + b)
    ensures b > 0 ==> Later(Later(due, period, a), period, b - 1) == Later(due, period, a + b - 1)
  {
    hide Series, Later;
    SeriesAppend(due, period, a, b);
    if b > 0 {
      SeriesAppend(due, period, a, b - 1);
    }
    assert fired + Series(due, period, a) + Series(Later(due, period, a), period, b)
        == fired + (Series(due, period, a) + Series(Later(due, period, a), period, b));
  }

  /** Once per period. In any run in which nobody else sends a command for the timer, and none is waiting in
      the queue at first but the start that the timer waits for, if it does, it is fired for its expiries one
      after the other, one period apart, none missing and none twice, and none before its time; a timer
      without auto-reload is fired once, and a stopped one not at all. The restarts that are obeyed on the way
      are the ones sent. */
  lemma {:induction false} OncePerPeriod(ws: seq<World>, es: seq<Event>, t: nat, due: nat, mode: Mode, j: nat)
    returns (k: nat, mode': Mode)
    requires Run(ws, es) && j <= |es| && t in ws[0].d.timers
    requires Next(ws[0].d, EpochOf(ws[0].n), t, due, mode)
    requires Pending(ws[0].queue, t, ws[0].d.timers[t].period, due, mode)
    requires forall i :: 0 <= i < j && es[i].Send? ==> es[i].q.c.timer != t
    ensures var p := ws[0].d.timers[t].period;
            && Good(ws[j]) && ws[j].n >= ws[0].n && t in ws[j].d.timers && ws[j].d.timers[t] == ws[0].d.timers[t]
            && FiredBy(ws, j, t) == FiredBy(ws, 0, t) + Series(due, p, k)
            && (k > 0 ==> Later(due, p, k - 1) <= ws[j].n)
            && Next(ws[j].d, EpochOf(ws[j].n), t, Later(due, p, k), mode')
            && Pending(ws[j].queue, t, p, Later(due, p, k), mode')
            && (if mode == Stopped then k == 0 && mode' == Stopped
                else if ws[0].d.timers[t].autoReload then mode' != Stopped
                else k <= 1 && (mode' == Stopped <==> k == 1))
    decreases j
  {
    hide Next, Good, CanStep, Step, Series, Later, Of, Off, Pending, Fires, Sends;
    var p := ws[0].d.timers[t].period;
    if j == 0 {
      NoneFired(due, p);
      k, mode' := 0, mode;
      assert FiredBy(ws, 0, t) + [] == FiredBy(ws, 0, t);
    } else {
      var k0, mode0 := OncePerPeriod(ws, es, t, due, mode, j - 1);
      var w, e, due0 := ws[j - 1], es[j - 1], Later(due, p, k0);
      assert ws[j - 1 + 1] == Step(w, e);
      StepGood(w, e);
      var k1;
      k1, mode' := StepFires(w, e, t, due0, mode0);
      StepPending(w, e, t, due0, mode0, k1, mode');
      FiresMeans(w, e, t, due0, mode0, k1, mode');
      k := k0 + k1;
      LogGrows(w.log, ws[j].log, t);
      SeriesGlue(FiredBy(ws, 0, t), due, p, k0, k1);
    }
  }

  /** What `Fires` says of a step. */
  lemma FiresMeans(w: World, e: Event, t: nat, due: nat, mode: Mode, k: nat, mode': Mode)
    requires CanStep(w, e) && t in w.d.timers && w.log <= Step(w, e).log
    requires Fires(w.d, Step(w, e).d, EpochOf(Step(w, e).n), Step(w, e).n, t, due, mode, k, mode',
                   Step(w, e).log[|w.log|..], Sends(w, e))
    ensures var w', p := Step(w, e), w.d.timers[t].period;
            && t in w'.d.timers && w'.d.timers[t] == w.d.timers[t]
            && Of(w'.log[|w.log|..], t) == Series(due, p, k)
            && (k > 0 ==> Later(due, p, k - 1) <= w'.n)
            && Next(w'.d, EpochOf(w'.n), t, Later(due, p, k), mode')
            && (if w.d.timers[t].autoReload then mode != Stopped ==> mode' != Stopped
                else k <= 1 && (k == 1 ==> mode' == Stopped))
            && (mode == Stopped ==> k == 0 && mode' == Stopped)
            && (k == 0 ==> mode' == mode || (mode == Restarting && mode' == Listed))
  {
    hide Next, CanStep, Step, Series, Later, Of, Sends;
  }

  lemma QueueAfter(w: World, e: Event)
    requires CanStep(w, e)
    ensures Step(w, e).queue == (match e
                                 case Send(q) => w.queue + [q]
                                 case Obey(_) => w.queue[1..]
                                 case _ => w.queue) + RestartAll(Sends(w, e))
  {
    hide SampleSent, LateSent, ProcessSent, SampleLog, LateLog, Sampled, Removed, Expired, Obeyed, Good;
    if e.Send? {
      assert RestartAll([]) == [];
    }
  }

  lemma {:induction false} ForOthers(queue: seq<Sent>, q: Sent, t: nat)
    requires q.c.timer != t
    ensures For(queue + [q], t) == For(queue, t)
  {
    ForAppend(queue, [q], t);
    assert For([q], t) == [];
  }

  /** The queue holds what the timer waits for. */
  lemma StepPending(w: World, e: Event, t: nat, due: nat, mode: Mode, k: nat, mode': Mode)
    requires CanStep(w, e) && t in w.d.timers && Pending(w.queue, t, w.d.timers[t].period, due, mode)
    requires e.Send? ==> e.q.c.timer != t
    requires Fires(w.d, Step(w, e).d, EpochOf(Step(w, e).n), Step(w, e).n, t, due, mode, k, mode',
                   Step(w, e).log[|w.log|..], Sends(w, e))
    requires Next(w.d, EpochOf(w.n), t, due, mode)
    requires OwnCommand(w, e, t) ==> mode == Restarting && For(w.queue[1..], t) == [] && (k == 0 ==> mode' == Listed)
    requires !OwnCommand(w, e, t) && mode != Listed ==> k == 0 && mode' == mode
    ensures Pending(Step(w, e).queue, t, w.d.timers[t].period, Later(due, w.d.timers[t].period, k), mode')
  {
    hide Step, Sends, Next, Series, Later, Of, RestartAll, Good;
    QueueAfter(w, e);
    var p := w.d.timers[t].period;
    var left := match e case Send(q) => w.queue + [q] case Obey(_) => w.queue[1..] case _ => w.queue;
    if e.Send? {
      ForOthers(w.queue, e.q, t);
    }
    PendingOn(left, Sends(w, e), t, p, due, k, mode');
  }

  /** And no expiry is missed: when the head of the list has not expired, every listed timer is due later
      than now. */
  lemma NothingMissed(w: World, t: nat, due: nat)
    requires Good(w) && DueAt(w.d, EpochOf(w.n), t, due)
    requires w.d.current != [] ==> w.d.current[0].value > w.n % WRAP
    ensures due > w.n
  {
    ClockParts(w.n);
    DueEntry(w.d, EpochOf(w.n), t, due);
    var v := due - EpochOf(w.n) * WRAP;
    if due < (EpochOf(w.n) + 1) * WRAP {
      var i :| 0 <= i < |w.d.current| && w.d.current[i] == Entry(v, t);
    }
  }

  // ----- the log against what the daemon fires

  function AsTicks(log: seq<Entry>): (r: seq<Entry>)
    ensures |r| == |log|
  {
    seq(|log|, i requires 0 <= i < |log| => Entry(log[i].value % WRAP, log[i].task))
  }

  lemma {:induction false} DrainRange(list: seq<Entry>, timers: Timers)
    requires ListOk(list, timers) && Sane(timers)
    ensures forall i :: 0 <= i < |Drain(list, timers).0| ==> Drain(list, timers).0[i].value < WRAP
    ensures forall i :: 0 <= i < |Drain(list, timers).1| ==> Drain(list, timers).1[i].value < WRAP
    decreases Weight(list)
  {
    hide NextList, Weight;
    if list != [] {
      HeadIn(list);
      DrainRange(NextList(list, timers), timers);
    }
  }

  lemma ClockedTicks(epoch: nat, es: seq<Entry>)
    requires forall i :: 0 <= i < |es| ==> es[i].value < WRAP
    ensures AsTicks(Clocked(epoch, es)) == es
  {
    forall i | 0 <= i < |es|
      ensures (epoch * WRAP + es[i].value) % WRAP == es[i].value
    {
      RestTick(epoch, es[i].value);
    }
  }

  lemma SampledFired(d: Daemon, epoch: nat, tick: nat)
    requires Valid(d)
    ensures Sampled(d, tick).fired == d.fired + AsTicks(SampleLog(d, epoch, tick))
    ensures Sampled(d, tick).commands == d.commands + Restarts(AsTicks(SampleSent(d, epoch, tick)))
  {
    hide Drain, ListOk, Apart;
    if tick < d.lastTime {
      DrainRange(d.current, d.timers);
      ClockedTicks(epoch, Drain(d.current, d.timers).0);
      ClockedTicks(epoch, Drain(d.current, d.timers).1);
    } else {
      assert d.fired + [] == d.fired && d.commands + [] == d.commands;
    }
  }

  lemma TicksAppend(a: seq<Entry>, b: seq<Entry>)
    ensures AsTicks(a + b) == AsTicks(a) + AsTicks(b)
  {
  }

  /** What is logged is what the daemon fires, with the whole clock time instead of the tick; and what is put
      into the queue is what the daemon sends. */
  lemma StepLogs(w: World, e: Event)
    requires CanStep(w, e)
    ensures w.log <= Step(w, e).log
    ensures Step(w, e).d.fired == w.d.fired + AsTicks(Step(w, e).log[|w.log|..])
    ensures Step(w, e).d.commands == w.d.commands + Restarts(AsTicks(Sends(w, e)))
  {
    hide Drain, ListOk, Apart, Sampled, SampleLog, SampleSent, Decide, Without, Insert, SortedEntries, RestartAll, Restarts;
    var added := Step(w, e).log[|w.log|..];
    match e
    case Look(now) =>
      SampledFired(w.d, EpochOf(w.n), now % WRAP);
      assert added == SampleLog(w.d, EpochOf(w.n), now % WRAP);
    case Process =>
      Leaves(w.d.current, w.d.overflow, w.d.timers);
      RestTick(EpochOf(w.n), w.d.current[0].value);
      assert added == [Entry(EpochOf(w.n) * WRAP + w.d.current[0].value, w.d.current[0].task)];
      ExpiredSends(w);
    case Send(q) =>
      assert added == [] && AsTicks([]) == [] && Restarts([]) == [];
      assert w.d.fired + [] == w.d.fired && w.d.commands + [] == w.d.commands;
    case Obey(now) =>
      ObeyLogs(w, e);
  }

  lemma ExpiredSends(w: World)
    requires CanStep(w, Process) && w.d.current[0].task in w.d.timers
    ensures Expired(w.d, w.n % WRAP).commands == w.d.commands + Restarts(AsTicks(ProcessSent(w.d, w.n)))
  {
    hide Decide, Insert, SortedEntries;
    Leaves(w.d.current, w.d.overflow, w.d.timers);
    RestTick(EpochOf(w.n), w.d.current[0].value);
    assert w.d.commands + [] == w.d.commands;
  }

  lemma ObeyLogs(w: World, e: Event)
    requires CanStep(w, e) && e.Obey?
    ensures w.log <= Step(w, e).log
    ensures Step(w, e).d.fired == w.d.fired + AsTicks(Step(w, e).log[|w.log|..])
    ensures Step(w, e).d.commands == w.d.commands + Restarts(AsTicks(Sends(w, e)))
  {
    hide Sampled, SampleLog, SampleSent, LateSent, Without, Valid, Carried, LateLog, AsTicks, Restarts, RestartAll;
    HeadSendable(w);
    var q, tick := w.queue[0], e.now % WRAP;
    var d1 := Removed(w.d, q.c.timer);
    RemovedKeeps(w.d, q.c.timer);
    RemovedTimers(w.d, q.c.timer);
    SampledKeeps(d1, tick);
    ObeyedKeeps(w.d, q.c, tick);
    SampledFired(d1, EpochOf(w.n), tick);
    CarriedFired(Sampled(d1, tick), q, e.now);
    var log, late := SampleLog(d1, EpochOf(w.n), tick), LateLog(Sampled(d1, tick), q, e.now);
    assert Step(w, e).log[|w.log|..] == log + late;
    TicksAppend(log, late);
    assert w.d.fired + AsTicks(log) + AsTicks(late) == w.d.fired + (AsTicks(log) + AsTicks(late));
    var sent, lateSent := SampleSent(d1, EpochOf(w.n), tick), LateSent(Sampled(d1, tick), q, e.now);
    TicksAppend(sent, lateSent);
    RestartsAppend(AsTicks(sent), AsTicks(lateSent));
    assert w.d.commands + Restarts(AsTicks(sent)) + Restarts(AsTicks(lateSent))
        == w.d.commands + (Restarts(AsTicks(sent)) + Restarts(AsTicks(lateSent)));
  }

  lemma CarriedFired(d: Daemon, q: Sent, now: nat)
    requires q.c.timer in d.timers && (q.c.Start? ==> q.c.at == q.issued % WRAP)
    ensures Carried(d, q.c, now % WRAP).fired == d.fired + AsTicks(LateLog(d, q, now))
    ensures Carried(d, q.c, now % WRAP).commands == d.commands + Restarts(AsTicks(LateSent(d, q, now)))
  {
    hide Inserted;
    assert d.fired + [] == d.fired && d.commands + [] == d.commands;
    match q.c
    case Start(t, at) =>
      InsertedSame(d.(active := d.active + {t}), t, (at + d.timers[t].period) % WRAP, now % WRAP, at);
      StartTick(q.issued, d.timers[t].period);
    case Stop(t) =>
    case ChangePeriod(t, period) =>
      InsertedSame(d.(active := d.active + {t}, timers := d.timers[t := d.timers[t].(period := period)]), t,
                   (now % WRAP + period) % WRAP, now % WRAP, now % WRAP);
  }
}
