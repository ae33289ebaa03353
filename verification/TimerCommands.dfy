/** What commands do to a timer, whatever became of it before: a stop silences it, a start and a change of
    period set it going from a time of their own. */
module TimerCommands {
  import opened Ticks
  import opened TimerLists
  import opened TimerClock
  import opened TimerRuns

  /** On neither list, not active, and so silent. */
  ghost predicate Quiet(d: Daemon, t: nat) {
    t in d.timers && t !in d.active && Off(d.current, t) && Off(d.overflow, t)
  }

  // ----- one command

  /** Taken off its list, the timer is passed over by the sample that goes with its command. */
  lemma OffSampled(w: World, e: Event, t: nat)
    requires CanStep(w, e) && OwnCommand(w, e, t)
    ensures var d0, tick := Removed(w.d, t), e.now % WRAP;
            && Valid(d0)
            && var d1 := Sampled(d0, tick);
               && Valid(d1) && At(d1, EpochOf(e.now), e.now)
               && d1.timers == w.d.timers && d1.active == w.d.active && t in d1.timers
               && Off(d1.current, t) && Off(d1.overflow, t)
               && Of(SampleLog(d0, EpochOf(w.n), tick), t) == [] && Of(SampleSent(d0, EpochOf(w.n), tick), t) == []
  {
    hide SortedEntries, Drain, ListOk, Apart, Valid, At, Sampled, Without, SampleLog, SampleSent, Off, Of, Series;
    HeadSendable(w);
    var d0 := Removed(w.d, t);
    RemovedKeeps(w.d, t);
    RemovedTime(w.d, t);
    OffNext(d0, EpochOf(w.n), t, 0);
    SameTime(w.d, d0, EpochOf(w.n), w.n);
    SampledKeeps(d0, e.now % WRAP);
    var k, mode' := SampleFires(d0, w.n, e.now, t, 0, Restarting);
    NoneFired(0, d0.timers[t].period);
  }

  lemma SameTime(d: Daemon, d': Daemon, epoch: nat, n: nat)
    requires At(d, epoch, n) && d'.lastTime == d.lastTime
    ensures At(d', epoch, n)
  {
  }

  /** A stop fires nothing of the timer and leaves it silent. */
  lemma StopObeyed(w: World, e: Event, t: nat)
    requires CanStep(w, e) && e.Obey? && w.queue[0].c == Stop(t)
    ensures w.log <= Step(w, e).log && Of(Step(w, e).log[|w.log|..], t) == [] && Quiet(Step(w, e).d, t)
  {
    hide Sampled, Removed, SampleLog, SampleSent, Of, Step, Sends, CanStep;
    OffSampled(w, e, t);
    ObeyParts(w, e);
    var log := SampleLog(Removed(w.d, t), EpochOf(w.n), e.now % WRAP);
    assert log + [] == log;
  }

  /** A change of period fires nothing of the timer and makes it due one new period from now. */
  lemma ChangeObeyed(w: World, e: Event, t: nat, p: nat)
    requires CanStep(w, e) && e.Obey? && w.queue[0].c == ChangePeriod(t, p)
    ensures var w' := Step(w, e);
            && w.log <= w'.log && Of(w'.log[|w.log|..], t) == [] && Of(Sends(w, e), t) == []
            && t in w.d.timers && t in w'.d.timers && w'.d.timers[t] == w.d.timers[t].(period := p)
            && t in w'.d.active && w'.n == e.now && DueAt(w'.d, EpochOf(w'.n), t, e.now + p)
  {
    hide Sampled, Removed, SampleLog, SampleSent, Of, Sends, Inserted, DueAt, Valid, Off, At;
    OffSampled(w, e, t);
    HeadSendable(w);
    var tick := e.now % WRAP;
    var d1 := Sampled(Removed(w.d, t), tick);
    var d2 := d1.(active := d1.active + {t}, timers := d1.timers[t := d1.timers[t].(period := p)]);
    ChangeValid(d1, t, p);
    SameTime(d1, d2, EpochOf(e.now), e.now);
    StartExact(d2, t, e.now, e.now);
    InsertedSame(d2, t, (tick + p) % WRAP, tick, tick);
    InsertedActive(d2, t, (tick + p) % WRAP, tick, tick);
    ChangeParts(w, e, t, p);
  }

  lemma ChangeValid(d: Daemon, t: nat, p: nat)
    requires Valid(d) && t in d.timers && 0 < p < WRAP
    ensures Valid(d.(active := d.active + {t}, timers := d.timers[t := d.timers[t].(period := p)]))
  {
    OtherPeriod(d.current, d.timers, t, d.timers[t].(period := p));
    OtherPeriod(d.overflow, d.timers, t, d.timers[t].(period := p));
    hide ListOk;
  }

  lemma InsertedActive(d: Daemon, u: nat, expiry: nat, now: nat, command: nat)
    requires u in d.timers
    ensures Inserted(d, u, expiry, now, command).0.active == d.active
  {
  }

  lemma ChangeParts(w: World, e: Event, t: nat, p: nat)
    requires CanStep(w, e) && e.Obey? && w.queue[0].c == ChangePeriod(t, p) && Valid(Removed(w.d, t))
    requires Of(SampleLog(Removed(w.d, t), EpochOf(w.n), e.now % WRAP), t) == []
    requires Of(SampleSent(Removed(w.d, t), EpochOf(w.n), e.now % WRAP), t) == []
    requires t in Sampled(Removed(w.d, t), e.now % WRAP).timers
    ensures var d1, tick := Sampled(Removed(w.d, t), e.now % WRAP), e.now % WRAP;
            var d2 := d1.(active := d1.active + {t}, timers := d1.timers[t := d1.timers[t].(period := p)]);
            && Step(w, e).d == Inserted(d2, t, (tick + p) % WRAP, tick, tick).0
            && w.log <= Step(w, e).log && Of(Step(w, e).log[|w.log|..], t) == [] && Of(Sends(w, e), t) == []
  {
    hide Sampled, Removed, SampleLog, SampleSent, Of, Step, Sends, CanStep, Inserted;
    ObeyParts(w, e);
    var log := SampleLog(Removed(w.d, t), EpochOf(w.n), e.now % WRAP);
    var sent := SampleSent(Removed(w.d, t), EpochOf(w.n), e.now % WRAP);
    assert log + [] == log && sent + [] == sent;
  }

  // ----- the flag

  lemma SampledActive(d: Daemon, tick: nat)
    requires Valid(d)
    ensures Sampled(d, tick).active == d.active
  {
  }

  lemma ExpiredActive(d: Daemon, now: nat)
    requires d.current != [] && d.current[0].task in d.timers
    ensures Expired(d, now).active == if d.timers[d.current[0].task].autoReload then d.active else d.active - {d.current[0].task}
  {
  }

  lemma CarriedActive(d: Daemon, c: Command, tick: nat)
    requires c.timer in d.timers
    ensures Carried(d, c, tick).active == if c.Stop? then d.active - {c.timer} else d.active + {c.timer}
  {
  }

  /** A start and a change of period make a timer active, a stop makes it dormant, and so does the expiry of a
      one-shot timer at the head of its list; nothing else changes whether it is. */
  lemma FlagAfter(w: World, e: Event, t: nat)
    requires CanStep(w, e)
    ensures t in Step(w, e).d.active <==>
              if e.Obey? && w.queue[0].c.timer == t then !w.queue[0].c.Stop?
              else t in w.d.active &&
                   !(e.Process? && w.d.current[0].task == t && t in w.d.timers && !w.d.timers[t].autoReload)
  {
    hide Sampled, Expired, Carried, SampleLog, SampleSent, LateLog, LateSent, ProcessSent, RestartAll, Valid;
    match e
    case Look(now) =>
      SampledActive(w.d, now % WRAP);
    case Process =>
      ExpiredKeeps(w.d, w.n % WRAP);
      ExpiredActive(w.d, w.n % WRAP);
    case Send(_) =>
    case Obey(now) =>
      var c := w.queue[0].c;
      HeadSendable(w);
      ObeyedKeeps(w.d, c, now % WRAP);
      RemovedTimers(w.d, c.timer);
      SampledKeeps(Removed(w.d, c.timer), now % WRAP);
      CarriedActive(Sampled(Removed(w.d, c.timer), now % WRAP), c, now % WRAP);
  }

  /** A timer on a list is active. */
  ghost predicate ListedActive(d: Daemon, t: nat) {
    (Off(d.current, t) && Off(d.overflow, t)) || t in d.active
  }

  // ----- stopped

  /** Nothing but a start or a change of period of its own can wake a silent timer. */
  lemma QuietStep(w: World, e: Event, t: nat)
    requires CanStep(w, e) && Quiet(w.d, t) && !WokenAt(w, e, t)
    ensures w.log <= Step(w, e).log && Of(Step(w, e).log[|w.log|..], t) == [] && Quiet(Step(w, e).d, t)
  {
    hide Step, CanStep;
    if OwnCommand(w, e, t) {
      StopObeyed(w, e, t);
    } else {
      OffNext(w.d, EpochOf(w.n), t, 0);
      hide Next, Of, Series, Sends;
      var k, mode' := OthersFire(w, e, t, 0, Restarting);
      FiresMeans(w, e, t, 0, Restarting, k, mode');
      NoneFired(0, w.d.timers[t].period);
      FlagAfter(w, e, t);
      NextOff(Step(w, e).d, EpochOf(Step(w, e).n), t, Later(0, w.d.timers[t].period, k), mode');
    }
  }

  lemma NextOff(d: Daemon, epoch: nat, t: nat, due: nat, mode: Mode)
    requires Next(d, epoch, t, due, mode) && mode != Listed
    ensures Off(d.current, t) && Off(d.overflow, t)
  {
  }

  /** A start or a change of period of the timer is obeyed. */
  ghost predicate WokenAt(w: World, e: Event, t: nat) {
    CanStep(w, e) && OwnCommand(w, e, t) && !w.queue[0].c.Stop?
  }

  /** Stopped for good. From the execution of a stop on, until a start or a change of period of the timer is
      obeyed, it is on neither list, not active, and never fired. */
  lemma {:induction false} AfterStop(ws: seq<World>, es: seq<Event>, t: nat, i: nat, j: nat)
    requires Run(ws, es) && i < j <= |es|
    requires es[i].Obey? && ws[i].queue != [] && ws[i].queue[0].c == Stop(t)
    requires forall k :: i < k < j ==> !WokenAt(ws[k], es[k], t)
    ensures FiredBy(ws, j, t) == FiredBy(ws, i, t) && Quiet(ws[j].d, t)
    decreases j
  {
    hide Step, Of;
    var w, e := ws[j - 1], es[j - 1];
    assert CanStep(w, e) && ws[j - 1 + 1] == Step(w, e);
    if j == i + 1 {
      StopObeyed(w, e, t);
    } else {
      AfterStop(ws, es, t, i, j - 1);
      QuietStep(w, e, t);
    }
    LogGrows(w.log, ws[j].log, t);
    assert FiredBy(ws, j - 1, t) + [] == FiredBy(ws, j - 1, t);
  }

  /** The other commands wake it: the timer is active, and on a list unless it was fired at once. */
  lemma StartObeyed(w: World, e: Event, t: nat)
    requires CanStep(w, e) && OwnCommand(w, e, t) && !w.queue[0].c.Stop?
    ensures var w' := Step(w, e);
            && t in w'.d.active && w.log <= w'.log
            && (Of(w'.log[|w.log|..], t) != [] || exists due: nat :: DueAt(w'.d, EpochOf(w'.n), t, due))
  {
    hide Step, Of, Series, Sends, DueAt, CanStep;
    FlagAfter(w, e, t);
    OwnKnown(w, e, t);
    if w.queue[0].c.Start? {
      var due := w.queue[0].issued + w.d.timers[t].period;
      var k, mode' := OwnObeyed(w, e, t, due);
      StepGood(w, e);
      ObeyedAt(w, e);
      FiresMeans(w, e, t, due, Restarting, k, mode');
      NoneFired(due, w.d.timers[t].period);
      SeriesSome(due, w.d.timers[t].period, k);
      if k == 0 {
        DueOf(Step(w, e).d, EpochOf(Step(w, e).n), t, due);
      }
    } else {
      ChangeObeyed(w, e, t, w.queue[0].c.period);
    }
  }

  lemma OwnKnown(w: World, e: Event, t: nat)
    requires CanStep(w, e) && OwnCommand(w, e, t)
    ensures t in w.d.timers && w.queue != []
  {
    HeadSendable(w);
  }

  lemma SeriesSome(due: nat, period: nat, k: nat)
    ensures k > 0 ==> Series(due, period, k) != []
  {
  }

  lemma ObeyedAt(w: World, e: Event)
    requires CanStep(w, e) && e.Obey?
    ensures Step(w, e).n == e.now
  {
    hide Sampled, Carried, SampleLog, SampleSent, LateLog, LateSent, RestartAll, Valid, Removed;
  }

  /** And only until then: whether a stop holds depends on nothing but the commands obeyed after it. */
  lemma StopHoldsIff(ws: seq<World>, es: seq<Event>, t: nat, i: nat, j: nat)
    requires Run(ws, es) && i < j <= |es|
    requires es[i].Obey? && ws[i].queue != [] && ws[i].queue[0].c == Stop(t)
    ensures (forall k :: i < k <= j ==> Quiet(ws[k].d, t)) <==> (forall k :: i < k < j ==> !WokenAt(ws[k], es[k], t))
  {
    hide Step, CanStep, Quiet, WokenAt;
    if forall k :: i < k < j ==> !WokenAt(ws[k], es[k], t) {
      forall k | i < k <= j
        ensures Quiet(ws[k].d, t)
      {
        AfterStop(ws, es, t, i, k);
      }
    } else {
      var k :| i < k < j && WokenAt(ws[k], es[k], t);
      assert ws[k + 1] == Step(ws[k], es[k]);
      Woken(ws[k], es[k], t);
    }
  }

  lemma Woken(w: World, e: Event, t: nat)
    requires CanStep(w, e) && WokenAt(w, e, t)
    ensures !Quiet(Step(w, e).d, t)
  {
    hide Step;
    StartObeyed(w, e, t);
  }

  // ----- a stop that does not hold

  /** The daemon looks fifteen ticks late, with a stop in its queue, and finds that the timer's second expiry is
      over as well; so it sends itself a restart, which is obeyed after the stop. */
  function LateWorld(n: nat, current: seq<Entry>, active: set<nat>, sent: seq<Command>, fired: seq<Entry>,
                     queue: seq<Sent>): World
  {
    World(Daemon(current, [], n, map[1 := Kind(10, true)], active, sent, fired), n, fired, queue)
  }

  const STOP := Sent(Stop(1), 3)
  const FIRST := Sent(Start(1, 5), 5)
  const SECOND := Sent(Start(1, 15), 15)

  lemma LateGood(n: nat, current: seq<Entry>, active: set<nat>, sent: seq<Command>, fired: seq<Entry>, queue: seq<Sent>)
    requires n < WRAP && (current == [] || (|current| == 1 && current[0].task == 1 && current[0].value < WRAP))
    requires forall i :: 0 <= i < |queue| ==> queue[i] == STOP || queue[i] == FIRST || queue[i] == SECOND
    ensures Good(LateWorld(n, current, active, sent, fired, queue)) && EpochOf(n) == 0
  {
    assert n / WRAP == 0 && 5 % WRAP == 5 && 15 % WRAP == 15;
  }

  lemma LateLook()
    ensures var w, w' := LateWorld(3, [Entry(5, 1)], {1}, [], [], [STOP]), LateWorld(20, [Entry(5, 1)], {1}, [], [], [STOP]);
            CanStep(w, Look(20)) && w' == Step(w, Look(20))
  {
    LateGood(3, [Entry(5, 1)], {1}, [], [], [STOP]);
    hide Good;
  }

  lemma LateProcess()
    ensures var w := LateWorld(20, [Entry(5, 1)], {1}, [], [], [STOP]);
            var w' := LateWorld(20, [], {1}, [Start(1, 5)], [Entry(5, 1)], [STOP, FIRST]);
            CanStep(w, Process) && w' == Step(w, Process)
  {
    LateGood(20, [Entry(5, 1)], {1}, [], [], [STOP]);
    hide Good, Insert;
    var w := LateWorld(20, [Entry(5, 1)], {1}, [], [], [STOP]);
    assert ProcessSent(w.d, 20) == [Entry(5, 1)];
    assert RestartAll([Entry(5, 1)]) == [FIRST];
  }

  lemma NothingListed(d: Daemon, tick: nat)
    requires d.current == [] && d.overflow == [] && d.lastTime == tick < WRAP && Sane(d.timers)
    ensures forall t :: Removed(d, t) == d
    ensures Valid(d) && Sampled(d, tick) == d
    ensures forall epoch :: SampleLog(d, epoch, tick) == [] && SampleSent(d, epoch, tick) == []
  {
  }

  lemma LateStop()
    ensures var w := LateWorld(20, [], {1}, [Start(1, 5)], [Entry(5, 1)], [STOP, FIRST]);
            var w' := LateWorld(20, [], {}, [Start(1, 5)], [Entry(5, 1)], [FIRST]);
            CanStep(w, Obey(20)) && w' == Step(w, Obey(20))
  {
    LateGood(20, [], {1}, [Start(1, 5)], [Entry(5, 1)], [STOP, FIRST]);
    NothingListed(Daemon([], [], 20, map[1 := Kind(10, true)], {1}, [Start(1, 5)], [Entry(5, 1)]), 20);
    hide Good, Insert, Removed, Sampled, SampleLog, SampleSent;
    assert RestartAll([]) == [];
  }

  lemma LateFirst()
    ensures var w := LateWorld(20, [], {}, [Start(1, 5)], [Entry(5, 1)], [FIRST]);
            var w' := LateWorld(20, [], {1}, [Start(1, 5), Start(1, 15)], [Entry(5, 1), Entry(15, 1)], [SECOND]);
            CanStep(w, Obey(20)) && w' == Step(w, Obey(20))
  {
    LateGood(20, [], {}, [Start(1, 5)], [Entry(5, 1)], [FIRST]);
    NothingListed(Daemon([], [], 20, map[1 := Kind(10, true)], {}, [Start(1, 5)], [Entry(5, 1)]), 20);
    hide Good, Insert, Removed, Sampled, SampleLog, SampleSent;
    assert RestartAll([Entry(15, 1)]) == [SECOND];
  }

  lemma LateEnds()
    ensures var w := LateWorld(20, [], {}, [Start(1, 5)], [Entry(5, 1)], [FIRST]); Quiet(w.d, 1) && Of(w.log, 1) == [5]
    ensures LateWorld(20, [], {1}, [Start(1, 5)], [Entry(5, 1)], [STOP, FIRST]).queue == [STOP, FIRST]
    ensures LateWorld(3, [Entry(5, 1)], {1}, [], [], [STOP]).queue == [STOP]
    ensures var w := LateWorld(20, [], {1}, [Start(1, 5), Start(1, 15)], [Entry(5, 1), Entry(15, 1)], [SECOND]);
            Of(w.log, 1) == [5, 15] && w.queue == [SECOND] && 1 in w.d.active
  {
    OfCons(Entry(5, 1), [Entry(15, 1)], 1);
    OneOf(5, 1);
    OneOf(15, 1);
    assert [Entry(5, 1), Entry(15, 1)] == [Entry(5, 1)] + [Entry(15, 1)];
  }

  /** Not every stop is the last word: here the timer is fired again after it was stopped, is active, and has
      its next restart sent, though nobody but the daemon has sent a start. */
  lemma StopOvertaken() returns (w0: World, w1: World, w2: World, w3: World, w4: World)
    ensures CanStep(w0, Look(20)) && w1 == Step(w0, Look(20)) && CanStep(w1, Process) && w2 == Step(w1, Process)
    ensures CanStep(w2, Obey(20)) && w3 == Step(w2, Obey(20)) && CanStep(w3, Obey(20)) && w4 == Step(w3, Obey(20))
    ensures w0.queue == [STOP] && w2.queue == [STOP, FIRST] && w4.queue == [SECOND]
    ensures Quiet(w3.d, 1) && Of(w3.log, 1) == [5] && Of(w4.log, 1) == [5, 15] && 1 in w4.d.active
  {
    hide Step, CanStep, Good, Of, Quiet, LateWorld;
    w0 := LateWorld(3, [Entry(5, 1)], {1}, [], [], [STOP]);
    w1 := LateWorld(20, [Entry(5, 1)], {1}, [], [], [STOP]);
    w2 := LateWorld(20, [], {1}, [Start(1, 5)], [Entry(5, 1)], [STOP, FIRST]);
    w3 := LateWorld(20, [], {}, [Start(1, 5)], [Entry(5, 1)], [FIRST]);
    w4 := LateWorld(20, [], {1}, [Start(1, 5), Start(1, 15)], [Entry(5, 1), Entry(15, 1)], [SECOND]);
    LateLook();
    LateProcess();
    LateStop();
    LateFirst();
    LateEnds();
  }

  // ----- the flag against the lists

  /** A timer on a list is active, in every run that begins so. */
  lemma {:induction false} ListedIsActive(ws: seq<World>, es: seq<Event>, t: nat, k: nat)
    requires Run(ws, es) && k <= |es| && t in ws[0].d.timers && ListedActive(ws[0].d, t)
    ensures t in ws[k].d.timers && ListedActive(ws[k].d, t)
  {
    hide Step, CanStep, ListedActive;
    if k > 0 {
      ListedIsActive(ws, es, t, k - 1);
      assert CanStep(ws[k - 1], es[k - 1]) && ws[k - 1 + 1] == Step(ws[k - 1], es[k - 1]);
      StepListedActive(ws[k - 1], es[k - 1], t);
    }
  }

  lemma StepListedActive(w: World, e: Event, t: nat)
    requires CanStep(w, e) && t in w.d.timers && ListedActive(w.d, t)
    ensures t in Step(w, e).d.timers && ListedActive(Step(w, e).d, t)
  {
    hide Step, Of, Series, Sends, SortedEntries, Off, Next, Good;
    FlagAfter(w, e, t);
    KnownStays(w, e, t);
    if OwnCommand(w, e, t) {
      if w.queue[0].c.Stop? {
        StopObeyed(w, e, t);
      }
    } else if t !in w.d.active {
      OffNext(w.d, EpochOf(w.n), t, 0);
      var k, mode' := OthersFire(w, e, t, 0, Restarting);
      FiresMeans(w, e, t, 0, Restarting, k, mode');
      NextOff(Step(w, e).d, EpochOf(Step(w, e).n), t, Later(0, w.d.timers[t].period, k), mode');
    } else if e.Process? && w.d.current[0].task == t && !w.d.timers[t].autoReload {
      OneShotGone(w, t);
    }
  }

  lemma KnownStays(w: World, e: Event, t: nat)
    requires CanStep(w, e) && t in w.d.timers
    ensures t in Step(w, e).d.timers
  {
    hide Sampled, Expired, Carried, SampleLog, SampleSent, LateLog, LateSent, ProcessSent, RestartAll, Valid;
    match e
    case Look(now) =>
      SampledKeeps(w.d, now % WRAP);
    case Process =>
      ExpiredKeeps(w.d, w.n % WRAP);
      ExpiredTime(w.d, w.n % WRAP);
    case Send(_) =>
    case Obey(now) =>
      var c := w.queue[0].c;
      HeadSendable(w);
      ObeyedKeeps(w.d, c, now % WRAP);
      RemovedTimers(w.d, c.timer);
      SampledKeeps(Removed(w.d, c.timer), now % WRAP);
      CarriedTime(Sampled(Removed(w.d, c.timer), now % WRAP), c, now % WRAP);
  }

  lemma OneShotGone(w: World, t: nat)
    requires CanStep(w, Process) && w.d.current[0].task == t && t in w.d.timers && !w.d.timers[t].autoReload
    ensures Off(Step(w, Process).d.current, t) && Off(Step(w, Process).d.overflow, t)
  {
    hide Off;
    ExpiredKeeps(w.d, w.n % WRAP);
    Shorter(w.d, w.d.current[0]);
  }

  /** When a listed timer is due, or that it is on no list. */
  lemma WhenDue(d: Daemon, epoch: nat, t: nat) returns (due: nat, mode: Mode)
    ensures Next(d, epoch, t, due, mode)
    ensures mode == Restarting || (mode == Listed && !(Off(d.current, t) && Off(d.overflow, t)))
  {
    if e :| e in d.current && e.task == t {
      due, mode := Due(epoch, false, e), Listed;
    } else if e :| e in d.overflow && e.task == t {
      due, mode := Due(epoch, true, e), Listed;
    } else {
      due, mode := 0, Restarting;
    }
  }

  /** The documentation of `xTimerIsTimerActive` calls an expired one-shot timer dormant. Whatever fires it, it
      is on no list afterwards; but its flag is cleared iff it expired at the head of its list, not when it was
      fired at a switch of the lists or by a start that came too late. */
  lemma OneShotDormantIff(w: World, e: Event, t: nat)
    requires CanStep(w, e) && t in w.d.timers && !w.d.timers[t].autoReload && ListedActive(w.d, t)
    requires w.log <= Step(w, e).log && Of(Step(w, e).log[|w.log|..], t) != []
    ensures Off(Step(w, e).d.current, t) && Off(Step(w, e).d.overflow, t)
    ensures t !in Step(w, e).d.active <==> e.Process?
  {
    hide Step, Of, Series, Sends, SortedEntries, Off, CanStep;
    FlagAfter(w, e, t);
    if OwnCommand(w, e, t) {
      OwnOneShot(w, e, t);
    } else {
      var due, mode := WhenDue(w.d, EpochOf(w.n), t);
      hide Next, DueAt;
      var k, mode' := OthersFire(w, e, t, due, mode);
      FiresMeans(w, e, t, due, mode, k, mode');
      NoneFired(due, w.d.timers[t].period);
      NextOff(Step(w, e).d, EpochOf(Step(w, e).n), t, Later(due, w.d.timers[t].period, k), mode');
      if e.Process? {
        FiredAtHead(w, e, t);
      }
    }
  }

  /** A one-shot timer that was told to start fifteen ticks ago, with a period of ten: it is fired at once, is
      on no list, and says that it is active. */
  lemma OneShotStaysActive()
    ensures var w := World(Daemon([], [], 20, map[1 := Kind(10, false)], {}, [], []), 20, [], [FIRST]);
            && CanStep(w, Obey(20))
            && var w' := Step(w, Obey(20));
               w'.log == [Entry(15, 1)] && w'.queue == [] && w'.d.current == [] && w'.d.overflow == [] && 1 in w'.d.active
  {
    var w := World(Daemon([], [], 20, map[1 := Kind(10, false)], {}, [], []), 20, [], [FIRST]);
    NothingListed(w.d, 20);
    assert Good(w) by {
      assert 20 / WRAP == 0 && 5 % WRAP == 5;
    }
    hide Good, Insert, Removed, Sampled, SampleLog, SampleSent;
  }

  lemma FiredAtHead(w: World, e: Event, t: nat)
    requires CanStep(w, e) && e.Process? && w.log <= Step(w, e).log && Of(Step(w, e).log[|w.log|..], t) != []
    ensures w.d.current[0].task == t
  {
    hide Of;
    ExpiredKeeps(w.d, w.n % WRAP);
    var fired := Entry(EpochOf(w.n) * WRAP + w.d.current[0].value, w.d.current[0].task);
    assert Step(w, e).log[|w.log|..] == [fired];
    if fired.task != t {
      NotOf(fired, t);
      assert false;
    }
  }

  /** Its own command fires a timer only if it is a start, and too late. */
  lemma OwnOneShot(w: World, e: Event, t: nat)
    requires CanStep(w, e) && OwnCommand(w, e, t) && t in w.d.timers && !w.d.timers[t].autoReload
    requires w.log <= Step(w, e).log && Of(Step(w, e).log[|w.log|..], t) != []
    ensures w.queue[0].c.Start? && Off(Step(w, e).d.current, t) && Off(Step(w, e).d.overflow, t)
  {
    hide Step, Of, Series, Sends, Off, Next;
    match w.queue[0].c
    case Start(_, _) =>
      var due := w.queue[0].issued + w.d.timers[t].period;
      var k, mode' := OwnObeyed(w, e, t, due);
      ObeyedAt(w, e);
      FiresMeans(w, e, t, due, Restarting, k, mode');
      NoneFired(due, w.d.timers[t].period);
      NextOff(Step(w, e).d, EpochOf(Step(w, e).n), t, Later(due, w.d.timers[t].period, k), mode');
    case Stop(_) =>
      StopObeyed(w, e, t);
      assert false;
    case ChangePeriod(_, p) =>
      ChangeObeyed(w, e, t, p);
      assert false;
  }

  // ----- started, or given a new period

  lemma RunFrom(ws: seq<World>, es: seq<Event>, i: nat)
    requires Run(ws, es) && i < |es|
    ensures CanStep(ws[i], es[i]) && ws[i + 1] == Step(ws[i], es[i]) && Run(ws[i + 1..], es[i + 1..])
  {
    hide Step;
    assert CanStep(ws[i], es[i]) && ws[i + 1] == Step(ws[i], es[i]);
    StepGood(ws[i], es[i]);
    var ws', es' := ws[i + 1..], es[i + 1..];
    forall k | 0 <= k < |es'|
      ensures CanStep(ws'[k], es'[k]) && ws'[k + 1] == Step(ws'[k], es'[k])
    {
      assert ws'[k] == ws[i + 1 + k] && es'[k] == es[i + 1 + k] && ws'[k + 1] == ws[i + 1 + k + 1];
    }
  }

  /** The rest of a run in which nobody else sends a command for the timer. */
  lemma Onwards(ws: seq<World>, es: seq<Event>, t: nat, i: nat, j: nat, due: nat, mode: Mode) returns (k: nat, mode': Mode)
    requires Run(ws, es) && i < j <= |es| && t in ws[i + 1].d.timers
    requires forall m :: i < m < j && es[m].Send? ==> es[m].q.c.timer != t
    requires Next(ws[i + 1].d, EpochOf(ws[i + 1].n), t, due, mode)
    requires Pending(ws[i + 1].queue, t, ws[i + 1].d.timers[t].period, due, mode)
    ensures var p := ws[i + 1].d.timers[t].period;
            && ws[j].n >= ws[i + 1].n && FiredBy(ws, j, t) == FiredBy(ws, i + 1, t) + Series(due, p, k)
            && (k > 0 ==> Later(due, p, k - 1) <= ws[j].n)
            && Next(ws[j].d, EpochOf(ws[j].n), t, Later(due, p, k), mode')
            && (if mode == Stopped then k == 0 && mode' == Stopped
                else if ws[i + 1].d.timers[t].autoReload then mode' != Stopped
                else k <= 1 && (mode' == Stopped <==> k == 1))
  {
    hide Run, Next, Pending, Series, Later, Of;
    RunFrom(ws, es, i);
    SameLengths(ws, es);
    var ws', es' := ws[i + 1..], es[i + 1..];
    assert ws'[0] == ws[i + 1] && ws'[j - i - 1] == ws[j];
    k, mode' := OncePerPeriod(ws', es', t, due, mode, j - i - 1);
  }

  lemma SameLengths(ws: seq<World>, es: seq<Event>)
    requires Run(ws, es)
    ensures |ws| == |es| + 1
  {
  }

  /** A change of period obeyed at clock time n makes the timer due one new period later; from then on it is
      fired at n plus the new period, n plus twice the new period and so on, none missing and none before its
      time, whatever it was set to before. */
  lemma AfterChange(ws: seq<World>, es: seq<Event>, t: nat, p: nat, i: nat, j: nat) returns (k: nat, mode': Mode)
    requires Run(ws, es) && i < j <= |es|
    requires es[i].Obey? && ws[i].queue != [] && ws[i].queue[0].c == ChangePeriod(t, p)
    requires For(ws[i].queue[1..], t) == [] && forall m :: i < m < j && es[m].Send? ==> es[m].q.c.timer != t
    ensures DueAt(ws[i + 1].d, EpochOf(ws[i + 1].n), t, es[i].now + p) && t in ws[i + 1].d.timers
    ensures FiredBy(ws, j, t) == FiredBy(ws, i, t) + Series(es[i].now + p, p, k)
    ensures k > 0 ==> Later(es[i].now + p, p, k - 1) <= ws[j].n
    ensures Next(ws[j].d, EpochOf(ws[j].n), t, Later(es[i].now + p, p, k), mode')
    ensures if ws[i + 1].d.timers[t].autoReload then mode' != Stopped else k <= 1 && (mode' == Stopped <==> k == 1)
  {
    hide Step, CanStep, Series, Later, Of, Sends, For, RestartAll, DueAt;
    RunFrom(ws, es, i);
    SameLengths(ws, es);
    hide Run;
    ChangeObeyed(ws[i], es[i], t, p);
    QueueAfter(ws[i], es[i]);
    ForAppend(ws[i].queue[1..], RestartAll(Sends(ws[i], es[i])), t);
    ForRestarts(Sends(ws[i], es[i]), t);
    k, mode' := Onwards(ws, es, t, i, j, es[i].now + p, Listed);
    LogGrows(ws[i].log, ws[i + 1].log, t);
    assert FiredBy(ws, i, t) + [] == FiredBy(ws, i, t);
  }

  /** A start that names clock time c does the same from c on: the timer is fired at c plus its period and so
      on, whether it was running before or not. */
  lemma AfterStart(ws: seq<World>, es: seq<Event>, t: nat, i: nat, j: nat) returns (k: nat, mode': Mode)
    requires Run(ws, es) && i < j <= |es|
    requires es[i].Obey? && ws[i].queue != [] && ws[i].queue[0].c.Start? && ws[i].queue[0].c.timer == t
    requires For(ws[i].queue[1..], t) == [] && forall m :: i < m < j && es[m].Send? ==> es[m].q.c.timer != t
    ensures t in ws[i].d.timers
    ensures var p := ws[i].d.timers[t].period;
            var due := ws[i].queue[0].issued + p;
            && FiredBy(ws, j, t) == FiredBy(ws, i, t) + Series(due, p, k)
            && (k > 0 ==> Later(due, p, k - 1) <= ws[j].n)
            && Next(ws[j].d, EpochOf(ws[j].n), t, Later(due, p, k), mode')
            && (if ws[i].d.timers[t].autoReload then mode' != Stopped else k <= 1 && (mode' == Stopped <==> k == 1))
  {
    hide Step, CanStep, Series, Later, Of, Sends, For, RestartAll, Next, Pending;
    RunFrom(ws, es, i);
    SameLengths(ws, es);
    var w, e := ws[i], es[i];
    OwnKnown(w, e, t);
    var p := w.d.timers[t].period;
    var due := w.queue[0].issued + p;
    var k1, mode1 := OwnObeyed(w, e, t, due);
    ObeyedAt(w, e);
    StepGood(w, e);
    FiresMeans(w, e, t, due, Restarting, k1, mode1);
    StartPending(w, e, t, due, k1, mode1);
    var k2;
    k2, mode' := Onwards(ws, es, t, i, j, Later(due, p, k1), mode1);
    k := k1 + k2;
    LogGrows(w.log, ws[i + 1].log, t);
    SeriesGlue(FiredBy(ws, i, t), due, p, k1, k2);
  }

  lemma StartPending(w: World, e: Event, t: nat, due: nat, k: nat, mode': Mode)
    requires CanStep(w, e) && e.Obey? && t in w.d.timers && For(w.queue[1..], t) == []
    requires Fires(w.d, Step(w, e).d, EpochOf(e.now), e.now, t, due, Restarting, k, mode', Step(w, e).log[|w.log|..], Sends(w, e))
    requires w.log <= Step(w, e).log && (k == 0 ==> mode' == Listed)
    ensures Pending(Step(w, e).queue, t, w.d.timers[t].period, Later(due, w.d.timers[t].period, k), mode')
  {
    hide Step, Sends, Next, Series, Later, Of, RestartAll, Good, For;
    QueueAfter(w, e);
    PendingOn(w.queue[1..], Sends(w, e), t, w.d.timers[t].period, due, k, mode');
  }
}
