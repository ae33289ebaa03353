/** The timer daemon of timers.c: its lists, its clock sample and its command queue, updated in place. */
module TimerDaemon {
  import opened Ticks
  import opened TimerLists
  import opened TimerClock

  class Service {
    var currentTimerList: seq<Entry>
    var overflowTimerList: seq<Entry>
    var lastTime: nat
    var timers: Timers
    var active: set<nat>
    var commands: seq<Command>
    /** The expiries whose callback was made, with the tick each was due at. */
    var fired: seq<Entry>

    ghost function View(): Daemon
      reads this
    {
      Daemon(currentTimerList, overflowTimerList, lastTime, timers, active, commands, fired)
    }

    constructor (timers: Timers)
      requires Sane(timers)
      ensures Valid(View()) && View() == Daemon([], [], 0, timers, {}, [], [])
    {
      currentTimerList, overflowTimerList := [], [];
      this.timers := timers;
      lastTime, active := 0, {};
      commands, fired := [], [];
    }

    /** `prvInsertTimerInActiveList` */
    method InsertTimerInActiveList(t: nat, nextExpiryTime: nat, timeNow: nat, commandTime: nat) returns (processTimerNow: bool)
      requires t in timers
      modifies this`currentTimerList, this`overflowTimerList
      ensures (View(), processTimerNow) == Inserted(old(View()), t, nextExpiryTime, timeNow, commandTime)
    {
      hide Insert;
      processTimerNow := false;
      if nextExpiryTime <= timeNow {
        if (timeNow - commandTime) % WRAP >= timers[t].period {
          processTimerNow := true;
        } else {
          overflowTimerList := Insert(overflowTimerList, Entry(nextExpiryTime, t));
        }
      } else {
        if timeNow < commandTime && nextExpiryTime >= commandTime {
          processTimerNow := true;
        } else {
          currentTimerList := Insert(currentTimerList, Entry(nextExpiryTime, t));
        }
      }
    }

    /** `prvSwitchTimerLists`: the loop empties the list, though it puts timers back into it. */
    method SwitchTimerLists()
      requires Valid(View())
      modifies this`currentTimerList, this`overflowTimerList, this`commands, this`fired
      ensures currentTimerList == old(overflowTimerList) && overflowTimerList == []
      ensures fired == old(fired + Drain(currentTimerList, timers).0)
      ensures commands == old(commands + Restarts(Drain(currentTimerList, timers).1))
    {
      hide ListOk, Sane, Weight, NextList;
      ghost var all := Drain(currentTimerList, timers);
      while currentTimerList != []
        invariant ListOk(currentTimerList, timers) && overflowTimerList == old(overflowTimerList)
        invariant fired + Drain(currentTimerList, timers).0 == old(fired) + all.0
        invariant commands + Restarts(Drain(currentTimerList, timers).1) == old(commands) + Restarts(all.1)
        decreases Weight(currentTimerList)
      {
        SwitchHead();
      }
      currentTimerList, overflowTimerList := overflowTimerList, currentTimerList;
    }

    /** The body of that loop: the head is fired, and goes back on the list if its next expiry is in the old
        epoch too, or else has its restart sent. */
    method SwitchHead()
      requires currentTimerList != [] && ListOk(currentTimerList, timers) && Sane(timers)
      modifies this`currentTimerList, this`commands, this`fired
      ensures ListOk(currentTimerList, timers) && Weight(currentTimerList) < old(Weight(currentTimerList))
      ensures fired + Drain(currentTimerList, timers).0 == old(fired + Drain(currentTimerList, timers).0)
      ensures commands + Restarts(Drain(currentTimerList, timers).1) == old(commands + Restarts(Drain(currentTimerList, timers).1))
    {
      hide ListOk, Sane, Weight, NextList, Drain;
      ghost var list, rest := currentTimerList, Drain(NextList(currentTimerList, timers), timers);
      NextListIs(list, timers);
      DrainIs(list, timers);
      var head := currentTimerList[0];
      currentTimerList := currentTimerList[1..];
      fired := fired + [head];
      if timers[head.task].autoReload {
        var reloadTime := (head.value + timers[head.task].period) % WRAP;
        if reloadTime > head.value {
          currentTimerList := Insert(currentTimerList, Entry(reloadTime, head.task));
        } else {
          RestartsAppend([head], rest.1);
          commands := commands + [Start(head.task, head.value)];
        }
      }
      assert currentTimerList == NextList(list, timers);
    }

    /** `prvSampleTimeNow` */
    method SampleTimeNow(tick: nat) returns (timeNow: nat, switched: bool)
      requires Valid(View()) && tick < WRAP
      modifies this`currentTimerList, this`overflowTimerList, this`commands, this`fired, this`lastTime
      ensures View() == Sampled(old(View()), tick) && Valid(View())
      ensures timeNow == tick && (switched <==> tick < old(lastTime))
    {
      hide Drain, Sane, ListOk, Apart;
      SampledKeeps(View(), tick);
      timeNow := tick;
      switched := timeNow < lastTime;
      if switched {
        SwitchTimerLists();
      }
      lastTime := timeNow;
    }

    /** `prvProcessExpiredTimer` */
    method ProcessExpiredTimer(nextExpireTime: nat, timeNow: nat)
      requires Valid(View()) && currentTimerList != [] && nextExpireTime == currentTimerList[0].value
      modifies this`currentTimerList, this`overflowTimerList, this`commands, this`fired, this`active
      ensures old(currentTimerList[0].task in timers) && View() == Expired(old(View()), timeNow) && Valid(View())
    {
      hide Valid, Inserted;
      ExpiredKeeps(View(), timeNow);
      var head := currentTimerList[0];
      currentTimerList := currentTimerList[1..];
      fired := fired + [head];
      if timers[head.task].autoReload {
        var late := InsertTimerInActiveList(head.task, (nextExpireTime + timers[head.task].period) % WRAP, timeNow, nextExpireTime);
        if late {
          commands := commands + [Start(head.task, nextExpireTime)];
        }
      } else {
        active := active - {head.task};
      }
    }

    /** `prvProcessReceivedCommands`, for one command; tick is the count when the daemon looks. */
    method ProcessCommand(c: Command, tick: nat)
      requires Valid(View()) && c.timer in timers && tick < WRAP && (c.ChangePeriod? ==> 0 < c.period < WRAP)
      modifies this
      ensures Valid(Removed(old(View()), c.timer)) && View() == Obeyed(old(View()), c, tick) && Valid(View())
    {
      hide Valid, Inserted, Sampled, Without;
      ObeyedKeeps(View(), c, tick);
      var t := c.timer;
      currentTimerList := Without(currentTimerList, t);
      overflowTimerList := Without(overflowTimerList, t);
      SampledKeeps(View(), tick);
      var timeNow, _ := SampleTimeNow(tick);
      match c
      case Start(_, at) =>
        active := active + {t};
        var late := InsertTimerInActiveList(t, (at + timers[t].period) % WRAP, timeNow, at);
        if late {
          fired := fired + [Entry((at + timers[t].period) % WRAP, t)];
          if timers[t].autoReload {
            commands := commands + [Start(t, (at + timers[t].period) % WRAP)];
          }
        }
      case Stop(_) => active := active - {t};
      case ChangePeriod(_, period) =>
        active := active + {t};
        timers := timers[t := timers[t].(period := period)];
        var _ := InsertTimerInActiveList(t, (timeNow + period) % WRAP, timeNow, timeNow);
    }
  }

  lemma DrainIs(list: seq<Entry>, timers: Timers)
    requires ListOk(list, timers) && Sane(timers) && list != []
    ensures list[0].task in timers
    ensures var next := NextList(list, timers);
            && Drain(list, timers).0 == [list[0]] + Drain(next, timers).0
            && Drain(list, timers).1
               == (if timers[list[0].task].autoReload && !Reloads(list, timers) then [list[0]] else []) + Drain(next, timers).1
  {
    hide ListOk, Sane, Weight, NextList;
    assert [] + Drain(NextList(list, timers), timers).1 == Drain(NextList(list, timers), timers).1;
  }

  lemma NextListIs(list: seq<Entry>, timers: Timers)
    requires ListOk(list, timers) && Sane(timers) && list != []
    ensures list[0].task in timers && 0 < timers[list[0].task].period < WRAP && list[0].value < WRAP
    ensures var e := list[0];
            var reload := (e.value + timers[e.task].period) % WRAP;
            && (reload > e.value <==> e.value + timers[e.task].period < WRAP)
            && NextList(list, timers)
               == (if timers[e.task].autoReload && reload > e.value then Insert(list[1..], Entry(reload, e.task)) else list[1..])
  {
    TailOk(list, timers);
    TimerLists.Turn(list[0].value + timers[list[0].task].period);
  }
}
