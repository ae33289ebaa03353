/** The timed part of tasks.c as it is written: static counters and lists updated in place. */
module TaskClock {
  import opened Ticks
  import opened TickRuns

  class Clock {
    var tickCount: nat
    var numOfOverflows: nat
    var nextTaskUnblockTime: nat
    var delayedTaskList: seq<Entry>
    var overflowDelayedTaskList: seq<Entry>
    var schedulerSuspended: nat
    var pendedTicks: nat
    var pendingReadyList: seq<nat>
    /** The tasks made ready since the log was begun, in order. */
    ghost var readied: seq<nat>

    constructor (tick: nat)
      requires tick < WRAP
      ensures Sound(View()) && View() == Sched(Time(tick, 0, MAX_DELAY, [], []), 0, 0, []) && readied == []
    {
      tickCount, numOfOverflows, nextTaskUnblockTime := tick, 0, MAX_DELAY;
      delayedTaskList, overflowDelayedTaskList := [], [];
      schedulerSuspended, pendedTicks, pendingReadyList := 0, 0, [];
      readied := [];
    }

    ghost function TimeView(): Time
      reads this
    {
      Time(tickCount, numOfOverflows, nextTaskUnblockTime, delayedTaskList, overflowDelayedTaskList)
    }

    ghost function View(): Sched
      reads this
    {
      Sched(TimeView(), schedulerSuspended, pendedTicks, pendingReadyList)
    }

    /** `prvAddCurrentTaskToDelayedList`, for a task that does not wait for ever. */
    method AddCurrentTaskToDelayedList(task: nat, ticksToWait: nat)
      requires tickCount < WRAP && ticksToWait < WRAP
      modifies this`delayedTaskList, this`overflowDelayedTaskList, this`nextTaskUnblockTime
      ensures View() == Delay(old(View()), task, ticksToWait)
    {
      hide Insert;
      var timeToWake := (tickCount + ticksToWait) % WRAP;
      if timeToWake < tickCount {
        overflowDelayedTaskList := Insert(overflowDelayedTaskList, Entry(timeToWake, task));
      } else {
        delayedTaskList := Insert(delayedTaskList, Entry(timeToWake, task));
        if timeToWake < nextTaskUnblockTime {
          nextTaskUnblockTime := timeToWake;
        }
      }
    }

    /** `prvResetNextTaskUnblockTime` */
    method ResetNextTaskUnblockTime()
      modifies this`nextTaskUnblockTime
      ensures TimeView() == ResetNext(old(TimeView()))
    {
      nextTaskUnblockTime := if delayedTaskList == [] then MAX_DELAY else delayedTaskList[0].value;
    }

    /** `taskSWITCH_DELAYED_LISTS`; the assertion in it holds. */
    method SwitchDelayedLists()
      requires delayedTaskList == []
      modifies this
      ensures TimeView() == Switch(old(TimeView()))
      ensures View() == old(View()).(time := TimeView()) && readied == old(readied)
    {
      delayedTaskList, overflowDelayedTaskList := overflowDelayedTaskList, delayedTaskList;
      numOfOverflows := (numOfOverflows + 1) % WRAP;
      ResetNextTaskUnblockTime();
    }

    /** The loop of `xTaskIncrementTick`. */
    method UnblockExpired()
      modifies this
      ensures TimeView() == Expire(old(TimeView())).0
      ensures readied == old(readied) + Expire(old(TimeView())).1
      ensures View() == old(View()).(time := TimeView())
    {
      ghost var t := TimeView();
      while true
        invariant Expire(t).0 == Expire(TimeView()).0
        invariant old(readied) + Expire(t).1 == readied + Expire(TimeView()).1
        invariant View() == old(View()).(time := TimeView())
        decreases |delayedTaskList|
      {
        if delayedTaskList == [] {
          nextTaskUnblockTime := MAX_DELAY;
          break;
        }
        var head := delayedTaskList[0];
        if tickCount < head.value {
          nextTaskUnblockTime := head.value;
          break;
        }
        ghost var rest := Expire(TimeView().(delayed := delayedTaskList[1..])).1;
        Assoc(readied, [head.task], rest);
        delayedTaskList := delayedTaskList[1..];
        readied := readied + [head.task];
      }
    }

    /** `xTaskIncrementTick` while the scheduler is not suspended. */
    method ProcessTick()
      requires schedulerSuspended == 0 && Ok(TimeView())
      modifies this
      ensures TimeView() == Tick(old(TimeView())).0 && Ok(TimeView())
      ensures readied == old(readied) + Tick(old(TimeView())).1
      ensures View() == old(View()).(time := TimeView())
    {
      ghost var t := TimeView();
      TickExact(0, t);
      tickCount := (tickCount + 1) % WRAP;
      if tickCount == 0 {
        EmptyAtSwitch(t);
        SwitchDelayedLists();
      }
      if tickCount >= nextTaskUnblockTime {
        UnblockExpired();
      } else {
        assert readied + [] == readied;
      }
    }

    /** `xTaskIncrementTick` */
    method IncrementTick()
      requires Sound(View())
      modifies this
      ensures View() == TickIsr(old(View())).0 && Sound(View())
      ensures readied == old(readied) + TickIsr(old(View())).1
    {
      if schedulerSuspended == 0 {
        ProcessTick();
      } else {
        pendedTicks := pendedTicks + 1;
        assert readied + [] == readied;
      }
    }

    /** `vTaskSuspendAll` */
    method SuspendScheduler()
      modifies this`schedulerSuspended
      ensures View() == SuspendAll(old(View()))
    {
      schedulerSuspended := schedulerSuspended + 1;
    }

    /** `xTaskRemoveFromEventList`, for a task at the head of its event list. */
    method RemoveFromEventList(task: nat)
      modifies this
      ensures View() == Unblock(old(View()), task).0 && readied == old(readied) + Unblock(old(View()), task).1
    {
      if schedulerSuspended == 0 {
        delayedTaskList := Without(delayedTaskList, task);
        overflowDelayedTaskList := Without(overflowDelayedTaskList, task);
        readied := readied + [task];
      } else {
        pendingReadyList := pendingReadyList + [task];
        assert readied + [] == readied;
      }
    }

    /** The first loop of `xTaskResumeAll`: the tasks noted while the scheduler was suspended. */
    method ReadyPending()
      requires Ok(TimeView())
      modifies this
      ensures TimeView() == RemoveAll(old(TimeView()), old(pendingReadyList)) && Ok(TimeView())
      ensures View() == old(View()).(time := TimeView(), pending := [])
      ensures readied == old(readied) + old(pendingReadyList)
    {
      ghost var t, all := TimeView(), pendingReadyList;
      RemoveAllKeeps(0, t, all);
      while pendingReadyList != []
        invariant RemoveAll(t, all) == RemoveAll(TimeView(), pendingReadyList)
        invariant readied + pendingReadyList == old(readied) + all
        invariant View() == old(View()).(time := TimeView(), pending := pendingReadyList)
        decreases |pendingReadyList|
      {
        var task := pendingReadyList[0];
        delayedTaskList := Without(delayedTaskList, task);
        overflowDelayedTaskList := Without(overflowDelayedTaskList, task);
        Assoc(readied, [task], pendingReadyList[1..]);
        assert pendingReadyList == [task] + pendingReadyList[1..];
        pendingReadyList := pendingReadyList[1..];
        readied := readied + [task];
      }
    }

    /** The second loop: the ticks put off. */
    method ProcessPended()
      requires schedulerSuspended == 0 && Ok(TimeView())
      modifies this
      ensures TimeView() == Ticked(old(TimeView()), old(pendedTicks)).0 && Ok(TimeView())
      ensures View() == old(View()).(time := TimeView(), pended := 0)
      ensures readied == old(readied) + Ticked(old(TimeView()), old(pendedTicks)).1
    {
      ghost var t := TimeView();
      var pendedCounts := pendedTicks;
      ghost var done := 0;
      assert readied + [] == readied;
      while pendedCounts > 0
        invariant done + pendedCounts == old(pendedTicks)
        invariant Ok(TimeView()) && TimeView() == Ticked(t, done).0
        invariant View() == old(View()).(time := TimeView())
        invariant readied == old(readied) + Ticked(t, done).1
      {
        Assoc(old(readied), Ticked(t, done).1, Tick(TimeView()).1);
        ProcessTick();
        pendedCounts := pendedCounts - 1;
        done := done + 1;
      }
      pendedTicks := 0;
    }

    /** `xTaskResumeAll` */
    method ResumeScheduler()
      requires Sound(View()) && schedulerSuspended > 0
      modifies this
      ensures View() == ResumeAll(old(View())).0 && Sound(View())
      ensures readied == old(readied) + ResumeAll(old(View())).1
    {
      ghost var s := View();
      schedulerSuspended := schedulerSuspended - 1;
      if schedulerSuspended == 0 {
        ghost var before := readied;
        var any := pendingReadyList != [];
        ReadyPending();
        if any {
          ResetNextKeeps(0, TimeView());
          ResetNextTaskUnblockTime();
        }
        assert TimeView() == Cleared(s);
        Assoc(before, s.pending, Ticked(TimeView(), pendedTicks).1);
        ProcessPended();
      } else {
        assert readied + [] == readied;
      }
    }
  }
}
