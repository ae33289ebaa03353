/** The lists, the ready bitmap and the task control blocks of tasks.c, updated in place. */
module TaskTable {
  import opened Rings
  import opened TaskLists

  class Table {
    const lists: array<Ring<nat>>
    const bits: array<bool>
    var delayed: nat
    var container: map<nat, nat>
    var priority: map<nat, nat>
    var basePriority: map<nat, nat>
    var mutexesHeld: map<nat, nat>
    var current: nat
    var schedulerSuspended: nat
    var yieldPending: bool

    ghost const Repr: set<object> := {this, lists, bits}

    ghost function View(): Tasks
      reads Repr
    {
      Tasks(lists[..], bits[..], delayed, container, priority, basePriority, mutexesHeld)
    }

    ghost predicate Sized()
      reads Repr
    {
      lists.Length == LISTS && bits.Length == PRIORITIES && lists as object != bits as object
    }

    /** `uxListRemove` of the task's state item. */
    method Remove(t: nat) returns (left: nat)
      requires Sized() && Placed(View()) && t in container
      modifies this`container, lists
      ensures Sized() && old(t in View().lists[container[t]].items && View().lists[container[t]].at <= |View().lists[container[t]].items|)
      ensures View() == Detach(old(View()), t) && left == Left(old(View()), t) && Placed(View())
    {
      ghost var k := View();
      DetachKeeps(k, t);
      hide Placed;
      var l := container[t];
      var r := lists[l];
      var i := IndexIn(r.items, t);
      lists[l] := RemoveAt(r, i);
      container := container - {t};
      left := |r.items| - 1;
      assert lists[..] == k.lists[l := RemoveAt(r, i)];
    }

    /** The insertion of the task's state item into a list. */
    method Insert(t: nat, l: nat, r: Ring<nat>)
      requires Sized() && l < LISTS
      modifies this`container, lists
      ensures Sized() && View() == Attach(old(View()), t, l, r)
    {
      ghost var k := View();
      lists[l] := r;
      container := container[t := l];
      assert lists[..] == k.lists[l := r];
    }

    method RecordBit(p: nat, b: bool)
      requires Sized() && p < PRIORITIES
      modifies bits
      ensures Sized() && View() == SetBit(old(View()), p, b)
    {
      ghost var k := View();
      bits[p] := b;
      assert bits[..] == k.bits[p := b];
    }

    /** `prvAddTaskToReadyList` */
    method AddTaskToReadyList(t: nat)
      requires Sized() && Placed(View()) && t in priority && t !in container
      modifies this`container, lists, bits
      ensures Sized() && View() == AddReady(old(View()), t) && Placed(View())
    {
      ghost var k := View();
      AddReadyKeeps(k, t);
      var p := priority[t];
      assert ListOk(k, p);
      hide Placed, ListOk;
      RecordBit(p, true);
      Insert(t, p, InsertEnd(lists[p], t));
    }

    /** A ready task taken off its list, the bit of priority p cleared if the list is then empty. */
    method RemoveReady(t: nat, p: nat)
      requires Sized() && Placed(View()) && t in container && p < PRIORITIES
      modifies this`container, lists, bits
      ensures Sized() && View() == Unready(old(View()), t, p)
    {
      hide Placed, Detach, SetBit;
      var left := Remove(t);
      if left == 0 {
        RecordBit(p, false);
      }
    }

    /** The list part of `prvAddCurrentTaskToDelayedList`. */
    method AddCurrentTaskToList(b: Blocking)
      requires Sized() && CanBlock(View(), current, b)
      modifies this`container, lists, bits
      ensures Sized() && View() == Block(old(View()), current, b) && Valid(View())
    {
      hide Unready, Placed, BitsRight, Block;
      BlockIs(View(), current, b);
      var l := match b case InDelayed(_) => delayed case InOverflow(_) => OtherDelayed(delayed) case Forever => SUSPENDED;
      RemoveReady(current, priority[current]);
      Insert(current, l, if b.Forever? then InsertEnd(lists[l], current) else InsertAt(lists[l], b.pos, current));
    }

    /** What the tick, an event, or the resumption of the scheduler does with a task it wakes. */
    method MakeReady(t: nat)
      requires Sized() && Valid(View()) && t in container
      modifies this`container, lists, bits
      ensures Sized() && View() == Unblock(old(View()), t) && Valid(View())
    {
      UnblockKeeps(View(), t);
      assert t in priority;
      hide Placed, BitsRight, Detach, AddReady;
      var left := Remove(t);
      AddTaskToReadyList(t);
    }

    /** `vTaskSuspend` */
    method SuspendTask(t: nat)
      requires Sized() && Valid(View()) && t in container
      modifies this`container, lists, bits
      ensures Sized() && View() == Suspend(old(View()), t) && Valid(View())
    {
      ghost var k := View();
      SuspendKeeps(k, t);
      SuspendedRoom(k, t);
      hide Placed, BitsRight, ListOk, Detach;
      var left := Remove(t);
      if left == 0 {
        ResetReadyPriority(priority[t]);
      }
      Insert(t, SUSPENDED, InsertEnd(lists[SUSPENDED], t));
    }

    /** `taskRESET_READY_PRIORITY` */
    method ResetReadyPriority(p: nat)
      requires Sized() && p < PRIORITIES
      modifies bits
      ensures Sized()
      ensures View() == if old(View()).lists[p].items == [] then SetBit(old(View()), p, false) else old(View())
    {
      if lists[p].items == [] {
        RecordBit(p, false);
      }
    }

    /** `vTaskResume`: only a task in the suspended state, not one waiting on an event for ever. */
    method ResumeTask(t: nat, waitsOnEvent: bool, pending: bool)
      requires Sized() && Valid(View()) && t in container
      modifies this`container, lists, bits
      ensures Sized() && Valid(View())
      ensures View() == if t != current && old(container[t]) == SUSPENDED && !pending && !waitsOnEvent
                        then Unblock(old(View()), t) else old(View())
    {
      hide Valid, Unblock;
      if t != current {
        if container[t] == SUSPENDED && !pending && !waitsOnEvent {
          MakeReady(t);
        }
      }
    }

    /** The fields of the control block that `vTaskPrioritySet` changes. */
    method ChangePriority(t: nat, newPriority: nat)
      requires Sized() && t in priority && t in basePriority
      modifies this`priority, this`basePriority
      ensures Sized() && View() == WithPriority(old(View()), t, newPriority)
    {
      if basePriority[t] == priority[t] {
        priority := priority[t := newPriority];
      }
      basePriority := basePriority[t := newPriority];
    }

    /** `vTaskPrioritySet` */
    method SetPriority(t: nat, newPriority: nat)
      requires Sized() && Valid(View()) && t in container && newPriority < PRIORITIES
      modifies this`container, this`priority, this`basePriority, lists, bits
      ensures Sized() && View() == PrioritySet(old(View()), t, newPriority) && Valid(View())
    {
      ghost var k := View();
      PrioritySetKeeps(k, t, newPriority);
      PrioritySetIs(k, t, newPriority);
      hide Valid, Placed, BitsRight, Unready, AddReady, WithPriority, PrioritySet;
      if basePriority[t] != newPriority {
        if container[t] == priority[t] {
          RemoveReady(t, priority[t]);
          ChangePriority(t, newPriority);
          AddTaskToReadyList(t);
        } else {
          ChangePriority(t, newPriority);
        }
      }
    }

    /** `xTaskPriorityInherit`, asked by the running task of a mutex holder. */
    method PriorityInherit(holder: nat)
      requires Sized() && Valid(View()) && holder in container && current in container
      modifies this`container, this`priority, lists, bits
      ensures Sized() && old(current in priority)
      ensures old(priority[current]) < PRIORITIES && View() == Inherit(old(View()), holder, old(priority[current])) && Valid(View())
    {
      ghost var k := View();
      assert holder in priority && current in priority;
      var wanted := priority[current];
      assert wanted < PRIORITIES;
      InheritKeeps(k, holder, wanted);
      if priority[holder] < wanted {
        if container[holder] == priority[holder] {
          UnreadyKeeps(k, holder);
          InheritKept(Unready(k, holder, priority[holder]), holder, wanted);
          hide Placed, BitsRight, Unready, AddReady;
          RemoveReady(holder, priority[holder]);
          priority := priority[holder := wanted];
          AddTaskToReadyList(holder);
        } else {
          priority := priority[holder := wanted];
        }
      }
    }

    /** `xTaskPriorityDisinherit`: the running task gives a mutex back. */
    method PriorityDisinherit()
      requires Sized() && Valid(View()) && current in container && container[current] < PRIORITIES
      requires current in mutexesHeld && mutexesHeld[current] > 0
      modifies this`container, this`priority, this`mutexesHeld, lists, bits
      ensures Sized() && View() == Disinherit(old(View()), current) && Valid(View())
    {
      hide Valid, Placed, BitsRight, Unready, AddReady, Disinherit;
      ghost var k := View();
      DisinheritKeeps(k, current);
      DisinheritIs(k, current);
      ghost var k0 := k.(held := k.held[current := k.held[current] - 1]);
      mutexesHeld := mutexesHeld[current := mutexesHeld[current] - 1];
      assert View() == k0;
      if priority[current] != basePriority[current] && mutexesHeld[current] == 0 {
        ReturnToBase();
      }
    }

    /** The running task goes back to its base priority. */
    method ReturnToBase()
      requires Sized() && Placed(View()) && BitsRight(View()) && current in container && container[current] < PRIORITIES
      requires current in priority && priority[current] < PRIORITIES && current in basePriority && basePriority[current] < PRIORITIES
      modifies this`container, this`priority, lists, bits
      ensures Sized() && old(priority[current]) < PRIORITIES
      ensures var k1 := Unready(old(View()), current, old(priority[current]));
              var k2 := k1.(prio := k1.prio[current := basePriority[current]]);
              Placed(k2) && current in k2.prio && View() == AddReady(k2, current)
    {
      ghost var k := View();
      UnreadyKeeps(k, current);
      InheritKept(Unready(k, current, priority[current]), current, basePriority[current]);
      hide Placed, BitsRight, Unready, AddReady;
      RemoveReady(current, priority[current]);
      priority := priority[current := basePriority[current]];
      AddTaskToReadyList(current);
    }

    /** `vTaskPriorityDisinheritAfterTimeout`: a task has given up waiting for the mutex that t holds. The
        bit cleared is that of the priority after the change. */
    method PriorityDisinheritAfterTimeout(t: nat, highestWaiting: nat)
      requires Sized() && Valid(View()) && t in container && highestWaiting < PRIORITIES
      requires t in mutexesHeld && mutexesHeld[t] > 0
      modifies this`container, this`priority, lists, bits
      ensures Sized() && View() == AfterTimeout(old(View()), t, highestWaiting)
      ensures Valid(View()) <==> !old(LeavesBit(View(), t, highestWaiting))
    {
      ghost var k := View();
      AfterTimeoutKeepsIff(k, t, highestWaiting);
      AfterTimeoutIs(k, t, highestWaiting);
      hide Valid, Placed, BitsRight, Unready, AddReady, AfterTimeout, LeavesBit;
      var priorityToUse := if basePriority[t] < highestWaiting then highestWaiting else basePriority[t];
      if priority[t] != priorityToUse && mutexesHeld[t] == 1 {
        if container[t] == priority[t] {
          RemoveReady(t, priorityToUse);
          priority := priority[t := priorityToUse];
          AddTaskToReadyList(t);
        } else {
          priority := priority[t := priorityToUse];
        }
      }
    }

    /** `taskSWITCH_DELAYED_LISTS` exchanges the two pointers. */
    method SwitchDelayedLists()
      requires Sized() && Valid(View())
      modifies this`delayed
      ensures Sized() && View() == old(View()).(delayed := OtherDelayed(old(delayed))) && Valid(View())
    {
      SwitchListsKeeps(View());
      delayed := if delayed == DELAYED_A then DELAYED_B else DELAYED_A;
    }

    /** `vTaskSwitchContext` */
    method SwitchContext()
      requires Sized() && Valid(View()) && SomeReady(View())
      modifies this`current, this`yieldPending, lists
      ensures Sized() && Valid(View())
      ensures schedulerSuspended != 0 ==> View() == old(View()) && current == old(current) && yieldPending
      ensures schedulerSuspended == 0 ==> (View(), current) == Select(old(View())) && !yieldPending
    {
      if schedulerSuspended != 0 {
        yieldPending := true;
      } else {
        yieldPending := false;
        ghost var k := View();
        SelectIs(k);
        hide Valid, Select, SomeReady;
        var topPriority := HighestBit();
        lists[topPriority] := Step(lists[topPriority]);
        current := Current(lists[topPriority]);
        assert lists[..] == k.lists[topPriority := Step(k.lists[topPriority])];
      }
    }

    /** `portGET_HIGHEST_PRIORITY` */
    method HighestBit() returns (p: nat)
      requires Sized() && exists i :: 0 <= i < PRIORITIES && bits[i]
      ensures exists i :: 0 <= i < PRIORITIES && bits[..][i]
      ensures p == Highest(bits[..], PRIORITIES) < PRIORITIES
    {
      p := PRIORITIES - 1;
      ghost var i :| 0 <= i < PRIORITIES && bits[i];
      assert bits[..][i];
      while !bits[p]
        invariant i <= p < PRIORITIES
        invariant Highest(bits[..], PRIORITIES) == Highest(bits[..], p + 1)
        decreases p
      {
        p := p - 1;
      }
    }
  }

  lemma BlockIs(k: Tasks, t: nat, b: Blocking)
    requires CanBlock(k, t, b)
    ensures Placed(k) && t in k.prio && k.prio[t] < PRIORITIES && Valid(Block(k, t, b))
    ensures var k1, l := Unready(k, t, k.prio[t]), Target(k, b);
            && l < LISTS == |k1.lists| && k1.delayed == k.delayed && k1.lists[l].at <= |k1.lists[l].items|
            && (!b.Forever? ==> b.pos <= |k1.lists[l].items|)
            && Block(k, t, b)
               == Attach(k1, t, l, if b.Forever? then InsertEnd(k1.lists[l], t) else InsertAt(k1.lists[l], b.pos, t))
  {
    hide Unready;
    BlockKeeps(k, t, b);
    UnreadyKeeps(k, t);
    assert ListOk(Unready(k, t, k.prio[t]), Target(k, b));
  }

  lemma PrioritySetIs(k: Tasks, t: nat, p: nat)
    requires Valid(k) && t in k.place && p < PRIORITIES
    ensures Placed(k) && t in k.prio && t in k.base && k.prio[t] < PRIORITIES
    ensures k.base[t] == p ==> PrioritySet(k, t, p) == k
    ensures k.base[t] != p && k.place[t] != k.prio[t] ==> PrioritySet(k, t, p) == WithPriority(k, t, p)
    ensures k.base[t] != p && k.place[t] == k.prio[t] ==>
              var k1 := Unready(k, t, k.prio[t]);
              && t in k1.prio && t in k1.base && t !in k1.place
              && Placed(WithPriority(k1, t, p)) && t in WithPriority(k1, t, p).prio && t !in WithPriority(k1, t, p).place
              && PrioritySet(k, t, p) == AddReady(WithPriority(k1, t, p), t)
  {
    if k.base[t] != p && k.place[t] == k.prio[t] {
      UnreadyKeeps(k, t);
      hide Unready, AddReady;
      PriorityKeeps(Unready(k, t, k.prio[t]), t, p);
    }
  }

  lemma DisinheritIs(k: Tasks, t: nat)
    requires Valid(k) && t in k.place && k.place[t] < PRIORITIES && k.held[t] > 0
    ensures t in k.prio && t in k.base && k.prio[t] < PRIORITIES
    ensures var k0 := k.(held := k.held[t := k.held[t] - 1]);
            && Placed(k0) && BitsRight(k0) && k.base[t] < PRIORITIES
            && (k.prio[t] == k.base[t] || k.held[t] > 1 ==> Disinherit(k, t) == k0)
            && (k.prio[t] != k.base[t] && k.held[t] == 1 ==>
                  var k1 := Unready(k0, t, k.prio[t]);
                  var k2 := k1.(prio := k1.prio[t := k.base[t]]);
                  && k1.prio == k.prio && k1.base == k.base
                  && Placed(k2) && t in k2.prio && t !in k2.place
                  && Disinherit(k, t) == AddReady(k2, t))
  {
    var k0 := k.(held := k.held[t := k.held[t] - 1]);
    HeldKeeps(k, t, k.held[t] - 1);
    if k.prio[t] != k.base[t] && k.held[t] == 1 {
      UnreadyKeeps(k0, t);
      hide Unready, AddReady, ListOk, BitsRight;
      InheritKept(Unready(k0, t, k.prio[t]), t, k.base[t]);
    }
  }

  lemma AfterTimeoutIs(k: Tasks, t: nat, waiting: nat)
    requires Valid(k) && t in k.place && waiting < PRIORITIES
    ensures Placed(k) && t in k.prio && t in k.base && t in k.held
    ensures var wanted := Wanted(k, t, waiting);
            && wanted < PRIORITIES
            && (!Reverts(k, t, waiting) ==> AfterTimeout(k, t, waiting) == k)
            && (Reverts(k, t, waiting) && k.place[t] != k.prio[t] ==>
                  AfterTimeout(k, t, waiting) == k.(prio := k.prio[t := wanted]))
            && (Reverts(k, t, waiting) && k.place[t] == k.prio[t] ==>
                  var k1 := Unready(k, t, wanted);
                  var k2 := k1.(prio := k1.prio[t := wanted]);
                  && k1.prio == k.prio && Placed(k2) && t in k2.prio && t !in k2.place
                  && AfterTimeout(k, t, waiting) == AddReady(k2, t))
  {
    hide Unready, AddReady;
    WrongBitPlaced(k, t, Wanted(k, t, waiting));
  }

  lemma SelectIs(k: Tasks)
    requires Valid(k) && SomeReady(k)
    ensures |k.bits| == PRIORITIES && |k.lists| == LISTS && exists i :: 0 <= i < PRIORITIES && k.bits[i]
    ensures var p := Highest(k.bits, PRIORITIES);
            && k.lists[p].at <= |k.lists[p].items| && k.lists[p].items != []
            && var ring := Step(k.lists[p]);
               Select(k) == (k.(lists := k.lists[p := ring]), Current(ring))
    ensures Valid(Select(k).0)
  {
    SelectsMaximal(k);
    SomeBit(k);
    assert ListOk(k, Highest(k.bits, PRIORITIES));
  }

  lemma SuspendedRoom(k: Tasks, t: nat)
    requires Valid(k) && t in k.place
    ensures t in k.prio && k.prio[t] < PRIORITIES
    ensures Detach.requires(k, t) && Placed(Detach(k, t))
    ensures Detach(k, t).lists[SUSPENDED].at <= |Detach(k, t).lists[SUSPENDED].items|
  {
    DetachKeeps(k, t);
    assert ListOk(Detach(k, t), SUSPENDED);
  }
}
