/** The 32-bit tick of tasks.c with its two lists of delayed tasks, against an unbounded clock. */
module Ticks {
  import opened Rings

  const WRAP := 0x1_0000_0000
  const MAX_DELAY := 0xFFFF_FFFF

  /** A delayed task and the tick value at which it is to wake. */
  datatype Entry = Entry(value: nat, task: nat)

  /** `delayed` and `overflow` are the lists the two pointers refer to at present. */
  datatype Time = Time(tick: nat, overflows: nat, next: nat, delayed: seq<Entry>, overflow: seq<Entry>)

  function Values(list: seq<Entry>): (v: seq<nat>)
    ensures |v| == |list| && forall i :: 0 <= i < |list| ==> v[i] == list[i].value
  {
    seq(|list|, i requires 0 <= i < |list| => list[i].value)
  }

  /** `vListInsert` */
  function Insert(list: seq<Entry>, e: Entry): (r: seq<Entry>)
    ensures |r| == |list| + 1
  {
    var p := InsertPos(Values(list), e.value);
    list[..p] + [e] + list[p..]
  }

  function Without(list: seq<Entry>, task: nat): (r: seq<Entry>)
    ensures |r| <= |list|
  {
    if list == [] then [] else if list[0].task == task then Without(list[1..], task) else [list[0]] + Without(list[1..], task)
  }

  /** `prvResetNextTaskUnblockTime` */
  function ResetNext(t: Time): Time {
    t.(next := if t.delayed == [] then MAX_DELAY else t.delayed[0].value)
  }

  /** The timed part of `prvAddCurrentTaskToDelayedList`. */
  function AddDelayed(t: Time, task: nat, wait: nat): Time
    requires t.tick < WRAP && wait < WRAP
  {
    var wake := (t.tick + wait) % WRAP;
    if wake < t.tick then t.(overflow := Insert(t.overflow, Entry(wake, task)))
    else t.(delayed := Insert(t.delayed, Entry(wake, task)), next := if wake < t.next then wake else t.next)
  }

  /** A task leaves whichever list it is in. */
  function RemoveDelayed(t: Time, task: nat): Time {
    t.(delayed := Without(t.delayed, task), overflow := Without(t.overflow, task))
  }

  /** `taskSWITCH_DELAYED_LISTS` */
  function Switch(t: Time): Time {
    ResetNext(t.(delayed := t.overflow, overflow := t.delayed, overflows := (t.overflows + 1) % WRAP))
  }

  /** The loop that takes the tasks that are due from the head of the list. */
  function Expire(t: Time): (r: (Time, seq<nat>))
    decreases |t.delayed|
  {
    if t.delayed == [] then (t.(next := MAX_DELAY), [])
    else if t.tick < t.delayed[0].value then (t.(next := t.delayed[0].value), [])
    else
      var (t', woken) := Expire(t.(delayed := t.delayed[1..]));
      (t', [t.delayed[0].task] + woken)
  }

  /** One tick, processed: the new state and the tasks that wake, in order. */
  function Tick(t: Time): (Time, seq<nat>) {
    var t1 := t.(tick := (t.tick + 1) % WRAP);
    var t2 := if t1.tick == 0 then Switch(t1) else t1;
    if t2.tick >= t2.next then Expire(t2) else (t2, [])
  }

  // ----- the clock

  /** When an entry's task is to wake on the unbounded clock, in the epoch of the present tick. */
  function Due(epoch: nat, later: bool, e: Entry): nat {
    epoch * WRAP + e.value + if later then WRAP else 0
  }

  function Now(epoch: nat, t: Time): nat {
    epoch * WRAP + t.tick
  }

  ghost predicate SortedEntries(list: seq<Entry>) {
    forall i, j :: 0 <= i < j < |list| ==> list[i].value <= list[j].value
  }

  /** Everything on the lists is due in the future, and within one turn of the tick; the next unblock time
      is never later than the earliest wake time. */
  ghost predicate Ok(t: Time) {
    && t.tick < WRAP && t.next <= MAX_DELAY
    && SortedEntries(t.delayed) && SortedEntries(t.overflow)
    && (forall e :: e in t.delayed ==> t.tick < e.value <= MAX_DELAY)
    && (forall e :: e in t.overflow ==> e.value < t.tick)
    && (t.delayed != [] ==> t.next <= t.delayed[0].value)
  }

  /** The task is to wake at clock time due. */
  ghost predicate Scheduled(epoch: nat, t: Time, task: nat, due: nat) {
    || (exists e :: e in t.delayed && e.task == task && Due(epoch, false, e) == due)
    || (exists e :: e in t.overflow && e.task == task && Due(epoch, true, e) == due)
  }

  function Epoch(epoch: nat, t: Time): nat {
    if t.tick == MAX_DELAY then epoch + 1 else epoch
  }

  lemma InsertHas(list: seq<Entry>, e: Entry)
    ensures forall x :: x in Insert(list, e) <==> x in list || x == e
  {
    var p := InsertPos(Values(list), e.value);
    assert list == list[..p] + list[p..];
  }

  lemma InsertHead(list: seq<Entry>, e: Entry)
    ensures Insert(list, e)[0] == if list == [] || e.value < list[0].value then e else list[0]
  {
    var p := InsertPos(Values(list), e.value);
    assert list != [] ==> Values(list)[0] == list[0].value;
  }

  lemma InsertOrders(list: seq<Entry>, e: Entry)
    requires SortedEntries(list)
    ensures SortedEntries(Insert(list, e))
  {
    InsertSorted(Values(list), e.value);
    var p, r := InsertPos(Values(list), e.value), Insert(list, e);
    hide InsertPos;
    var v := Values(list)[..p] + [e.value] + Values(list)[p..];
    assert forall i :: 0 <= i < |r| ==> r[i].value == v[i];
  }

  lemma WithoutHas(list: seq<Entry>, task: nat)
    ensures forall x :: x in Without(list, task) <==> x in list && x.task != task
  {
  }

  lemma {:induction false} WithoutOrders(list: seq<Entry>, task: nat)
    requires SortedEntries(list)
    ensures SortedEntries(Without(list, task))
    ensures Without(list, task) != [] ==> list[0].value <= Without(list, task)[0].value
  {
    if list != [] {
      WithoutOrders(list[1..], task);
      WithoutHas(list[1..], task);
    }
  }

  // ----- what every operation keeps

  /** The wake time overflows exactly when it lies beyond the present turn of the tick. */
  lemma WakeTime(t: Time, task: nat, wait: nat)
    requires t.tick < WRAP && 0 < wait < WRAP
    ensures AddDelayed(t, task, wait) ==
            if t.tick + wait < WRAP
            then t.(delayed := Insert(t.delayed, Entry(t.tick + wait, task)),
                    next := if t.tick + wait < t.next then t.tick + wait else t.next)
            else t.(overflow := Insert(t.overflow, Entry(t.tick + wait - WRAP, task)))
  {
    hide Insert;
    Turned(t.tick + wait);
  }

  lemma Turned(a: nat)
    requires a < 2 * WRAP
    ensures a % WRAP == if a < WRAP then a else a - WRAP
  {
  }

  lemma DelayOk(t: Time, task: nat, wait: nat)
    requires Ok(t) && 0 < wait < WRAP
    ensures Ok(AddDelayed(t, task, wait))
  {
    hide Insert, SortedEntries, AddDelayed;
    WakeTime(t, task, wait);
    var e := Entry(if t.tick + wait < WRAP then t.tick + wait else t.tick + wait - WRAP, task);
    var list := if t.tick + wait < WRAP then t.delayed else t.overflow;
    InsertHas(list, e);
    InsertHead(list, e);
    InsertOrders(list, e);
  }

  /** A delay of wait ticks is due exactly wait ticks from now, on the list of the right epoch, and nothing
      else is rescheduled. */
  lemma DelayExact(epoch: nat, t: Time, task: nat, wait: nat, x: nat, due: nat)
    requires Ok(t) && 0 < wait < WRAP
    ensures Scheduled(epoch, AddDelayed(t, task, wait), x, due) <==>
              Scheduled(epoch, t, x, due) || (x == task && due == Now(epoch, t) + wait)
  {
    WakeTime(t, task, wait);
    var e := Entry(if t.tick + wait < WRAP then t.tick + wait else t.tick + wait - WRAP, task);
    InsertHas(if t.tick + wait < WRAP then t.delayed else t.overflow, e);
    hide Insert, Ok, AddDelayed;
    var t' := AddDelayed(t, task, wait);
    assert e in if t.tick + wait < WRAP then t'.delayed else t'.overflow;
    assert Due(epoch, t.tick + wait >= WRAP, e) == Now(epoch, t) + wait;
  }

  lemma RemoveKeeps(epoch: nat, t: Time, task: nat)
    requires Ok(t)
    ensures Ok(RemoveDelayed(t, task))
    ensures forall x: nat, due: nat :: Scheduled(epoch, RemoveDelayed(t, task), x, due) <==> x != task && Scheduled(epoch, t, x, due)
  {
    WithoutHas(t.delayed, task);
    WithoutHas(t.overflow, task);
    WithoutOrders(t.delayed, task);
    WithoutOrders(t.overflow, task);
    hide Without, SortedEntries;
    if Without(t.delayed, task) != [] {
      assert Without(t.delayed, task)[0] in Without(t.delayed, task);
    }
  }

  // ----- a tick

  ghost predicate WakesBy(list: seq<Entry>, tick: nat, x: nat) {
    exists e :: e in list && e.task == x && e.value <= tick
  }

  /** The loop takes exactly the entries whose time has come. */
  lemma {:induction false} ExpireTakes(t: Time)
    requires SortedEntries(t.delayed)
    ensures var (t', woken) := Expire(t);
            && t' == t.(delayed := t'.delayed, next := t'.next)
            && SortedEntries(t'.delayed)
            && (forall e :: e in t'.delayed <==> e in t.delayed && e.value > t.tick)
            && (forall x :: x in woken <==> WakesBy(t.delayed, t.tick, x))
            && t'.next == if t'.delayed == [] then MAX_DELAY else t'.delayed[0].value
    decreases |t.delayed|
  {
    if t.delayed == [] {
    } else if t.tick < t.delayed[0].value {
      forall e | e in t.delayed
        ensures e.value > t.tick
      {
        var i :| 0 <= i < |t.delayed| && t.delayed[i] == e;
      }
    } else {
      ExpireTakes(t.(delayed := t.delayed[1..]));
      forall x
        ensures WakesBy(t.delayed, t.tick, x) <==> x == t.delayed[0].task || WakesBy(t.delayed[1..], t.tick, x)
      {
        if WakesBy(t.delayed[1..], t.tick, x) {
          var e :| e in t.delayed[1..] && e.task == x && e.value <= t.tick;
          assert e in t.delayed;
        }
        assert t.delayed[0] in t.delayed;
      }
    }
  }

  /** The delayed list is always empty when the lists are switched. */
  lemma EmptyAtSwitch(t: Time)
    requires Ok(t) && (t.tick + 1) % WRAP == 0
    ensures t.tick == MAX_DELAY && t.delayed == []
  {
    if t.delayed != [] {
      HeadIn(t.delayed);
      assert false;
    }
  }

  lemma HeadIn(list: seq<Entry>)
    requires list != []
    ensures list[0] in list
  {
  }

  /** The state in which a tick looks for due tasks. */
  ghost function Turn(t: Time): Time {
    if t.tick == MAX_DELAY then Switch(t.(tick := 0)) else t.(tick := t.tick + 1)
  }

  lemma TickIsTurn(t: Time)
    requires Ok(t)
    ensures var t2 := Turn(t); Tick(t) == if t2.tick >= t2.next then Expire(t2) else (t2, [])
  {
    Turned(t.tick + 1);
    hide Expire;
  }

  /** Turning the tick moves nothing in time. */
  lemma TurnKeeps(epoch: nat, t: Time)
    requires Ok(t)
    ensures var t2 := Turn(t);
            && t2.tick < WRAP && Now(Epoch(epoch, t), t2) == Now(epoch, t) + 1
            && SortedEntries(t2.delayed) && SortedEntries(t2.overflow)
            && (forall e :: e in t2.delayed ==> t2.tick <= e.value <= MAX_DELAY)
            && (forall e :: e in t2.overflow ==> e.value < t2.tick)
            && (t2.delayed != [] ==> t2.next <= t2.delayed[0].value) && t2.next <= MAX_DELAY
            && forall x: nat, due: nat :: Scheduled(Epoch(epoch, t), t2, x, due) <==> Scheduled(epoch, t, x, due)
  {
    hide SortedEntries;
    if t.tick == MAX_DELAY {
      EmptyAtSwitch(t);
      if t.overflow != [] {
        assert t.overflow[0] in t.overflow;
      }
      assert forall e :: Due(epoch + 1, false, e) == Due(epoch, true, e);
    }
  }

  /** Tasks wake exactly when they are due: a tick wakes those due now and leaves the rest as they were. */
  lemma TickExact(epoch: nat, t: Time)
    requires Ok(t)
    ensures var (t', woken) := Tick(t);
            && Ok(t') && Now(Epoch(epoch, t), t') == Now(epoch, t) + 1
            && (forall x :: x in woken <==> Scheduled(epoch, t, x, Now(epoch, t) + 1))
            && forall x: nat, due: nat :: Scheduled(Epoch(epoch, t), t', x, due) <==>
                 Scheduled(epoch, t, x, due) && due != Now(epoch, t) + 1
  {
    TickIsTurn(t);
    TurnKeeps(epoch, t);
    var t2, epoch' := Turn(t), Epoch(epoch, t);
    var (t', woken) := Tick(t);
    hide Tick, Turn;
    if t2.tick >= t2.next {
      ExpireTakes(t2);
      hide Expire;
    } else {
      NothingDue(t2);
    }
    assert t'.overflow == t2.overflow && t'.tick == t2.tick;
    assert forall e :: e in t'.delayed <==> e in t2.delayed && e.value > t2.tick;
    assert forall x :: x in woken <==> WakesBy(t2.delayed, t2.tick, x);
    assert SortedEntries(t'.delayed);
    hide SortedEntries;
    if t'.delayed != [] {
      assert t'.delayed[0] in t'.delayed;
    }
  }

  lemma NothingDue(t: Time)
    requires SortedEntries(t.delayed) && (t.delayed != [] ==> t.tick < t.next <= t.delayed[0].value)
    ensures forall e :: e in t.delayed ==> e.value > t.tick
  {
  }
}
