/** Where the scheduler keeps its tasks: one ready list per priority with a bitmap of those in use, two
    delayed lists and the list of suspended tasks. */
module TaskLists {
  import opened Rings

  const PRIORITIES := 10
  const DELAYED_A := 10
  const DELAYED_B := 11
  const SUSPENDED := 12
  const LISTS := 13

  /** `lists` holds the ready lists by priority and then the others; `place` is the container of each
      task's state item, `delayed` which of the two delayed lists is the current one. */
  datatype Tasks = Tasks(lists: seq<Ring<nat>>, bits: seq<bool>, delayed: nat,
                         place: map<nat, nat>, prio: map<nat, nat>, base: map<nat, nat>, held: map<nat, nat>)

  function IndexIn(s: seq<nat>, t: nat): (i: nat)
    requires t in s
    ensures i < |s| && s[i] == t
  {
    if s[0] == t then 0 else
      assert t in s[1..];
      1 + IndexIn(s[1..], t)
  }

  ghost predicate Distinct(s: seq<nat>) {
    forall i, j :: 0 <= i < j < |s| ==> s[i] != s[j]
  }

  // ----- the invariant

  ghost predicate ListOk(k: Tasks, l: nat)
    requires l < |k.lists|
  {
    && k.lists[l].at <= |k.lists[l].items|
    && Distinct(k.lists[l].items)
    && forall t :: t in k.lists[l].items <==> t in k.place && k.place[t] == l
  }

  /** The lists partition the tasks that are on one, and a ready list holds tasks of its priority only. */
  ghost predicate Placed(k: Tasks) {
    && |k.lists| == LISTS && |k.bits| == PRIORITIES
    && (k.delayed == DELAYED_A || k.delayed == DELAYED_B)
    && (forall l :: 0 <= l < LISTS ==> ListOk(k, l))
    && k.base.Keys == k.prio.Keys && k.held.Keys == k.prio.Keys && k.place.Keys <= k.prio.Keys
    && (forall t :: t in k.place ==> k.place[t] < LISTS)
    && (forall t :: t in k.place && k.place[t] < PRIORITIES ==> k.prio[t] == k.place[t])
    && (forall t :: t in k.prio ==> k.prio[t] < PRIORITIES && k.base[t] < PRIORITIES)
  }

  /** The bit for a priority is set iff its list has a task. */
  ghost predicate BitsRight(k: Tasks)
    requires |k.lists| == LISTS && |k.bits| == PRIORITIES
  {
    forall p :: 0 <= p < PRIORITIES ==> (k.bits[p] <==> k.lists[p].items != [])
  }

  ghost predicate Valid(k: Tasks) {
    Placed(k) && BitsRight(k) && k.place.Keys == k.prio.Keys
  }

  // ----- the list operations

  /** `uxListRemove` of a task's state item. */
  ghost function Detach(k: Tasks, t: nat): Tasks
    requires t in k.place && k.place[t] < |k.lists| && t in k.lists[k.place[t]].items
    requires k.lists[k.place[t]].at <= |k.lists[k.place[t]].items|
  {
    var l := k.place[t];
    k.(lists := k.lists[l := RemoveAt(k.lists[l], IndexIn(k.lists[l].items, t))], place := k.place - {t})
  }

  /** What `uxListRemove` returns. */
  ghost function Left(k: Tasks, t: nat): nat
    requires t in k.place && k.place[t] < |k.lists| && t in k.lists[k.place[t]].items
  {
    |k.lists[k.place[t]].items| - 1
  }

  ghost function Attach(k: Tasks, t: nat, l: nat, r: Ring<nat>): Tasks
    requires l < |k.lists|
  {
    k.(lists := k.lists[l := r], place := k.place[t := l])
  }

  ghost function SetBit(k: Tasks, p: nat, b: bool): Tasks
    requires p < |k.bits|
  {
    k.(bits := k.bits[p := b])
  }

  /** `prvAddTaskToReadyList` */
  ghost function AddReady(k: Tasks, t: nat): Tasks
    requires Placed(k) && t in k.prio
  {
    var p := k.prio[t];
    assert ListOk(k, p);
    Attach(SetBit(k, p, true), t, p, InsertEnd(k.lists[p], t))
  }

  /** The lists do not depend on the bitmap and the priorities. */
  lemma SameLists(k: Tasks, k': Tasks)
    requires |k.lists| == LISTS && k'.lists == k.lists && k'.place == k.place
    requires forall l :: 0 <= l < LISTS ==> ListOk(k, l)
    ensures forall l :: 0 <= l < LISTS ==> ListOk(k', l)
  {
    forall l | 0 <= l < LISTS
      ensures ListOk(k', l)
    {
      assert ListOk(k, l);
    }
  }

  lemma BitKeeps(k: Tasks, p: nat, b: bool)
    requires Placed(k) && p < PRIORITIES
    ensures Placed(SetBit(k, p, b))
  {
    hide ListOk;
    SameLists(k, SetBit(k, p, b));
  }

  lemma DetachKeeps(k: Tasks, t: nat)
    requires Placed(k) && t in k.place
    ensures t in k.lists[k.place[t]].items && k.lists[k.place[t]].at <= |k.lists[k.place[t]].items|
    ensures Placed(Detach(k, t))
    ensures forall l :: 0 <= l < LISTS && l != k.place[t] ==> Detach(k, t).lists[l] == k.lists[l]
    ensures Left(k, t) == |Detach(k, t).lists[k.place[t]].items|
  {
    var l0 := k.place[t];
    assert ListOk(k, l0);
    var k', s, i := Detach(k, t), k.lists[l0].items, IndexIn(k.lists[l0].items, t);
    RemovedHas(s, i);
    forall l | 0 <= l < LISTS
      ensures ListOk(k', l)
    {
      assert ListOk(k, l);
    }
  }

  lemma RemovedHas(s: seq<nat>, i: nat)
    requires Distinct(s) && i < |s|
    ensures Distinct(s[..i] + s[i + 1..])
    ensures forall x :: x in s[..i] + s[i + 1..] <==> x in s && x != s[i]
  {
    forall x | x in s && x != s[i]
      ensures x in s[..i] + s[i + 1..]
    {
      var j :| 0 <= j < |s| && s[j] == x;
      if j < i {
        assert s[..i][j] == x;
      } else {
        assert s[i + 1..][j - i - 1] == x;
      }
    }
  }

  /** A ring with one more item, wherever. */
  ghost predicate Gained(r: Ring<nat>, r': Ring<nat>, t: nat) {
    && r'.at <= |r'.items| && r'.items != []
    && Distinct(r'.items)
    && forall x :: x in r'.items <==> x in r.items || x == t
  }

  lemma AttachKeeps(k: Tasks, t: nat, l: nat, r: Ring<nat>)
    requires Placed(k) && t !in k.place && t in k.prio && l < LISTS && (l < PRIORITIES ==> l == k.prio[t])
    requires Gained(k.lists[l], r, t)
    ensures Placed(Attach(k, t, l, r))
  {
    var k' := Attach(k, t, l, r);
    forall i | 0 <= i < LISTS
      ensures ListOk(k', i)
    {
      assert ListOk(k, i);
    }
  }

  lemma InsertEndGains(k: Tasks, t: nat, l: nat)
    requires Placed(k) && t !in k.place && l < LISTS
    ensures k.lists[l].at <= |k.lists[l].items|
    ensures Gained(k.lists[l], InsertEnd(k.lists[l], t), t)
  {
    assert ListOk(k, l);
    var r := k.lists[l];
    assert r.at > 0 ==> r.items == r.items[..r.at - 1] + r.items[r.at - 1..];
  }

  lemma InsertAtGains(k: Tasks, t: nat, l: nat, p: nat)
    requires Placed(k) && t !in k.place && l < LISTS && p <= |k.lists[l].items|
    ensures k.lists[l].at <= |k.lists[l].items|
    ensures Gained(k.lists[l], InsertAt(k.lists[l], p, t), t)
  {
    assert ListOk(k, l);
    assert k.lists[l].items == k.lists[l].items[..p] + k.lists[l].items[p..];
  }

  lemma AddReadyKeeps(k: Tasks, t: nat)
    requires Placed(k) && t in k.prio && t !in k.place
    ensures Placed(AddReady(k, t))
    ensures forall p :: 0 <= p < PRIORITIES ==>
              AddReady(k, t).bits[p] == (p == k.prio[t] || k.bits[p])
    ensures forall p :: 0 <= p < PRIORITIES && p != k.prio[t] ==> AddReady(k, t).lists[p] == k.lists[p]
    ensures AddReady(k, t).lists[k.prio[t]].items != []
  {
    InsertEndGains(k, t, k.prio[t]);
    BitKeeps(k, k.prio[t], true);
    AttachKeeps(SetBit(k, k.prio[t], true), t, k.prio[t], InsertEnd(k.lists[k.prio[t]], t));
  }

  /** Changing priorities of a task that is on no ready list. */
  lemma PrioKeeps(k: Tasks, t: nat, prio: nat, base: nat)
    requires Placed(k) && t in k.prio && prio < PRIORITIES && base < PRIORITIES
    requires t in k.place ==> k.place[t] >= PRIORITIES
    ensures Placed(k.(prio := k.prio[t := prio], base := k.base[t := base]))
    ensures BitsRight(k) ==> BitsRight(k.(prio := k.prio[t := prio], base := k.base[t := base]))
  {
    hide ListOk;
    SameLists(k, k.(prio := k.prio[t := prio], base := k.base[t := base]));
  }

  /** The last task without a place back on its ready list. */
  lemma ReadyAgain(k: Tasks, t: nat)
    requires Placed(k) && BitsRight(k) && t in k.prio && t !in k.place && k.place.Keys == k.prio.Keys - {t}
    ensures Valid(AddReady(k, t))
    ensures AddReady(k, t).prio == k.prio && AddReady(k, t).base == k.base && AddReady(k, t).place[t] == k.prio[t]
  {
    AddReadyKeeps(k, t);
  }

  // ----- the operations of tasks.c

  /** Where a blocked task goes: the current delayed list, the other one, or the suspended tasks'. */
  datatype Blocking = InDelayed(pos: nat) | InOverflow(pos: nat) | Forever

  function OtherDelayed(l: nat): nat {
    if l == DELAYED_A then DELAYED_B else DELAYED_A
  }

  function Target(k: Tasks, b: Blocking): nat {
    match b
    case InDelayed(_) => k.delayed
    case InOverflow(_) => OtherDelayed(k.delayed)
    case Forever => SUSPENDED
  }

  /** Taken off its list; the bit is cleared if that list, a ready list of priority p, is now empty. */
  ghost function Unready(k: Tasks, t: nat, p: nat): Tasks
    requires Placed(k) && t in k.place && p < PRIORITIES
  {
    DetachKeeps(k, t);
    if Left(k, t) == 0 then SetBit(Detach(k, t), p, false) else Detach(k, t)
  }

  ghost predicate CanBlock(k: Tasks, t: nat, b: Blocking) {
    && Valid(k) && t in k.place && k.place[t] < PRIORITIES
    && (b.InDelayed? ==> b.pos <= |k.lists[k.delayed].items|)
    && (b.InOverflow? ==> b.pos <= |k.lists[OtherDelayed(k.delayed)].items|)
  }

  /** `prvAddCurrentTaskToDelayedList`: the running task leaves its ready list. */
  ghost function Block(k: Tasks, t: nat, b: Blocking): Tasks
    requires CanBlock(k, t, b)
  {
    UnreadyKeeps(k, t);
    var k1 := Unready(k, t, k.prio[t]);
    var l := Target(k, b);
    assert ListOk(k1, l);
    Attach(k1, t, l, if b.Forever? then InsertEnd(k1.lists[l], t) else InsertAt(k1.lists[l], b.pos, t))
  }

  /** A ready task off its list, with the bit put right. */
  lemma UnreadyKeeps(k: Tasks, t: nat)
    requires Placed(k) && BitsRight(k) && t in k.place && k.place[t] < PRIORITIES
    ensures var k' := Unready(k, t, k.prio[t]);
            && Placed(k') && BitsRight(k') && k' == k.(lists := k'.lists, bits := k'.bits, place := k.place - {t})
            && forall l :: PRIORITIES <= l < LISTS ==> k'.lists[l] == k.lists[l]
  {
    DetachKeeps(k, t);
    BitKeeps(Detach(k, t), k.prio[t], false);
  }

  lemma AttachParked(k: Tasks, t: nat, l: nat, r: Ring<nat>)
    requires Placed(k) && BitsRight(k) && t !in k.place && t in k.prio && PRIORITIES <= l < LISTS
    requires Gained(k.lists[l], r, t)
    ensures Placed(Attach(k, t, l, r)) && BitsRight(Attach(k, t, l, r))
  {
    AttachKeeps(k, t, l, r);
  }

  lemma BlockKeeps(k: Tasks, t: nat, b: Blocking)
    requires CanBlock(k, t, b)
    ensures Valid(Block(k, t, b)) && Block(k, t, b).place[t] == Target(k, b) >= PRIORITIES
  {
    hide ListOk, Unready, Gained, Distinct, BitsRight, InsertEnd, InsertAt;
    UnreadyKeeps(k, t);
    var k1, l := Unready(k, t, k.prio[t]), Target(k, b);
    if b.Forever? {
      InsertEndGains(k1, t, l);
      AttachParked(k1, t, l, InsertEnd(k1.lists[l], t));
    } else {
      InsertAtGains(k1, t, l, b.pos);
      AttachParked(k1, t, l, InsertAt(k1.lists[l], b.pos, t));
    }
  }

  /** A task made ready by the tick, by an event, or by the resumption of the scheduler: whatever list it
      was on. */
  ghost function Unblock(k: Tasks, t: nat): Tasks
    requires Valid(k) && t in k.place
  {
    DetachKeeps(k, t);
    AddReady(Detach(k, t), t)
  }

  lemma UnblockKeeps(k: Tasks, t: nat)
    requires Valid(k) && t in k.place
    ensures Valid(Unblock(k, t)) && Unblock(k, t).place[t] == k.prio[t]
  {
    DetachKeeps(k, t);
    AddReadyKeeps(Detach(k, t), t);
  }

  /** `vTaskSuspend` */
  ghost function Suspend(k: Tasks, t: nat): Tasks
    requires Valid(k) && t in k.place
  {
    DetachKeeps(k, t);
    var k1 := Detach(k, t);
    var p := k.prio[t];
    var k2 := if Left(k, t) == 0 && k1.lists[p].items == [] then SetBit(k1, p, false) else k1;
    BitKeeps(k1, p, false);
    assert ListOk(k2, SUSPENDED);
    Attach(k2, t, SUSPENDED, InsertEnd(k2.lists[SUSPENDED], t))
  }

  lemma SuspendedUnready(k: Tasks, t: nat)
    requires Valid(k) && t in k.place
    ensures t in k.lists[k.place[t]].items && k.lists[k.place[t]].at <= |k.lists[k.place[t]].items|
    ensures var k1, p := Detach(k, t), k.prio[t];
            var k2 := if Left(k, t) == 0 && k1.lists[p].items == [] then SetBit(k1, p, false) else k1;
            Placed(k2) && BitsRight(k2) && k2 == k.(lists := k2.lists, bits := k2.bits, place := k.place - {t})
  {
    DetachKeeps(k, t);
    BitKeeps(Detach(k, t), k.prio[t], false);
    hide ListOk;
  }

  lemma SuspendKeeps(k: Tasks, t: nat)
    requires Valid(k) && t in k.place
    ensures Valid(Suspend(k, t)) && Suspend(k, t).place[t] == SUSPENDED
  {
    hide ListOk, BitsRight, Gained, InsertEnd, RemoveAt;
    SuspendedUnready(k, t);
    var k1, p := Detach(k, t), k.prio[t];
    var k2 := if Left(k, t) == 0 && k1.lists[p].items == [] then SetBit(k1, p, false) else k1;
    InsertEndGains(k2, t, SUSPENDED);
    AttachParked(k2, t, SUSPENDED, InsertEnd(k2.lists[SUSPENDED], t));
  }

  /** The priority part of `vTaskPrioritySet`: the base always, the priority used unless it is inherited. */
  ghost function WithPriority(k: Tasks, t: nat, priority: nat): Tasks
    requires t in k.prio && t in k.base
  {
    k.(prio := if k.base[t] == k.prio[t] then k.prio[t := priority] else k.prio, base := k.base[t := priority])
  }

  /** `vTaskPrioritySet` */
  ghost function PrioritySet(k: Tasks, t: nat, priority: nat): Tasks
    requires Valid(k) && t in k.place && priority < PRIORITIES
  {
    if k.base[t] == priority then k
    else if k.place[t] == k.prio[t] then
      UnreadyKeeps(k, t);
      var k1 := Unready(k, t, k.prio[t]);
      PriorityKeeps(k1, t, priority);
      AddReady(WithPriority(k1, t, priority), t)
    else WithPriority(k, t, priority)
  }

  lemma PriorityKeeps(k: Tasks, t: nat, priority: nat)
    requires Placed(k) && t in k.prio && priority < PRIORITIES && (t in k.place ==> k.place[t] >= PRIORITIES)
    ensures Placed(WithPriority(k, t, priority))
    ensures BitsRight(k) ==> BitsRight(WithPriority(k, t, priority))
  {
    PrioKeeps(k, t, if k.base[t] == k.prio[t] then priority else k.prio[t], priority);
    assert k.prio[t := k.prio[t]] == k.prio;
  }

  lemma PrioritySetKeeps(k: Tasks, t: nat, priority: nat)
    requires Valid(k) && t in k.place && priority < PRIORITIES
    ensures Valid(PrioritySet(k, t, priority))
  {
    assert t in k.prio;
    if k.base[t] != priority {
      if k.place[t] == k.prio[t] {
        UnreadyKeeps(k, t);
        var k1 := Unready(k, t, k.prio[t]);
        hide ListOk, Unready, BitsRight, AddReady;
        PriorityKeeps(k1, t, priority);
        ReadyAgain(WithPriority(k1, t, priority), t);
      } else {
        PriorityKeeps(k, t, priority);
      }
    }
  }

  /** `xTaskPriorityInherit`: the holder of a mutex takes the priority of the task that wants it. */
  ghost function Inherit(k: Tasks, holder: nat, priority: nat): Tasks
    requires Valid(k) && holder in k.place && priority < PRIORITIES
  {
    if k.prio[holder] >= priority then k
    else if k.place[holder] == k.prio[holder] then
      UnreadyKeeps(k, holder);
      var k1 := Unready(k, holder, k.prio[holder]);
      InheritKept(k1, holder, priority);
      AddReady(k1.(prio := k1.prio[holder := priority]), holder)
    else k.(prio := k.prio[holder := priority])
  }

  lemma InheritKept(k: Tasks, t: nat, priority: nat)
    requires Placed(k) && t in k.prio && priority < PRIORITIES && (t in k.place ==> k.place[t] >= PRIORITIES)
    ensures Placed(k.(prio := k.prio[t := priority]))
    ensures BitsRight(k) ==> BitsRight(k.(prio := k.prio[t := priority]))
  {
    PrioKeeps(k, t, priority, k.base[t]);
    assert k.base[t := k.base[t]] == k.base;
  }

  lemma InheritKeeps(k: Tasks, holder: nat, priority: nat)
    requires Valid(k) && holder in k.place && priority < PRIORITIES
    ensures Valid(Inherit(k, holder, priority))
    ensures Inherit(k, holder, priority).prio[holder] >= priority && Inherit(k, holder, priority).base == k.base
  {
    assert holder in k.prio;
    if k.prio[holder] < priority {
      if k.place[holder] == k.prio[holder] {
        UnreadyKeeps(k, holder);
        var k1 := Unready(k, holder, k.prio[holder]);
        hide ListOk, Unready, BitsRight, AddReady;
        InheritKept(k1, holder, priority);
        ReadyAgain(k1.(prio := k.prio[holder := priority]), holder);
      } else {
        InheritKept(k, holder, priority);
      }
    }
  }

  /** `xTaskPriorityDisinherit` by the running task, which gives a mutex back. */
  ghost function Disinherit(k: Tasks, t: nat): Tasks
    requires Valid(k) && t in k.place && k.place[t] < PRIORITIES && k.held[t] > 0
  {
    var k0 := k.(held := k.held[t := k.held[t] - 1]);
    if k.prio[t] != k.base[t] && k0.held[t] == 0 then
      HeldKeeps(k, t, k.held[t] - 1);
      UnreadyKeeps(k0, t);
      var k1 := Unready(k0, t, k.prio[t]);
      InheritKept(k1, t, k.base[t]);
      AddReady(k1.(prio := k1.prio[t := k1.base[t]]), t)
    else k0
  }

  lemma HeldKeeps(k: Tasks, t: nat, n: nat)
    requires Placed(k) && BitsRight(k) && t in k.prio
    ensures Placed(k.(held := k.held[t := n])) && BitsRight(k.(held := k.held[t := n]))
  {
    hide ListOk;
    SameLists(k, k.(held := k.held[t := n]));
  }

  lemma DisinheritKeeps(k: Tasks, t: nat)
    requires Valid(k) && t in k.place && k.place[t] < PRIORITIES && k.held[t] > 0
    ensures Valid(Disinherit(k, t))
    ensures k.held[t] == 1 ==> Disinherit(k, t).prio[t] == k.base[t]
  {
    var k0 := k.(held := k.held[t := k.held[t] - 1]);
    HeldKeeps(k, t, k.held[t] - 1);
    if k.prio[t] != k.base[t] && k0.held[t] == 0 {
      UnreadyKeeps(k0, t);
      var k1 := Unready(k0, t, k.prio[t]);
      hide ListOk, Unready, BitsRight, AddReady;
      InheritKept(k1, t, k.base[t]);
      ReadyAgain(k1.(prio := k1.prio[t := k1.base[t]]), t);
    }
  }

  // ----- a wait for a mutex that times out

  /** The priority a mutex holder should have: its own, or that of the highest task still waiting. */
  function Wanted(k: Tasks, t: nat, waiting: nat): nat
    requires t in k.base
  {
    if k.base[t] < waiting then waiting else k.base[t]
  }

  /** Only the holder of a single mutex is changed. */
  ghost predicate Reverts(k: Tasks, t: nat, waiting: nat)
    requires t in k.prio && t in k.base && t in k.held
  {
    k.prio[t] != Wanted(k, t, waiting) && k.held[t] == 1
  }

  /** `vTaskPriorityDisinheritAfterTimeout`. If the ready list the holder leaves is then empty, the bit that
      is cleared is not that list's but the one of the new priority. */
  ghost function AfterTimeout(k: Tasks, t: nat, waiting: nat): Tasks
    requires Valid(k) && t in k.place && waiting < PRIORITIES
  {
    var wanted := Wanted(k, t, waiting);
    if !Reverts(k, t, waiting) then k
    else if k.place[t] == k.prio[t] then
      WrongBitPlaced(k, t, wanted);
      AddReady(Unready(k, t, wanted).(prio := k.prio[t := wanted]), t)
    else k.(prio := k.prio[t := wanted])
  }

  /** Whether the holder leaves a ready list on which it is alone. */
  ghost predicate LeavesBit(k: Tasks, t: nat, waiting: nat)
    requires Valid(k) && t in k.place
  {
    Reverts(k, t, waiting) && k.place[t] == k.prio[t] && |k.lists[k.prio[t]].items| == 1
  }

  lemma WrongBitPlaced(k: Tasks, t: nat, wanted: nat)
    requires Placed(k) && t in k.place && wanted < PRIORITIES
    ensures var k1 := Unready(k, t, wanted);
            && k1 == k.(lists := k1.lists, bits := k1.bits, place := k.place - {t})
            && Placed(k1) && Placed(k1.(prio := k.prio[t := wanted]))
  {
    DetachKeeps(k, t);
    BitKeeps(Detach(k, t), wanted, false);
    InheritKept(Unready(k, t, wanted), t, wanted);
  }

  lemma MovedBits(k: Tasks, t: nat, wanted: nat)
    requires Valid(k) && t in k.place && k.place[t] == k.prio[t] != wanted && wanted < PRIORITIES
    ensures var k1 := Unready(k, t, wanted).(prio := k.prio[t := wanted]);
            && Placed(k1)
            && var k' := AddReady(k1, t);
               && Placed(k') && k'.place.Keys == k'.prio.Keys && k'.bits[k.prio[t]]
               && (k'.lists[k.prio[t]].items == [] <==> |k.lists[k.prio[t]].items| == 1)
               && forall p :: 0 <= p < PRIORITIES && p != k.prio[t] ==> (k'.bits[p] <==> k'.lists[p].items != [])
  {
    hide ListOk, AddReady, RemoveAt;
    DetachKeeps(k, t);
    WrongBitPlaced(k, t, wanted);
    AddReadyKeeps(Unready(k, t, wanted).(prio := k.prio[t := wanted]), t);
    AddReadyMaps(Unready(k, t, wanted).(prio := k.prio[t := wanted]), t);
  }

  lemma AddReadyMaps(k: Tasks, t: nat)
    requires Placed(k) && t in k.prio
    ensures var k' := AddReady(k, t);
            && k'.place == k.place[t := k.prio[t]] && k'.prio == k.prio && k'.base == k.base && k'.held == k.held
            && k'.delayed == k.delayed
  {
    assert ListOk(k, k.prio[t]);
  }

  /** After it every task is still on exactly one list, but the bitmap is right iff the holder did not leave
      a ready list on which it was alone: otherwise the empty list's bit stays set. */
  lemma AfterTimeoutKeepsIff(k: Tasks, t: nat, waiting: nat)
    requires Valid(k) && t in k.place && waiting < PRIORITIES
    ensures var k' := AfterTimeout(k, t, waiting);
            && Placed(k') && k'.place.Keys == k'.prio.Keys
            && (Valid(k') <==> !LeavesBit(k, t, waiting))
            && (LeavesBit(k, t, waiting) ==> k'.bits[k.prio[t]] && k'.lists[k.prio[t]].items == [])
  {
    hide AddReady, Unready, ListOk;
    var wanted := Wanted(k, t, waiting);
    if Reverts(k, t, waiting) {
      if k.place[t] == k.prio[t] {
        MovedBits(k, t, wanted);
      } else {
        InheritKept(k, t, wanted);
      }
    }
  }

  /** With the bit left behind and nothing ready above it, the next context switch looks at an empty list,
      where the source stops on an assertion. */
  lemma StaleBitSelected(k: Tasks, t: nat, waiting: nat)
    requires Valid(k) && t in k.place && waiting < PRIORITIES && LeavesBit(k, t, waiting)
    requires Wanted(k, t, waiting) < k.prio[t]
    requires forall p :: k.prio[t] < p < PRIORITIES ==> k.lists[p].items == []
    ensures var k' := AfterTimeout(k, t, waiting);
            && (exists p :: 0 <= p < |k'.bits| == PRIORITIES && k'.bits[p])
            && Highest(k'.bits, PRIORITIES) == k.prio[t] && k'.lists[k.prio[t]].items == []
  {
    AfterTimeoutKeepsIff(k, t, waiting);
    WrongBitPlaced(k, t, Wanted(k, t, waiting));
    DetachKeeps(k, t);
    var k1 := Unready(k, t, Wanted(k, t, waiting));
    assert forall p :: k.prio[t] < p < PRIORITIES ==> !k.bits[p] && !k1.bits[p];
    AddReadyKeeps(k1.(prio := k.prio[t := Wanted(k, t, waiting)]), t);
  }

  /** It does not come to that while the task whose wait timed out, or any other, is ready at the
      priority the holder had inherited. */
  lemma SharedPriorityKeeps(k: Tasks, t: nat, waiting: nat, other: nat)
    requires Valid(k) && t in k.place && waiting < PRIORITIES
    requires other in k.place && other != t && k.place[other] == k.prio[t]
    ensures Valid(AfterTimeout(k, t, waiting))
  {
    AfterTimeoutKeepsIff(k, t, waiting);
    if k.place[t] == k.prio[t] {
      assert ListOk(k, k.prio[t]);
      var s := k.lists[k.prio[t]].items;
      assert s[IndexIn(s, t)] != s[IndexIn(s, other)];
    }
  }

  // ----- selection

  /** The number of the highest bit set. */
  function Highest(bits: seq<bool>, n: nat): (p: nat)
    requires n <= |bits| && exists i :: 0 <= i < n && bits[i]
    ensures p < n && bits[p] && forall i :: p < i < n ==> !bits[i]
  {
    if bits[n - 1] then n - 1 else Highest(bits, n - 1)
  }

  ghost predicate SomeReady(k: Tasks) {
    exists t :: t in k.place && k.place[t] < PRIORITIES
  }

  lemma SomeBit(k: Tasks)
    requires Valid(k) && SomeReady(k)
    ensures exists p :: 0 <= p < PRIORITIES && k.bits[p]
  {
    var t :| t in k.place && k.place[t] < PRIORITIES;
    assert ListOk(k, k.place[t]);
    assert k.bits[k.place[t]];
  }

  /** `taskSELECT_HIGHEST_PRIORITY_TASK`: the cursor of the highest list in use steps on. */
  ghost function Select(k: Tasks): (r: (Tasks, nat))
    requires Valid(k) && SomeReady(k)
  {
    SomeBit(k);
    var p := Highest(k.bits, PRIORITIES);
    assert ListOk(k, p);
    var ring := Step(k.lists[p]);
    (k.(lists := k.lists[p := ring]), Current(ring))
  }

  /** A context switch picks a ready task of maximal priority. */
  lemma SelectsMaximal(k: Tasks)
    requires Valid(k) && SomeReady(k)
    ensures var (k', t) := Select(k);
            && Valid(k')
            && t in k.place && k.place[t] == k.prio[t]
            && forall u :: u in k.place && k.place[u] < PRIORITIES ==> k.prio[u] <= k.prio[t]
  {
    SomeBit(k);
    var (k', t) := Select(k);
    var p := Highest(k.bits, PRIORITIES);
    assert ListOk(k, p);
    forall l | 0 <= l < LISTS
      ensures ListOk(k', l)
    {
      assert ListOk(k, l);
    }
    assert t in k.lists[p].items;
    forall u | u in k.place && k.place[u] < PRIORITIES
      ensures k.prio[u] <= k.prio[t]
    {
      assert ListOk(k, k.place[u]);
      assert k.bits[k.place[u]];
    }
  }

  /** Every task is on exactly one list, and if that is a ready list, on that of its own priority. */
  lemma ExactlyOneList(k: Tasks, t: nat)
    requires Valid(k) && t in k.prio
    ensures k.place[t] < LISTS && t in k.lists[k.place[t]].items
    ensures forall l :: 0 <= l < LISTS && l != k.place[t] ==> t !in k.lists[l].items
    ensures k.place[t] < PRIORITIES ==> k.place[t] == k.prio[t]
  {
    assert t in k.place;
    forall l | 0 <= l < LISTS
      ensures t in k.lists[l].items <==> l == k.place[t]
    {
      assert ListOk(k, l);
    }
  }

  // ----- runs

  /** `GivesUp` is the end of a wait for a mutex that t holds, `SwitchLists` the exchange of the delayed lists
      when the tick wraps. */
  datatype Change =
    | Blocks(t: nat, b: Blocking)
    | Wakes(t: nat)
    | Suspends(t: nat)
    | SetsPriority(t: nat, priority: nat)
    | Inherits(t: nat, priority: nat)
    | GivesBack(t: nat)
    | GivesUp(t: nat, waiting: nat)
    | SwitchLists
    | SwitchContext

  ghost predicate Enabled(k: Tasks, c: Change) {
    && Valid(k)
    && (!c.SwitchLists? && !c.SwitchContext? ==> c.t in k.place)
    && match c
       case Blocks(t, b) => CanBlock(k, t, b)
       case SetsPriority(_, p) => p < PRIORITIES
       case Inherits(_, p) => p < PRIORITIES
       case GivesBack(t) => k.place[t] < PRIORITIES && k.held[t] > 0
       case GivesUp(t, waiting) => waiting < PRIORITIES && !LeavesBit(k, t, waiting)
       case SwitchContext => SomeReady(k)
       case _ => true
  }

  ghost function Apply(k: Tasks, c: Change): Tasks
    requires Enabled(k, c)
  {
    match c
    case Blocks(t, b) => Block(k, t, b)
    case Wakes(t) => Unblock(k, t)
    case Suspends(t) => Suspend(k, t)
    case SetsPriority(t, p) => PrioritySet(k, t, p)
    case Inherits(t, p) => Inherit(k, t, p)
    case GivesBack(t) => Disinherit(k, t)
    case GivesUp(t, waiting) => AfterTimeout(k, t, waiting)
    case SwitchLists => k.(delayed := OtherDelayed(k.delayed))
    case SwitchContext => Select(k).0
  }

  lemma SwitchListsKeeps(k: Tasks)
    requires Valid(k)
    ensures Valid(k.(delayed := OtherDelayed(k.delayed)))
  {
    hide ListOk;
    SameLists(k, k.(delayed := OtherDelayed(k.delayed)));
  }

  lemma ApplyKeeps(k: Tasks, c: Change)
    requires Enabled(k, c)
    ensures Valid(Apply(k, c))
  {
    hide Valid, Block, Unblock, Suspend, PrioritySet, Inherit, Disinherit, AfterTimeout, LeavesBit, Select;
    match c
    case Blocks(t, b) => BlockKeeps(k, t, b);
    case Wakes(t) => UnblockKeeps(k, t);
    case Suspends(t) => SuspendKeeps(k, t);
    case SetsPriority(t, p) => PrioritySetKeeps(k, t, p);
    case Inherits(t, p) => InheritKeeps(k, t, p);
    case GivesBack(t) => DisinheritKeeps(k, t);
    case GivesUp(t, waiting) => AfterTimeoutKeepsIff(k, t, waiting);
    case SwitchLists => SwitchListsKeeps(k);
    case SwitchContext => SelectsMaximal(k);
  }

  ghost predicate Run(ks: seq<Tasks>, cs: seq<Change>) {
    && |ks| == |cs| + 1 && Valid(ks[0])
    && forall i :: 0 <= i < |cs| ==> Enabled(ks[i], cs[i]) && ks[i + 1] == Apply(ks[i], cs[i])
  }

  /** Through every run the lists partition the tasks and the bitmap tells which ready lists are in use, so
      that every context switch picks a ready task of maximal priority. */
  lemma {:induction false} RunPartitioned(ks: seq<Tasks>, cs: seq<Change>, n: nat)
    requires Run(ks, cs) && n <= |cs|
    ensures Valid(ks[n])
    ensures n < |cs| && cs[n] == SwitchContext ==>
              var t := Select(ks[n]).1;
              && t in ks[n].place && ks[n].place[t] == ks[n].prio[t]
              && forall u :: u in ks[n].place && ks[n].place[u] < PRIORITIES ==> ks[n].prio[u] <= ks[n].prio[t]
  {
    if n > 0 {
      RunPartitioned(ks, cs, n - 1);
      ApplyKeeps(ks[n - 1], cs[n - 1]);
      assert ks[n - 1 + 1] == Apply(ks[n - 1], cs[n - 1]);
    }
    if n < |cs| && cs[n] == SwitchContext {
      SelectsMaximal(ks[n]);
    }
  }

  // ----- a run that leaves a bit behind

  /** Where the tasks are, and their priorities, after the changes of the run. */
  lemma InheritMaps(k: Tasks, t: nat, p: nat)
    requires Valid(k) && t in k.place && k.place[t] == k.prio[t] < p < PRIORITIES
    ensures var k' := Inherit(k, t, p);
            k'.place == k.place[t := p] && k'.prio == k.prio[t := p] && k'.base == k.base && k'.held == k.held
  {
    UnreadyKeeps(k, t);
    assert (k.place - {t})[t := p] == k.place[t := p];
  }

  lemma BlockMaps(k: Tasks, t: nat, b: Blocking)
    requires CanBlock(k, t, b)
    ensures var k' := Block(k, t, b);
            k'.place == k.place[t := Target(k, b)] && k'.prio == k.prio && k'.base == k.base && k'.held == k.held
    ensures Block(k, t, b).delayed == k.delayed
  {
    UnreadyKeeps(k, t);
    assert (k.place - {t})[t := Target(k, b)] == k.place[t := Target(k, b)];
  }

  lemma UnblockMaps(k: Tasks, t: nat)
    requires Valid(k) && t in k.place
    ensures var k' := Unblock(k, t);
            && k'.place == k.place[t := k.prio[t]] && k'.prio == k.prio && k'.base == k.base && k'.held == k.held
            && k'.delayed == k.delayed
  {
    DetachKeeps(k, t);
    assert (k.place - {t})[t := k.prio[t]] == k.place[t := k.prio[t]];
  }

  lemma PrioritySetMaps(k: Tasks, t: nat, p: nat)
    requires Valid(k) && t in k.place && p < PRIORITIES && k.place[t] >= PRIORITIES && k.base[t] == k.prio[t] != p
    ensures var k' := PrioritySet(k, t, p);
            k'.place == k.place && k'.prio == k.prio[t := p] && k'.base == k.base[t := p] && k'.held == k.held
  {
  }

  lemma SelectMaps(k: Tasks)
    requires Valid(k) && SomeReady(k)
    ensures var k' := Select(k).0;
            && k'.place == k.place && k'.prio == k.prio && k'.base == k.base && k'.held == k.held
            && k'.delayed == k.delayed
  {
    SomeBit(k);
  }

  /** Task 0, of priority 1, holds a mutex; task 1, of priority 5, is about to ask for it. */
  ghost function TwoTasks(): Tasks {
    Tasks(seq(LISTS, l => if l == 1 then Ring([0], 0) else if l == 5 then Ring([1], 0) else Ring([], 0)),
          seq(PRIORITIES, p => p == 1 || p == 5), DELAYED_A,
          map[0 := 1, 1 := 5], map[0 := 1, 1 := 5], map[0 := 1, 1 := 5], map[0 := 1, 1 := 0])
  }

  lemma TwoTasksValid()
    ensures Valid(TwoTasks())
  {
    forall l | 0 <= l < LISTS
      ensures ListOk(TwoTasks(), l)
    {
    }
  }

  /** Task 1 runs, asks for the mutex with a time-out and blocks; task 0, which has inherited its priority,
      runs, and raises the priority of task 1 to 7; the time runs out, and task 1 runs again. */
  function RaisingChanges(): seq<Change> {
    [SwitchContext, Inherits(0, 5), Blocks(1, InDelayed(0)), SwitchContext, SetsPriority(1, 7), Wakes(1), SwitchContext]
  }

  /** Where the two tasks are, and with what priorities; the base priority of task 0 is 1. */
  ghost predicate At(k: Tasks, place0: nat, place1: nat, prio0: nat, prio1: nat) {
    && Valid(k) && k.place == map[0 := place0, 1 := place1]
    && k.prio == map[0 := prio0, 1 := prio1] && k.base == map[0 := 1, 1 := prio1] && k.held == map[0 := 1, 1 := 0]
  }

  lemma DistinctPair(s: seq<nat>, i: nat, j: nat)
    requires Distinct(s) && i < j < |s|
    ensures s[i] != s[j]
  {
  }

  lemma PlaceOf(k: Tasks, l: nat, i: nat)
    requires Placed(k) && l < LISTS && i < |k.lists[l].items|
    ensures k.lists[l].items[i] in k.place && k.place[k.lists[l].items[i]] == l
  {
    assert ListOk(k, l);
  }

  /** A list that no task is placed on is empty, and one that a single task is placed on has length 1. */
  lemma ListLength(k: Tasks, l: nat, t: nat)
    requires Placed(k) && l < LISTS && forall u :: u in k.place && k.place[u] == l ==> u == t
    ensures |k.lists[l].items| == if t in k.place && k.place[t] == l then 1 else 0
  {
    assert ListOk(k, l);
    var s := k.lists[l].items;
    if s != [] {
      PlaceOf(k, l, 0);
      if |s| > 1 {
        PlaceOf(k, l, 1);
        DistinctPair(s, 0, 1);
      }
    }
  }

  lemma Picked(k: Tasks, place0: nat, place1: nat, prio0: nat, prio1: nat)
    requires At(k, place0, place1, prio0, prio1) && place0 < PRIORITIES && prio0 != prio1
    ensures SomeReady(k) && At(Select(k).0, place0, place1, prio0, prio1)
    ensures Select(k).1 == if place1 < PRIORITIES && prio1 > prio0 then 1 else 0
  {
    assert k.place[0] < PRIORITIES;
    SelectsMaximal(k);
    SelectMaps(k);
    hide Select, ListOk, BitsRight;
  }

  lemma BlockRoom(k: Tasks)
    requires At(k, 5, 5, 5, 5)
    ensures CanBlock(k, 1, InDelayed(0)) && PRIORITIES <= k.delayed < LISTS
  {
  }

  lemma PickedHolder(k: Tasks, d: nat)
    requires At(k, 5, d, 5, 5) && d >= PRIORITIES
    ensures SomeReady(k) && At(Select(k).0, 5, d, 5, 5)
  {
    assert k.place[0] < PRIORITIES;
    SelectsMaximal(k);
    SelectMaps(k);
  }

  lemma FirstHalf() returns (ks: seq<Tasks>)
    ensures |ks| == 4 && ks[0] == TwoTasks() && At(ks[0], 1, 5, 1, 5)
    ensures forall i :: 0 <= i < 3 ==> Enabled(ks[i], RaisingChanges()[i]) && ks[i + 1] == Apply(ks[i], RaisingChanges()[i])
    ensures At(ks[1], 1, 5, 1, 5) && At(ks[2], 5, 5, 5, 5) && At(ks[3], 5, ks[2].delayed, 5, 5) && ks[2].delayed >= PRIORITIES
    ensures SomeReady(ks[0]) && Select(ks[0]).1 == 1
  {
    TwoTasksValid();
    hide Valid, Select, Inherit, Block, TwoTasks;
    var k0 := TwoTasks();
    TwoTasksAt();
    Picked(k0, 1, 5, 1, 5);
    var k1 := Apply(k0, SwitchContext);
    InheritKeeps(k1, 0, 5);
    InheritMaps(k1, 0, 5);
    var k2 := Apply(k1, Inherits(0, 5));
    BlockRoom(k2);
    BlockMaps(k2, 1, InDelayed(0));
    BlockKeeps(k2, 1, InDelayed(0));
    ks := [k0, k1, k2, Apply(k2, Blocks(1, InDelayed(0)))];
  }

  lemma TwoTasksAt()
    ensures At(TwoTasks(), 1, 5, 1, 5)
  {
    TwoTasksValid();
  }

  lemma SecondHalf(k3: Tasks, d: nat) returns (ks: seq<Tasks>)
    requires At(k3, 5, d, 5, 5) && d >= PRIORITIES
    ensures |ks| == 5 && ks[0] == k3
    ensures forall i :: 0 <= i < 4 ==> Enabled(ks[i], RaisingChanges()[3 + i]) && ks[i + 1] == Apply(ks[i], RaisingChanges()[3 + i])
    ensures At(ks[1], 5, d, 5, 5) && At(ks[2], 5, d, 5, 7) && At(ks[3], 5, 7, 5, 7) && At(ks[4], 5, 7, 5, 7)
    ensures SomeReady(ks[3]) && Select(ks[3]).1 == 1
  {
    hide Valid, Select, PrioritySet, Unblock;
    PickedHolder(k3, d);
    var k4 := Apply(k3, SwitchContext);
    PrioritySetKeeps(k4, 1, 7);
    PrioritySetMaps(k4, 1, 7);
    var k5 := Apply(k4, SetsPriority(1, 7));
    UnblockKeeps(k5, 1);
    UnblockMaps(k5, 1);
    var k6 := Apply(k5, Wakes(1));
    Picked(k6, 5, 7, 5, 7);
    ks := [k3, k4, k5, k6, Apply(k6, SwitchContext)];
  }

  /** The selection would come to an empty list, where the source stops on an assertion. */
  ghost predicate Stuck(k: Tasks) {
    && |k.lists| == LISTS && |k.bits| == PRIORITIES && (exists p :: 0 <= p < PRIORITIES && k.bits[p])
    && k.lists[Highest(k.bits, PRIORITIES)].items == []
  }

  /** The time-out of the running task's wait for a mutex of t spoils the bitmap, and when the running task
      then leaves its ready list the selection is stuck. */
  ghost predicate Stalls(k: Tasks, t: nat, running: nat) {
    && Valid(k) && t in k.place && LeavesBit(k, t, 0)
    && var k' := AfterTimeout(k, t, 0);
       && !Valid(k') && Placed(k') && running in k'.place && running in k'.prio && k'.prio[running] < PRIORITIES
       && Stuck(Unready(k', running, k'.prio[running]))
  }

  /** In this run the running task, whose wait has timed out, finds the holder alone on the list of the
      priority it inherited. The bit of that list stays set, and as soon as the task has left its own ready
      list, the selection comes to the empty one. */
  lemma RaisedWaiterStalls() returns (ks: seq<Tasks>)
    ensures Run(ks, RaisingChanges()) && ks[0] == TwoTasks() && |ks| == 8
    ensures SomeReady(ks[6]) && Valid(ks[6]) && Select(ks[6]).1 == 1
    ensures Stalls(ks[7], 0, 1)
  {
    hide Apply, Enabled, TwoTasks, Select, Placed, BitsRight, Stalls;
    var a := FirstHalf();
    var b := SecondHalf(a[3], a[2].delayed);
    ks := a + b[1..];
    HalvesRun(a, b, ks);
    StallsAt(ks[7]);
  }

  lemma HalvesRun(a: seq<Tasks>, b: seq<Tasks>, ks: seq<Tasks>)
    requires |a| == 4 && |b| == 5 && a[3] == b[0] && ks == a + b[1..] && Valid(a[0])
    requires forall i :: 0 <= i < 3 ==> Enabled(a[i], RaisingChanges()[i]) && a[i + 1] == Apply(a[i], RaisingChanges()[i])
    requires forall i :: 0 <= i < 4 ==> Enabled(b[i], RaisingChanges()[3 + i]) && b[i + 1] == Apply(b[i], RaisingChanges()[3 + i])
    ensures Run(ks, RaisingChanges())
  {
    hide Apply, Enabled, Valid;
    var cs := RaisingChanges();
    forall i | 0 <= i < |cs|
      ensures Enabled(ks[i], cs[i]) && ks[i + 1] == Apply(ks[i], cs[i])
    {
      if i >= 3 {
        var j := i - 3;
        assert ks[i] == b[j] && ks[i + 1] == b[j + 1] && cs[i] == cs[3 + j];
      }
    }
  }

  lemma StallsAt(k: Tasks)
    requires At(k, 5, 7, 5, 7)
    ensures Stalls(k, 0, 1)
  {
    ListLength(k, 5, 0);
    AfterTimeoutKeepsIff(k, 0, 0);
    TimedOut(k);
    hide AfterTimeout, Unready, AddReady, Placed, BitsRight;
    StuckAfter(AfterTimeout(k, 0, 0));
  }

  /** The holder has gone back to its base priority, and the bit of its old list is still set. */
  ghost predicate BitLeft(k: Tasks) {
    && Placed(k) && k.place == map[0 := 1, 1 := 7] && k.prio == map[0 := 1, 1 := 7]
    && k.bits[5] && forall p :: 0 <= p < PRIORITIES && p != 5 ==> (k.bits[p] <==> k.lists[p].items != [])
  }

  lemma TimedOut(k: Tasks)
    requires At(k, 5, 7, 5, 7)
    ensures 0 in k.place && BitLeft(AfterTimeout(k, 0, 0))
  {
    hide ListOk, AddReady, Unready;
    MovedBits(k, 0, 1);
    WrongBitPlaced(k, 0, 1);
    AddReadyMaps(Unready(k, 0, 1).(prio := k.prio[0 := 1]), 0);
    assert (k.place - {0})[0 := 1] == map[0 := 1, 1 := 7];
    assert k.prio[0 := 1] == map[0 := 1, 1 := 7];
  }

  lemma StuckAfter(k: Tasks)
    requires BitLeft(k)
    ensures Placed(k) && 1 in k.place && Stuck(Unready(k, 1, 7))
  {
    DetachKeeps(k, 1);
    ListLength(k, 7, 1);
    ListLength(k, 5, 2);
    ListLength(k, 6, 2);
    ListLength(k, 8, 2);
    ListLength(k, 9, 2);
    hide ListOk;
    var k' := Unready(k, 1, 7);
    assert k'.bits[5] && !k'.bits[6] && !k'.bits[7] && !k'.bits[8] && !k'.bits[9];
  }
}
