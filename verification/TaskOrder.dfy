/** What the scheduler's lists stand for: how each task is, and for each priority whose turn it is. */
module TaskOrder {
  import opened Rings
  import opened TaskLists

  /** A task may be ready to run, wait for a time before the tick wraps or for one after that, or wait for ever
      or be suspended. */
  datatype Mode = Ready | Waiting | WaitingLater | Suspended

  datatype Status = Status(mode: Mode, prio: nat, base: nat, held: nat)

  function ModeOf(place: nat, current: nat): Mode {
    if place < PRIORITIES then Ready else if place == SUSPENDED then Mode.Suspended
    else if place == current then Waiting else WaitingLater
  }

  ghost function StatusOf(k: Tasks, t: nat): Status
    requires Placed(k) && t in k.place
  {
    Status(ModeOf(k.place[t], k.delayed), k.prio[t], k.base[t], k.held[t])
  }

  /** What a change makes of a task that it is for. */
  function Changed(s: Status, c: Change): Status {
    match c
    case Blocks(_, b) =>
      s.(mode := if b.Forever? then Mode.Suspended else if b.InDelayed? then Waiting else WaitingLater)
    case Wakes(_) => s.(mode := Ready)
    case Suspends(_) => s.(mode := Mode.Suspended)
    case SetsPriority(_, p) => s.(prio := if s.prio == s.base then p else s.prio, base := p)
    case Inherits(_, p) => s.(prio := if s.prio < p then p else s.prio)
    case GivesBack(_) =>
      s.(held := if s.held > 0 then s.held - 1 else 0, prio := if s.held == 1 then s.base else s.prio)
    case GivesUp(_, waiting) => s.(prio := if s.held != 1 then s.prio else if s.base < waiting then waiting else s.base)
    case SwitchLists =>
      s.(mode := if s.mode == Waiting then WaitingLater else if s.mode == WaitingLater then Waiting else s.mode)
    case SwitchContext => s
  }

  /** The exchange of the delayed lists is for all of them. */
  predicate For(c: Change, t: nat) {
    c.SwitchLists? || (!c.SwitchContext? && c.t == t)
  }

  /** The maps after a change of task t: its own entries alone may differ. */
  ghost predicate OnlyOf(k: Tasks, k': Tasks, t: nat) {
    && k'.delayed == k.delayed && k'.place.Keys == k.place.Keys && k'.prio.Keys == k.prio.Keys
    && k'.base.Keys == k.base.Keys && k'.held.Keys == k.held.Keys
    && (forall u :: u in k.place && u != t ==> k'.place[u] == k.place[u])
    && (forall u :: u in k.prio && u != t ==> k'.prio[u] == k.prio[u])
    && (forall u :: u in k.base && u != t ==> k'.base[u] == k.base[u])
    && (forall u :: u in k.held && u != t ==> k'.held[u] == k.held[u])
  }

  lemma BlockStatus(k: Tasks, t: nat, b: Blocking)
    requires CanBlock(k, t, b)
    ensures Valid(Block(k, t, b)) && OnlyOf(k, Block(k, t, b), t)
    ensures StatusOf(Block(k, t, b), t) == Changed(StatusOf(k, t), Blocks(t, b))
  {
    BlockKeeps(k, t, b);
    BlockMaps(k, t, b);
    hide Block, ListOk, BitsRight;
  }

  lemma WakeStatus(k: Tasks, t: nat)
    requires Valid(k) && t in k.place
    ensures Valid(Unblock(k, t)) && OnlyOf(k, Unblock(k, t), t)
    ensures StatusOf(Unblock(k, t), t) == Changed(StatusOf(k, t), Wakes(t))
  {
    UnblockKeeps(k, t);
    UnblockMaps(k, t);
    hide Unblock, ListOk, BitsRight;
  }

  lemma SuspendStatus(k: Tasks, t: nat)
    requires Valid(k) && t in k.place
    ensures Valid(Suspend(k, t)) && OnlyOf(k, Suspend(k, t), t)
    ensures StatusOf(Suspend(k, t), t) == Changed(StatusOf(k, t), Suspends(t))
  {
    SuspendKeeps(k, t);
    SuspendedUnready(k, t);
    hide ListOk, BitsRight, Detach;
  }

  /** Taken off its list, with these priorities and mutexes. */
  ghost predicate OffAs(k: Tasks, k1: Tasks, t: nat, prio: nat, base: nat, held: nat)
    requires Placed(k) && t in k.place
  {
    && Placed(k1) && k1.delayed == k.delayed && k1.place == k.place - {t} && k.place.Keys == k.prio.Keys
    && k1.prio == k.prio[t := prio] && k1.base == k.base[t := base] && k1.held == k.held[t := held]
  }

  lemma OffMoves(k: Tasks, k1: Tasks, t: nat, prio: nat, base: nat, held: nat)
    requires Placed(k) && t in k.place && OffAs(k, k1, t, prio, base, held)
    ensures t in k1.prio && OnlyOf(k, AddReady(k1, t), t)
    ensures var k' := AddReady(k1, t);
            && t in k'.place && t in k'.prio && t in k'.base && t in k'.held
            && k'.place[t] == prio < PRIORITIES && k'.prio[t] == prio && k'.base[t] == base && k'.held[t] == held
  {
    hide ListOk, AddReady;
    OffPriority(k1, t);
    AddReadyMaps(k1, t);
    OffMaps(k, AddReady(k1, t), t, prio, base, held);
  }

  lemma OffPriority(k1: Tasks, t: nat)
    requires Placed(k1) && t in k1.prio
    ensures k1.prio[t] < PRIORITIES
  {
  }

  lemma OffMaps(k: Tasks, k': Tasks, t: nat, prio: nat, base: nat, held: nat)
    requires t in k.place && t in k.prio && t in k.base && t in k.held
    requires k'.delayed == k.delayed && k'.place == (k.place - {t})[t := prio] && k'.prio == k.prio[t := prio]
    requires k'.base == k.base[t := base] && k'.held == k.held[t := held]
    ensures OnlyOf(k, k', t)
  {
  }

  lemma PriorityOff(k: Tasks, t: nat, p: nat) returns (k1: Tasks)
    requires Valid(k) && t in k.place && p < PRIORITIES && k.base[t] != p && k.place[t] == k.prio[t]
    ensures OffAs(k, k1, t, if k.prio[t] == k.base[t] then p else k.prio[t], p, k.held[t])
    ensures t in k1.prio && PrioritySet(k, t, p) == AddReady(k1, t)
  {
    hide ListOk, BitsRight, Unready, AddReady;
    UnreadyKeeps(k, t);
    PriorityKeeps(Unready(k, t, k.prio[t]), t, p);
    k1 := WithPriority(Unready(k, t, k.prio[t]), t, p);
    SameEntry(k.prio, t);
    SameEntry(k.held, t);
  }

  lemma SameEntry(m: map<nat, nat>, t: nat)
    requires t in m
    ensures m[t := m[t]] == m
  {
  }

  lemma PriorityStays(k: Tasks, t: nat, p: nat)
    requires Valid(k) && t in k.place && p < PRIORITIES && (k.base[t] == p || k.place[t] != k.prio[t])
    ensures OnlyOf(k, PrioritySet(k, t, p), t) && Placed(PrioritySet(k, t, p))
    ensures StatusOf(PrioritySet(k, t, p), t) == Changed(StatusOf(k, t), SetsPriority(t, p))
  {
    hide ListOk, BitsRight, AddReady, Unready;
    PrioritySetKeeps(k, t, p);
  }

  lemma PriorityStatus(k: Tasks, t: nat, p: nat)
    requires Valid(k) && t in k.place && p < PRIORITIES
    ensures Valid(PrioritySet(k, t, p)) && OnlyOf(k, PrioritySet(k, t, p), t)
    ensures StatusOf(PrioritySet(k, t, p), t) == Changed(StatusOf(k, t), SetsPriority(t, p))
  {
    hide PrioritySet, OnlyOf, OffAs, ListOk, BitsRight, AddReady, Unready;
    PrioritySetKeeps(k, t, p);
    if k.base[t] != p && k.place[t] == k.prio[t] {
      var k1 := PriorityOff(k, t, p);
      OffMoves(k, k1, t, if k.prio[t] == k.base[t] then p else k.prio[t], p, k.held[t]);
    } else {
      PriorityStays(k, t, p);
    }
  }

  lemma InheritOff(k: Tasks, t: nat, p: nat) returns (k1: Tasks)
    requires Valid(k) && t in k.place && k.prio[t] < p < PRIORITIES && k.place[t] == k.prio[t]
    ensures OffAs(k, k1, t, p, k.base[t], k.held[t])
    ensures t in k1.prio && Inherit(k, t, p) == AddReady(k1, t)
  {
    hide ListOk, BitsRight, Unready, AddReady;
    UnreadyKeeps(k, t);
    InheritKept(Unready(k, t, k.prio[t]), t, p);
    k1 := Unready(k, t, k.prio[t]);
    k1 := k1.(prio := k1.prio[t := p]);
    SameEntry(k.base, t);
    SameEntry(k.held, t);
  }

  lemma InheritStays(k: Tasks, t: nat, p: nat)
    requires Valid(k) && t in k.place && p < PRIORITIES && (k.prio[t] >= p || k.place[t] != k.prio[t])
    ensures OnlyOf(k, Inherit(k, t, p), t) && Placed(Inherit(k, t, p))
    ensures StatusOf(Inherit(k, t, p), t) == Changed(StatusOf(k, t), Inherits(t, p))
  {
    hide ListOk, BitsRight, AddReady, Unready;
    InheritKeeps(k, t, p);
  }

  lemma InheritStatus(k: Tasks, t: nat, p: nat)
    requires Valid(k) && t in k.place && p < PRIORITIES
    ensures Valid(Inherit(k, t, p)) && OnlyOf(k, Inherit(k, t, p), t)
    ensures StatusOf(Inherit(k, t, p), t) == Changed(StatusOf(k, t), Inherits(t, p))
  {
    hide Inherit, OnlyOf, OffAs, ListOk, BitsRight, AddReady, Unready;
    InheritKeeps(k, t, p);
    if k.prio[t] < p && k.place[t] == k.prio[t] {
      var k1 := InheritOff(k, t, p);
      OffMoves(k, k1, t, p, k.base[t], k.held[t]);
    } else {
      InheritStays(k, t, p);
    }
  }

  lemma DisinheritOff(k: Tasks, t: nat) returns (k1: Tasks)
    requires Valid(k) && t in k.place && k.place[t] < PRIORITIES && k.held[t] == 1 && k.prio[t] != k.base[t]
    ensures OffAs(k, k1, t, k.base[t], k.base[t], 0)
    ensures t in k1.prio && Disinherit(k, t) == AddReady(k1, t)
  {
    hide ListOk, BitsRight, Unready, AddReady;
    var k0 := k.(held := k.held[t := 0]);
    HeldKeeps(k, t, 0);
    UnreadyKeeps(k0, t);
    k1 := Unready(k0, t, k.prio[t]);
    InheritKept(k1, t, k.base[t]);
    k1 := k1.(prio := k1.prio[t := k1.base[t]]);
    SameEntry(k.base, t);
  }

  lemma DisinheritStays(k: Tasks, t: nat)
    requires Valid(k) && t in k.place && k.place[t] < PRIORITIES && k.held[t] > 0
    requires k.prio[t] == k.base[t] || k.held[t] != 1
    ensures OnlyOf(k, Disinherit(k, t), t) && Placed(Disinherit(k, t))
    ensures StatusOf(Disinherit(k, t), t) == Changed(StatusOf(k, t), GivesBack(t))
  {
    hide ListOk, BitsRight, Unready, AddReady;
    DisinheritKeeps(k, t);
  }

  lemma DisinheritStatus(k: Tasks, t: nat)
    requires Valid(k) && t in k.place && k.place[t] < PRIORITIES && k.held[t] > 0
    ensures Valid(Disinherit(k, t)) && OnlyOf(k, Disinherit(k, t), t)
    ensures StatusOf(Disinherit(k, t), t) == Changed(StatusOf(k, t), GivesBack(t))
  {
    hide Disinherit, OnlyOf, OffAs, ListOk, BitsRight, AddReady, Unready;
    DisinheritKeeps(k, t);
    if k.prio[t] != k.base[t] && k.held[t] == 1 {
      var k1 := DisinheritOff(k, t);
      OffMoves(k, k1, t, k.base[t], k.base[t], 0);
    } else {
      DisinheritStays(k, t);
    }
  }

  lemma AfterTimeoutOff(k: Tasks, t: nat, waiting: nat) returns (k1: Tasks)
    requires Valid(k) && t in k.place && waiting < PRIORITIES && Reverts(k, t, waiting) && k.place[t] == k.prio[t]
    ensures OffAs(k, k1, t, Wanted(k, t, waiting), k.base[t], k.held[t])
    ensures t in k1.prio && AfterTimeout(k, t, waiting) == AddReady(k1, t)
  {
    hide ListOk, BitsRight, Unready, AddReady;
    var wanted := Wanted(k, t, waiting);
    WrongBitPlaced(k, t, wanted);
    k1 := Unready(k, t, wanted).(prio := k.prio[t := wanted]);
    SameEntry(k.base, t);
    SameEntry(k.held, t);
  }

  lemma AfterTimeoutStays(k: Tasks, t: nat, waiting: nat)
    requires Valid(k) && t in k.place && waiting < PRIORITIES && (!Reverts(k, t, waiting) || k.place[t] != k.prio[t])
    ensures OnlyOf(k, AfterTimeout(k, t, waiting), t) && Placed(AfterTimeout(k, t, waiting))
    ensures StatusOf(AfterTimeout(k, t, waiting), t) == Changed(StatusOf(k, t), GivesUp(t, waiting))
  {
    hide ListOk, BitsRight, Unready, AddReady;
    AfterTimeoutKeepsIff(k, t, waiting);
  }

  /** Also when it leaves a bit behind. */
  lemma AfterTimeoutStatus(k: Tasks, t: nat, waiting: nat)
    requires Valid(k) && t in k.place && waiting < PRIORITIES
    ensures Placed(AfterTimeout(k, t, waiting)) && OnlyOf(k, AfterTimeout(k, t, waiting), t)
    ensures StatusOf(AfterTimeout(k, t, waiting), t) == Changed(StatusOf(k, t), GivesUp(t, waiting))
  {
    hide AfterTimeout, OnlyOf, OffAs, ListOk, BitsRight, AddReady, Unready;
    AfterTimeoutKeepsIff(k, t, waiting);
    if Reverts(k, t, waiting) && k.place[t] == k.prio[t] {
      var k1 := AfterTimeoutOff(k, t, waiting);
      OffMoves(k, k1, t, Wanted(k, t, waiting), k.base[t], k.held[t]);
    } else {
      AfterTimeoutStays(k, t, waiting);
    }
  }

  /** The lists refine a plain table of tasks: each operation changes the state and the priorities of the task
      it is for as they are meant to be, and those of no other. */
  lemma ApplyMeans(k: Tasks, c: Change, t: nat)
    requires Enabled(k, c) && t in k.place
    ensures Valid(Apply(k, c)) && t in Apply(k, c).place
    ensures StatusOf(Apply(k, c), t) == if For(c, t) then Changed(StatusOf(k, t), c) else StatusOf(k, t)
  {
    hide Block, Unblock, Suspend, PrioritySet, Inherit, Disinherit, AfterTimeout, LeavesBit, Select, ListOk, BitsRight;
    match c
    case Blocks(u, b) => BlockStatus(k, u, b);
    case Wakes(u) => WakeStatus(k, u);
    case Suspends(u) => SuspendStatus(k, u);
    case SetsPriority(u, p) => PriorityStatus(k, u, p);
    case Inherits(u, p) => InheritStatus(k, u, p);
    case GivesBack(u) => DisinheritStatus(k, u);
    case GivesUp(u, waiting) =>
      AfterTimeoutKeepsIff(k, u, waiting);
      AfterTimeoutStatus(k, u, waiting);
    case SwitchLists => SwitchListsKeeps(k);
    case SwitchContext =>
      SelectsMaximal(k);
      SelectMaps(k);
  }

  // ----- whose turn it is

  /** The tasks ready at priority p, the next to run first. */
  ghost function Turns(k: Tasks, p: nat): seq<nat>
    requires Placed(k) && p < PRIORITIES
  {
    assert ListOk(k, p);
    Upcoming(k.lists[p])
  }

  function Less(u: seq<nat>, t: nat): seq<nat> {
    if u == [] then [] else (if u[0] == t then [] else [u[0]]) + Less(u[1..], t)
  }

  lemma LessCons(x: nat, u: seq<nat>, t: nat)
    ensures Less([x] + u, t) == (if x == t then [] else [x]) + Less(u, t)
  {
    assert ([x] + u)[1..] == u;
  }

  lemma LessEmpty(t: nat)
    ensures Less([], t) == []
  {
  }

  lemma {:induction false} LessAppend(a: seq<nat>, b: seq<nat>, t: nat)
    ensures Less(a + b, t) == Less(a, t) + Less(b, t)
  {
    hide Less;
    if a == [] {
      LessEmpty(t);
      assert a + b == b;
    } else {
      var rest := a[1..];
      LessAppend(rest, b, t);
      assert a == [a[0]] + rest && a + b == [a[0]] + (rest + b);
      LessCons(a[0], rest, t);
      LessCons(a[0], rest + b, t);
    }
  }

  lemma {:induction false} LessHas(u: seq<nat>, t: nat)
    ensures forall x :: x in Less(u, t) <==> x in u && x != t
  {
    if u != [] {
      LessHas(u[1..], t);
      assert u == [u[0]] + u[1..];
    }
  }

  lemma LessOne(t: nat)
    ensures Less([t], t) == []
  {
    assert [t][1..] == [];
  }

  lemma {:induction false} LessNone(u: seq<nat>, t: nat)
    requires t !in u
    ensures Less(u, t) == u
  {
    if u != [] {
      LessNone(u[1..], t);
      assert u == [u[0]] + u[1..];
    }
  }

  /** It has come behind all the others but the one whose turn it is at present. */
  ghost predicate Joined(u: seq<nat>, u': seq<nat>, t: nat) {
    u' == u + [t] || (u != [] && u' == u[..|u| - 1] + [t] + [u[|u| - 1]])
  }

  /** The order of turn at priority p, but for task t. */
  ghost predicate SameTurns(k: Tasks, k': Tasks, t: nat, p: nat)
    requires Placed(k) && Placed(k') && p < PRIORITIES
  {
    && Less(Turns(k', p), t) == Less(Turns(k, p), t)
    && (t in Turns(k', p) && t !in Turns(k, p) ==> Joined(Turns(k, p), Turns(k', p), t))
  }

  lemma TurnsHas(k: Tasks, p: nat, t: nat)
    requires Placed(k) && p < PRIORITIES
    ensures t in Turns(k, p) <==> t in k.place && k.place[t] == p
  {
    assert ListOk(k, p);
    var r := k.lists[p];
    assert r.items == r.items[..r.at] + r.items[r.at..];
  }

  lemma SameList(k: Tasks, k': Tasks, t: nat, p: nat)
    requires Placed(k) && Placed(k') && p < PRIORITIES && k'.lists[p] == k.lists[p]
    ensures SameTurns(k, k', t, p)
  {
  }

  /** Taken off its list. */
  lemma DetachTurns(k: Tasks, t: nat, p: nat)
    requires Placed(k) && t in k.place && p < PRIORITIES
    ensures t in k.lists[k.place[t]].items && k.lists[k.place[t]].at <= |k.lists[k.place[t]].items|
    ensures Placed(Detach(k, t)) && Turns(Detach(k, t), p) == Less(Turns(k, p), t)
  {
    DetachKeeps(k, t);
    hide Less, Upcoming;
    if p == k.place[t] {
      TurnsHas(Detach(k, t), p, t);
      var j := RemovedTurn(k, t);
      hide ListOk, Detach, Turns;
      LessAt(Turns(k, p), j, t);
    } else {
      TurnsHas(k, p, t);
      LessNone(Turns(k, p), t);
    }
  }

  lemma RemovedTurn(k: Tasks, t: nat) returns (j: nat)
    requires Placed(k) && t in k.place && k.place[t] < PRIORITIES
    requires t in k.lists[k.place[t]].items && k.lists[k.place[t]].at <= |k.lists[k.place[t]].items|
    requires Placed(Detach(k, t))
    ensures var u := Turns(k, k.place[t]);
            j < |u| && u[j] == t && Turns(Detach(k, t), k.place[t]) == u[..j] + u[j + 1..]
  {
    hide ListOk;
    var r := k.lists[k.place[t]];
    var i := IndexIn(r.items, t);
    RemoveKeepsOrder(r, i);
    j := if i < r.at then |r.items| - r.at + i else i - r.at;
  }

  lemma LessAt(u: seq<nat>, j: nat, t: nat)
    requires j < |u| && u[j] == t && t !in u[..j] + u[j + 1..]
    ensures Less(u, t) == u[..j] + u[j + 1..]
  {
    hide Less;
    var a, b := u[..j], u[j + 1..];
    assert u == a + ([t] + b);
    LessAppend(a, [t] + b, t);
    LessCons(t, b, t);
    LessNone(a, t);
    LessNone(b, t);
  }

  lemma AddTurns(k: Tasks, t: nat, p: nat)
    requires Placed(k) && t in k.prio && t !in k.place && p < PRIORITIES
    ensures Placed(AddReady(k, t)) && SameTurns(k, AddReady(k, t), t, p)
  {
    AddReadyKeeps(k, t);
    var k' := AddReady(k, t);
    if p == k.prio[t] {
      AddedJoins(k, t);
      TurnsHas(k, p, t);
      hide ListOk, AddReady, Turns, Joined;
      JoinedLess(Turns(k, p), Turns(k', p), t);
    } else {
      SameList(k, k', t, p);
    }
  }

  lemma AddedJoins(k: Tasks, t: nat)
    requires Placed(k) && t in k.prio && t !in k.place && Placed(AddReady(k, t))
    ensures Joined(Turns(k, k.prio[t]), Turns(AddReady(k, t), k.prio[t]), t)
  {
    var r := k.lists[k.prio[t]];
    assert ListOk(k, k.prio[t]);
    InsertEndComesLast(r, t);
    hide InsertEnd;
    if r.at > 0 {
      assert Upcoming(r)[|r.items| - 1] == Current(r);
    }
  }

  lemma JoinedLess(u: seq<nat>, u': seq<nat>, t: nat)
    requires t !in u && Joined(u, u', t)
    ensures Less(u', t) == Less(u, t)
  {
    hide Less;
    LessNone(u, t);
    LessOne(t);
    if u' == u + [t] {
      LessAppend(u, [t], t);
    } else {
      var n := |u| - 1;
      LessAppend(u[..n] + [t], [u[n]], t);
      LessAppend(u[..n], [t], t);
      LessAppend(u[..n], [u[n]], t);
      assert u == u[..n] + [u[n]];
    }
  }

  /** Off one list and on to another. */
  lemma MovedTurns(k: Tasks, k1: Tasks, t: nat, p: nat)
    requires Placed(k) && t in k.place && Placed(k1) && t !in k1.place && t in k1.prio && p < PRIORITIES
    requires t in k.lists[k.place[t]].items && k.lists[k.place[t]].at <= |k.lists[k.place[t]].items|
    requires k1.lists == Detach(k, t).lists
    ensures Placed(AddReady(k1, t)) && SameTurns(k, AddReady(k1, t), t, p)
  {
    hide AddReady, Detach, Joined, ListOk;
    DetachTurns(k, t, p);
    AddTurns(k1, t, p);
    TurnsSame(Detach(k, t), k1, p);
    LessTwice(Turns(k, p), t);
    if t !in Turns(k, p) {
      LessNone(Turns(k, p), t);
    }
  }

  lemma TurnsSame(k: Tasks, k': Tasks, p: nat)
    requires Placed(k) && Placed(k') && p < PRIORITIES && k'.lists == k.lists
    ensures Turns(k', p) == Turns(k, p)
  {
  }

  lemma LessTwice(u: seq<nat>, t: nat)
    ensures Less(Less(u, t), t) == Less(u, t)
  {
    LessHas(u, t);
    LessNone(Less(u, t), t);
  }

  /** Off its list for one that is no ready list. */
  lemma ParkedTurns(k: Tasks, k': Tasks, t: nat, p: nat)
    requires Placed(k) && t in k.place && Placed(k') && p < PRIORITIES
    requires t in k.lists[k.place[t]].items && k.lists[k.place[t]].at <= |k.lists[k.place[t]].items|
    requires k'.lists[p] == Detach(k, t).lists[p]
    ensures SameTurns(k, k', t, p)
  {
    DetachTurns(k, t, p);
    LessTwice(Turns(k, p), t);
    assert Turns(k', p) == Turns(Detach(k, t), p);
  }

  lemma UnreadyLists(k: Tasks, t: nat, p: nat)
    requires Placed(k) && t in k.place && p < PRIORITIES
    ensures t in k.lists[k.place[t]].items && k.lists[k.place[t]].at <= |k.lists[k.place[t]].items|
    ensures Unready(k, t, p).lists == Detach(k, t).lists
  {
    DetachKeeps(k, t);
  }

  lemma BlockTurns(k: Tasks, t: nat, b: Blocking, p: nat)
    requires CanBlock(k, t, b) && p < PRIORITIES
    ensures Valid(Block(k, t, b)) && SameTurns(k, Block(k, t, b), t, p)
  {
    BlockKeeps(k, t, b);
    UnreadyKeeps(k, t);
    UnreadyLists(k, t, k.prio[t]);
    hide Unready, Detach, ListOk, BitsRight, SameTurns;
    ParkedTurns(k, Block(k, t, b), t, p);
  }

  lemma SuspendTurns(k: Tasks, t: nat, p: nat)
    requires Valid(k) && t in k.place && p < PRIORITIES
    ensures Valid(Suspend(k, t)) && SameTurns(k, Suspend(k, t), t, p)
  {
    SuspendKeeps(k, t);
    DetachKeeps(k, t);
    hide Detach, ListOk, BitsRight, SameTurns;
    ParkedTurns(k, Suspend(k, t), t, p);
  }

  lemma WakeTurns(k: Tasks, t: nat, p: nat)
    requires Valid(k) && t in k.place && p < PRIORITIES
    ensures Valid(Unblock(k, t)) && SameTurns(k, Unblock(k, t), t, p)
  {
    UnblockKeeps(k, t);
    DetachKeeps(k, t);
    DetachGone(k, t);
    hide Detach, ListOk, BitsRight, SameTurns, AddReady;
    MovedTurns(k, Detach(k, t), t, p);
  }

  lemma DetachGone(k: Tasks, t: nat)
    requires Placed(k) && t in k.place && t in k.lists[k.place[t]].items
    requires k.lists[k.place[t]].at <= |k.lists[k.place[t]].items|
    ensures t !in Detach(k, t).place && Detach(k, t).prio == k.prio
  {
  }

  lemma PriorityTurns(k: Tasks, t: nat, priority: nat, p: nat)
    requires Valid(k) && t in k.place && priority < PRIORITIES && p < PRIORITIES
    ensures Valid(PrioritySet(k, t, priority)) && SameTurns(k, PrioritySet(k, t, priority), t, p)
  {
    PrioritySetKeeps(k, t, priority);
    if k.base[t] != priority && k.place[t] == k.prio[t] {
      UnreadyKeeps(k, t);
      UnreadyLists(k, t, k.prio[t]);
      var k1 := Unready(k, t, k.prio[t]);
      PriorityKeeps(k1, t, priority);
      hide ListOk, BitsRight, Unready, AddReady, Detach, SameTurns;
      MovedTurns(k, WithPriority(k1, t, priority), t, p);
    } else {
      SameList(k, PrioritySet(k, t, priority), t, p);
    }
  }

  lemma InheritTurns(k: Tasks, t: nat, priority: nat, p: nat)
    requires Valid(k) && t in k.place && priority < PRIORITIES && p < PRIORITIES
    ensures Valid(Inherit(k, t, priority)) && SameTurns(k, Inherit(k, t, priority), t, p)
  {
    InheritKeeps(k, t, priority);
    if k.prio[t] < priority && k.place[t] == k.prio[t] {
      UnreadyKeeps(k, t);
      UnreadyLists(k, t, k.prio[t]);
      var k1 := Unready(k, t, k.prio[t]);
      InheritKept(k1, t, priority);
      hide ListOk, BitsRight, Unready, AddReady, Detach, SameTurns;
      MovedTurns(k, k1.(prio := k1.prio[t := priority]), t, p);
    } else {
      SameList(k, Inherit(k, t, priority), t, p);
    }
  }

  lemma DisinheritTurns(k: Tasks, t: nat, p: nat)
    requires Valid(k) && t in k.place && k.place[t] < PRIORITIES && k.held[t] > 0 && p < PRIORITIES
    ensures Valid(Disinherit(k, t)) && SameTurns(k, Disinherit(k, t), t, p)
  {
    hide ListOk, BitsRight, Unready, AddReady, Detach, SameTurns;
    DisinheritKeeps(k, t);
    var k0 := k.(held := k.held[t := k.held[t] - 1]);
    HeldKeeps(k, t, k.held[t] - 1);
    if k.prio[t] != k.base[t] && k0.held[t] == 0 {
      UnreadyKeeps(k0, t);
      UnreadyLists(k0, t, k.prio[t]);
      var k1 := Unready(k0, t, k.prio[t]);
      InheritKept(k1, t, k.base[t]);
      HeldTurns(k, k0, AddReady(k1.(prio := k1.prio[t := k1.base[t]]), t), t, p);
      MovedTurns(k0, k1.(prio := k1.prio[t := k1.base[t]]), t, p);
    } else {
      SameList(k, k0, t, p);
    }
  }

  lemma HeldTurns(k: Tasks, k0: Tasks, k': Tasks, t: nat, p: nat)
    requires Placed(k) && Placed(k0) && k0.lists == k.lists && p < PRIORITIES
    ensures Placed(k') && SameTurns(k0, k', t, p) ==> SameTurns(k, k', t, p)
  {
    TurnsSame(k, k0, p);
    hide Turns;
  }

  lemma AfterTimeoutTurns(k: Tasks, t: nat, waiting: nat, p: nat)
    requires Valid(k) && t in k.place && waiting < PRIORITIES && p < PRIORITIES
    ensures Placed(AfterTimeout(k, t, waiting)) && SameTurns(k, AfterTimeout(k, t, waiting), t, p)
  {
    AfterTimeoutKeepsIff(k, t, waiting);
    var wanted := Wanted(k, t, waiting);
    if Reverts(k, t, waiting) && k.place[t] == k.prio[t] {
      WrongBitPlaced(k, t, wanted);
      UnreadyLists(k, t, wanted);
      hide ListOk, BitsRight, Unready, AddReady, Detach, SameTurns;
      MovedTurns(k, Unready(k, t, wanted).(prio := k.prio[t := wanted]), t, p);
    } else {
      SameList(k, AfterTimeout(k, t, waiting), t, p);
    }
  }

  lemma SelectTurns(k: Tasks, p: nat)
    requires Valid(k) && SomeReady(k) && p < PRIORITIES
    ensures var (k', t) := Select(k);
            && Valid(k') && t in k.place
            && if p == k.place[t] then Turns(k, p) != [] && t == Turns(k, p)[0] && Turns(k', p) == Turns(k, p)[1..] + [t]
               else Turns(k', p) == Turns(k, p)
  {
    SelectsMaximal(k);
    SomeBit(k);
    var h := Highest(k.bits, PRIORITIES);
    assert ListOk(k, h);
    StepRotates(k.lists[h]);
    TurnsHas(k, h, Select(k).1);
    hide BitsRight, Highest;
  }

  /** The order of turn. Whatever is done to a task, the others of each priority keep theirs, and a task that
      comes to a priority gets its turn after all that were there, but the one that has it. A context switch
      gives the turn to the first of the highest priority and puts it last. */
  lemma TurnsAfter(k: Tasks, c: Change, p: nat)
    requires Enabled(k, c) && p < PRIORITIES
    ensures Valid(Apply(k, c))
    ensures match c
            case SwitchContext =>
              var t := Select(k).1;
              && t in k.place
              && if p == k.place[t]
                 then Turns(k, p) != [] && t == Turns(k, p)[0] && Turns(Apply(k, c), p) == Turns(k, p)[1..] + [t]
                 else Turns(Apply(k, c), p) == Turns(k, p)
            case SwitchLists => Turns(Apply(k, c), p) == Turns(k, p)
            case _ => SameTurns(k, Apply(k, c), c.t, p)
  {
    hide Block, Unblock, Suspend, PrioritySet, Inherit, Disinherit, AfterTimeout, LeavesBit, Select, ListOk, BitsRight;
    hide SameTurns;
    match c
    case Blocks(u, b) => BlockTurns(k, u, b, p);
    case Wakes(u) => WakeTurns(k, u, p);
    case Suspends(u) => SuspendTurns(k, u, p);
    case SetsPriority(u, q) => PriorityTurns(k, u, q, p);
    case Inherits(u, q) => InheritTurns(k, u, q, p);
    case GivesBack(u) => DisinheritTurns(k, u, p);
    case GivesUp(u, waiting) =>
      AfterTimeoutKeepsIff(k, u, waiting);
      AfterTimeoutTurns(k, u, waiting, p);
    case SwitchLists => SwitchListsKeeps(k);
    case SwitchContext => SelectTurns(k, p);
  }

  // ----- inherited priorities over runs

  /** The task uses its base priority unless it holds a mutex. */
  ghost predicate OwnUnlessHolding(k: Tasks, t: nat)
    requires Placed(k) && t in k.place
  {
    k.held[t] == 0 ==> k.prio[t] == k.base[t]
  }

  /** Only a holder inherits, as when `xTaskPriorityInherit` is called for a mutex's holder. */
  ghost predicate ForHolders(k: Tasks, c: Change)
    requires Enabled(k, c)
  {
    c.Inherits? ==> k.held[c.t] > 0
  }

  /** A task that holds no mutex uses its base priority, throughout every run. */
  lemma {:induction false} InheritedOnlyByHolders(ks: seq<Tasks>, cs: seq<Change>, t: nat, n: nat)
    requires Run(ks, cs) && n <= |cs| && t in ks[0].place && OwnUnlessHolding(ks[0], t)
    requires forall i :: 0 <= i < n && Enabled(ks[i], cs[i]) ==> ForHolders(ks[i], cs[i])
    ensures Valid(ks[n]) && t in ks[n].place && OwnUnlessHolding(ks[n], t)
  {
    hide Apply, Valid;
    if n > 0 {
      InheritedOnlyByHolders(ks, cs, t, n - 1);
      assert ks[n - 1 + 1] == Apply(ks[n - 1], cs[n - 1]) && ForHolders(ks[n - 1], cs[n - 1]);
      StepOwn(ks[n - 1], cs[n - 1], t);
    }
  }

  lemma StepOwn(k: Tasks, c: Change, t: nat)
    requires Enabled(k, c) && t in k.place && OwnUnlessHolding(k, t) && ForHolders(k, c)
    ensures Valid(Apply(k, c)) && t in Apply(k, c).place && OwnUnlessHolding(Apply(k, c), t)
  {
    ApplyMeans(k, c, t);
    hide Apply, ListOk, BitsRight;
  }

  /** A task uses at least its base priority. */
  ghost predicate AtLeastBase(k: Tasks, t: nat)
    requires Placed(k) && t in k.place
  {
    k.prio[t] >= k.base[t]
  }

  /** Every change keeps that, but for one: the priority of a task that has inherited one is set to more than
      it has inherited. The new priority is not used before the task gives its mutexes back. */
  lemma AtLeastBaseIff(k: Tasks, c: Change, t: nat)
    requires Enabled(k, c) && t in k.place && AtLeastBase(k, t)
    ensures Valid(Apply(k, c)) && t in Apply(k, c).place
    ensures AtLeastBase(Apply(k, c), t) <==>
              !(c.SetsPriority? && c.t == t && k.prio[t] != k.base[t] && c.priority > k.prio[t])
  {
    ApplyMeans(k, c, t);
    hide Apply, ListOk, BitsRight;
  }

  /** As here: the holder of the mutex has inherited priority 5 and is set to 9, and goes on with 5. */
  lemma RaiseNotUsed()
    ensures var k := TwoTasks();
            && Enabled(k, Inherits(0, 5))
            && var k1 := Apply(k, Inherits(0, 5));
               && Enabled(k1, SetsPriority(0, 9))
               && var k2 := Apply(k1, SetsPriority(0, 9));
                  Valid(k2) && 0 in k2.place && StatusOf(k2, 0) == Status(Ready, 5, 9, 1)
  {
    TwoTasksValid();
    TwoTasksAt();
    hide TwoTasks, Apply, ListOk, BitsRight;
    var k := TwoTasks();
    ApplyMeans(k, Inherits(0, 5), 0);
    ApplyMeans(Apply(k, Inherits(0, 5)), SetsPriority(0, 9), 0);
  }
}
