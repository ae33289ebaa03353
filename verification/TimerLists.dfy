/** The timer daemon's arithmetic: where a timer goes, modulo the wrap of the tick, and what is made good
    when the lists are switched. */
module TimerLists {
  import opened Ticks

  datatype Verdict = ProcessNow | IntoCurrent | IntoOverflow

  /** The decision of `prvInsertTimerInActiveList`. */
  function Decide(expiry: nat, now: nat, command: nat, period: nat): Verdict {
    if expiry <= now then
      if (now - command) % WRAP >= period then ProcessNow else IntoOverflow
    else if now < command && expiry >= command then ProcessNow
    else IntoCurrent
  }

  lemma Turn(a: int)
    requires -WRAP <= a < 2 * WRAP
    ensures a % WRAP == if a < 0 then a + WRAP else if a < WRAP then a else a - WRAP
  {
  }

  /** Insertion is exact modulo 2^32. Let a timer of the given period be started at clock time c, and the
      command be processed at time n, less than one turn of the tick later. It is reported expired iff the
      period has really passed; otherwise it goes into the list of the epoch in which it really expires. */
  lemma DecideExact(c: nat, n: nat, period: nat, epoch: nat, tick: nat)
    requires c <= n < c + WRAP && 0 < period < WRAP
    requires n == epoch * WRAP + tick && tick < WRAP
    ensures var v := Decide((c % WRAP + period) % WRAP, n % WRAP, c % WRAP, period);
            && (v == ProcessNow <==> n - c >= period)
            && (v == IntoCurrent ==> c + period == epoch * WRAP + (c % WRAP + period) % WRAP && c + period > n)
            && (v == IntoOverflow ==> c + period == (epoch + 1) * WRAP + (c % WRAP + period) % WRAP && c + period > n)
  {
    var back := if n - c <= tick then 0 else 1;
    var cTick := if back == 0 then tick - (n - c) else tick - (n - c) + WRAP;
    assert c == (epoch - back) * WRAP + cTick && 0 <= cTick < WRAP;
    Rest(epoch, tick);
    Rest(epoch - back, cTick);
    Turn(cTick + period);
    Turn(tick - cTick);
  }

  lemma Rest(d: int, r: int)
    requires 0 <= r < WRAP
    ensures (d * WRAP + r) % WRAP == r
  {
  }

  // ----- the switch of the lists

  datatype Kind = Kind(period: nat, autoReload: bool)

  type Timers = map<nat, Kind>

  ghost predicate Sane(timers: Timers) {
    forall t :: t in timers ==> 0 < timers[t].period < WRAP
  }

  /** A list of active timers: known, each once, by expiry time. */
  ghost predicate ListOk(list: seq<Entry>, timers: Timers) {
    && SortedEntries(list)
    && (forall e :: e in list ==> e.task in timers && e.value < WRAP)
    && forall i, j :: 0 <= i < j < |list| ==> list[i].task != list[j].task
  }

  /** How far the list is from the end of the epoch: the measure by which the loop ends. */
  function Weight(list: seq<Entry>): nat {
    if list == [] then 0 else (if list[0].value < WRAP then WRAP - list[0].value else 0) + Weight(list[1..])
  }

  lemma {:induction false} WeightSplit(a: seq<Entry>, b: seq<Entry>)
    ensures Weight(a + b) == Weight(a) + Weight(b)
  {
    if a == [] {
      assert a + b == b;
    } else {
      WeightSplit(a[1..], b);
      assert (a + b)[1..] == a[1..] + b && (a + b)[0] == a[0];
    }
  }

  lemma WeightInsert(list: seq<Entry>, e: Entry)
    requires e.value < WRAP
    ensures Weight(Insert(list, e)) == Weight(list) + WRAP - e.value
  {
    var p := Rings.InsertPos(Values(list), e.value);
    var a, b := list[..p], list[p..];
    assert list == a + b;
    WeightSplit(a, b);
    WeightSplit(a, [e] + b);
    assert ([e] + b)[1..] == b;
    assert Insert(list, e) == a + ([e] + b);
  }

  /** The head expires again before the end of the epoch. */
  predicate Reloads(list: seq<Entry>, timers: Timers)
    requires list != [] && list[0].task in timers
  {
    timers[list[0].task].autoReload && list[0].value + timers[list[0].task].period < WRAP
  }

  /** The list after its head has been dealt with. */
  ghost function NextList(list: seq<Entry>, timers: Timers): (next: seq<Entry>)
    requires ListOk(list, timers) && Sane(timers) && list != []
    ensures list[0].task in timers && ListOk(next, timers) && Weight(next) < Weight(list)
  {
    TailOk(list, timers);
    if Reloads(list, timers) then
      ReloadOk(list, timers);
      Insert(list[1..], Entry(list[0].value + timers[list[0].task].period, list[0].task))
    else list[1..]
  }

  /** The loop of `prvSwitchTimerLists`: the expiries, and the restart commands sent, in order. */
  ghost function Drain(list: seq<Entry>, timers: Timers): (r: (seq<Entry>, seq<Entry>))
    requires ListOk(list, timers) && Sane(timers)
    decreases Weight(list)
  {
    if list == [] then ([], [])
    else
      var next := NextList(list, timers);
      var (fires, restarts) := Drain(next, timers);
      ([list[0]] + fires,
       if timers[list[0].task].autoReload && !Reloads(list, timers) then [list[0]] + restarts else restarts)
  }

  lemma TailOk(list: seq<Entry>, timers: Timers)
    requires ListOk(list, timers) && list != []
    ensures ListOk(list[1..], timers) && Weight(list[1..]) < Weight(list)
    ensures list[0].task in timers && list[0].value < WRAP
    ensures forall e :: e in list[1..] ==> e.task != list[0].task && e.value >= list[0].value
  {
    HeadIn(list);
  }

  lemma ReloadOk(list: seq<Entry>, timers: Timers)
    requires ListOk(list, timers) && list != [] && Sane(timers)
    requires list[0].task in timers && list[0].value + timers[list[0].task].period < WRAP
    ensures var next := Insert(list[1..], Entry(list[0].value + timers[list[0].task].period, list[0].task));
            ListOk(next, timers) && Weight(next) < Weight(list)
  {
    TailOk(list, timers);
    var e := Entry(list[0].value + timers[list[0].task].period, list[0].task);
    WeightInsert(list[1..], e);
    InsertOrders(list[1..], e);
    InsertHas(list[1..], e);
    InsertDistinct(list[1..], e);
  }

  lemma InsertDistinct(list: seq<Entry>, e: Entry)
    requires forall i, j :: 0 <= i < j < |list| ==> list[i].task != list[j].task
    requires forall x :: x in list ==> x.task != e.task
    ensures var r := Insert(list, e); forall i, j :: 0 <= i < j < |r| ==> r[i].task != r[j].task
  {
    var p, r := Rings.InsertPos(Values(list), e.value), Insert(list, e);
    forall i, j | 0 <= i < j < |r|
      ensures r[i].task != r[j].task
    {
      assert i < p ==> r[i] == list[i] && list[i] in list;
      assert i > p ==> r[i] == list[i - 1];
      assert j < p ==> r[j] == list[j];
      assert j > p ==> r[j] == list[j - 1] && list[j - 1] in list;
    }
  }

  /** The expiry times left in the epoch. */
  function Times(v: nat, k: Kind): (r: seq<nat>)
    requires k.period > 0
    decreases if v < WRAP then WRAP - v else 0
  {
    if k.autoReload && v + k.period < WRAP then [v] + Times(v + k.period, k) else [v]
  }

  function Of(fires: seq<Entry>, t: nat): seq<nat> {
    if fires == [] then []
    else (if fires[0].task == t then [fires[0].value] else []) + Of(fires[1..], t)
  }

  lemma OfCons(e: Entry, fires: seq<Entry>, t: nat)
    ensures Of([e] + fires, t) == (if e.task == t then [e.value] else []) + Of(fires, t)
  {
    assert ([e] + fires)[1..] == fires;
  }

  /** The expiry of a timer in the list. */
  ghost predicate Listed(list: seq<Entry>, t: nat, v: nat) {
    Entry(v, t) in list
  }

  lemma SameEntry(list: seq<Entry>, a: Entry, b: Entry)
    requires a in list && b in list && a.task == b.task
    requires forall i, j :: 0 <= i < j < |list| ==> list[i].task != list[j].task
    ensures a == b
  {
  }

  /** Who is on the list next, and when due. */
  lemma NextListed(list: seq<Entry>, timers: Timers, t: nat, v: nat)
    requires ListOk(list, timers) && Sane(timers) && list != []
    ensures list[0].task in timers && list[0].value < WRAP
    ensures Listed(list, t, v) && t == list[0].task ==> v == list[0].value
    ensures t != list[0].task ==> (Listed(NextList(list, timers), t, v) <==> Listed(list, t, v))
    ensures t == list[0].task ==>
              (Listed(NextList(list, timers), t, v) <==> Reloads(list, timers) && v == list[0].value + timers[t].period)
  {
    hide Insert, SortedEntries;
    TailOk(list, timers);
    HeadIn(list);
    HeadListedOnce(list, timers, t, v);
    if Reloads(list, timers) {
      InsertHas(list[1..], Entry(list[0].value + timers[list[0].task].period, list[0].task));
    }
    hide ListOk, Sane;
  }

  lemma HeadListedOnce(list: seq<Entry>, timers: Timers, t: nat, v: nat)
    requires ListOk(list, timers) && list != []
    ensures Listed(list, t, v) && t == list[0].task ==> v == list[0].value
    ensures t != list[0].task ==> (Entry(v, t) in list[1..] <==> Listed(list, t, v))
    ensures t == list[0].task ==> Entry(v, t) !in list[1..]
  {
    hide SortedEntries;
    HeadIn(list);
    if Listed(list, t, v) && t == list[0].task {
      SameEntry(list, list[0], Entry(v, t));
    }
    assert list == [list[0]] + list[1..];
    forall i | 0 <= i < |list[1..]|
      ensures list[1..][i].task != list[0].task
    {
      assert list[1..][i] == list[i + 1];
    }
  }

  /** The expiries and restarts of one timer, the head's dealt with. */
  lemma DrainOf(list: seq<Entry>, timers: Timers, t: nat)
    requires ListOk(list, timers) && Sane(timers) && list != []
    ensures list[0].task in timers
    ensures var next := NextList(list, timers);
            && Of(Drain(list, timers).0, t)
               == (if t == list[0].task then [list[0].value] else []) + Of(Drain(next, timers).0, t)
            && Of(Drain(list, timers).1, t)
               == (if t == list[0].task && timers[t].autoReload && !Reloads(list, timers) then [list[0].value] else [])
                  + Of(Drain(next, timers).1, t)
  {
    hide ListOk, Sane, Weight, NextList, Of;
    var next := NextList(list, timers);
    OfCons(list[0], Drain(next, timers).0, t);
    OfCons(list[0], Drain(next, timers).1, t);
  }

  /** Each timer left in the list is fired once for each of its expiries left in the epoch, and an
      auto-reload timer's restart is sent for, from the last of them. */
  lemma {:induction false} DrainFires(list: seq<Entry>, timers: Timers, t: nat, v: nat)
    requires ListOk(list, timers) && Sane(timers) && Listed(list, t, v)
    ensures t in timers && timers[t].period > 0 && Of(Drain(list, timers).0, t) == Times(v, timers[t])
    ensures Of(Drain(list, timers).1, t) ==
            if timers[t].autoReload then [Times(v, timers[t])[|Times(v, timers[t])| - 1]] else []
    decreases Weight(list)
  {
    hide ListOk, NextList, Weight, Listed, Of, Drain;
    NotEmpty(list, t, v);
    DrainOf(list, timers, t);
    NextListed(list, timers, t, v);
    var next := NextList(list, timers);
    if t != list[0].task {
      DrainFires(next, timers, t, v);
    } else if Reloads(list, timers) {
      NextListed(list, timers, t, v + timers[t].period);
      DrainFires(next, timers, t, v + timers[t].period);
    } else {
      NotListed(list, timers, t);
      DrainSkips(next, timers, t);
    }
  }

  lemma NotEmpty(list: seq<Entry>, t: nat, v: nat)
    requires Listed(list, t, v)
    ensures list != []
  {
  }

  lemma NotListed(list: seq<Entry>, timers: Timers, t: nat)
    requires ListOk(list, timers) && Sane(timers) && list != []
    requires list[0].task in timers && t == list[0].task && !Reloads(list, timers)
    ensures forall w: nat :: !Listed(NextList(list, timers), t, w)
  {
    forall w: nat
      ensures !Listed(NextList(list, timers), t, w)
    {
      NextListed(list, timers, t, w);
    }
  }

  /** A timer that is not on the list is not fired. */
  lemma {:induction false} DrainSkips(list: seq<Entry>, timers: Timers, t: nat)
    requires ListOk(list, timers) && Sane(timers) && forall w: nat :: !Listed(list, t, w)
    ensures Of(Drain(list, timers).0, t) == [] && Of(Drain(list, timers).1, t) == []
    decreases Weight(list)
  {
    if list != [] {
      HeadListed(list);
      assert t != list[0].task;
      hide ListOk, NextList, Weight, Listed;
      var next := NextList(list, timers);
      forall w: nat
        ensures !Listed(next, t, w)
      {
        NextListed(list, timers, t, w);
      }
      OfCons(list[0], Drain(next, timers).0, t);
      OfCons(list[0], Drain(next, timers).1, t);
      DrainSkips(next, timers, t);
    }
  }

  lemma HeadListed(list: seq<Entry>)
    requires list != []
    ensures Listed(list, list[0].task, list[0].value)
  {
    HeadIn(list);
  }

  lemma NextHead(list: seq<Entry>, timers: Timers)
    requires ListOk(list, timers) && Sane(timers) && list != []
    ensures NextList(list, timers) != [] ==> list[0].value <= NextList(list, timers)[0].value
  {
    TailOk(list, timers);
    if Reloads(list, timers) {
      InsertHead(list[1..], Entry(list[0].value + timers[list[0].task].period, list[0].task));
    }
    if list[1..] != [] {
      HeadIn(list[1..]);
    }
  }

  /** The timers are fired in the order of their expiry times. */
  lemma {:induction false} DrainInOrder(list: seq<Entry>, timers: Timers)
    requires ListOk(list, timers) && Sane(timers)
    ensures var fires := Drain(list, timers).0;
            && SortedEntries(fires)
            && (list != [] ==> fires != [] && fires[0] == list[0])
            && (list == [] ==> fires == [])
    decreases Weight(list)
  {
    hide ListOk, NextList, Weight;
    if list != [] {
      NextHead(list, timers);
      DrainInOrder(NextList(list, timers), timers);
    }
  }

  lemma MulMono(a: nat, b: nat, p: nat)
    requires a <= b
    ensures a * p <= b * p
  {
  }

  lemma MulOrder(p: nat, q: nat, r: nat, q': nat, r': nat)
    requires q < q' && r < p
    ensures q * p + r < q' * p + r'
  {
    MulMono(q + 1, q', p);
    assert (q + 1) * p == q * p + p;
  }

  lemma MulUnique(p: nat, q: nat, r: nat, q': nat, r': nat)
    requires q * p + r == q' * p + r' && r < p && r' < p
    ensures q == q'
  {
    if q < q' {
      MulOrder(p, q, r, q', r');
    } else if q' < q {
      MulOrder(p, q', r', q, r);
    }
  }

  lemma DivUnique(a: nat, p: nat, q: nat, r: nat)
    requires a == q * p + r && r < p
    ensures a / p == q
  {
    MulUnique(p, q, r, a / p, a % p);
  }

  lemma DivStep(a: nat, p: nat)
    requires p > 0
    ensures a < p ==> a / p == 0
    ensures a >= p ==> a / p == (a - p) / p + 1
  {
    if a < p {
      DivUnique(a, p, 0, a);
    } else {
      var q, r := (a - p) / p, (a - p) % p;
      assert (q + 1) * p == q * p + p;
      DivUnique(a, p, q + 1, r);
    }
  }

  /** The number of expiries left. */
  lemma {:induction false} TimesCount(v: nat, k: Kind)
    requires k.period > 0 && v < WRAP
    ensures |Times(v, k)| == if k.autoReload then (WRAP - 1 - v) / k.period + 1 else 1
    ensures forall i :: 0 <= i < |Times(v, k)| ==> v <= Times(v, k)[i] < WRAP
    decreases WRAP - v
  {
    DivStep(WRAP - 1 - v, k.period);
    if k.autoReload && v + k.period < WRAP {
      TimesCount(v + k.period, k);
    }
  }
}
