/** No wake-up is lost at a queue: the invariants of the blocking protocol, over every run. */
module QueueSafety {
  import opened Basics
  import opened QueueProtocol

  ghost predicate Distinct(s: seq<nat>) {
    forall i, j :: 0 <= i < j < |s| ==> s[i] != s[j]
  }

  /** Nobody is both waiting and woken, or waiting twice. */
  ghost predicate Sound(q: Queue) {
    && q.length >= 1 && q.messages <= q.length
    && UNLOCKED <= q.txLock <= INT8_MAX && UNLOCKED <= q.rxLock <= INT8_MAX
    && Distinct(q.waitRx) && Distinct(q.waitTx)
    && (forall t :: t in q.waitRx ==> t !in q.wokenRx)
    && (forall t :: t in q.waitTx ==> t !in q.wokenTx)
  }

  function Pos(lock: int): nat {
    if lock > 0 then lock else 0
  }

  /** While receivers wait, there are no more messages than receivers already woken for them and wake-ups
      noted for the unlocking. */
  ghost predicate Received(q: Queue) {
    q.messages <= |q.wokenRx| + Pos(q.txLock)
  }

  ghost predicate Sent(q: Queue) {
    q.length - q.messages <= |q.wokenTx| + Pos(q.rxLock)
  }

  /** Lists and flags agree with where the tasks stand. */
  ghost predicate Consistent(w: World) {
    && Sound(w.q)
    && (forall t :: t in w.q.waitRx ==> t in w.pc && Waits(w.pc[t]) && Receives(w.pc[t].op))
    && (forall t :: t in w.q.waitTx ==> t in w.pc && Waits(w.pc[t]) && !Receives(w.pc[t].op))
    && (forall t :: t in w.q.wokenRx ==>
          t in w.pc && (Waits(w.pc[t]) || w.pc[t].Entering?) && Receives(w.pc[t].op))
    && (forall t :: t in w.q.wokenTx ==>
          t in w.pc && (Waits(w.pc[t]) || w.pc[t].Entering?) && !Receives(w.pc[t].op))
    && (forall t :: t in w.pc ==> (Suspends(w.pc[t]) <==> w.holder == Some(t)))
    && (w.holder.Some? ==> w.holder.value in w.pc)
    && (w.q.txLock != UNLOCKED <==> TxHeld(w))
    && (w.q.rxLock != UNLOCKED <==> TxHeld(w) || (w.holder.Some? && w.pc[w.holder.value].UnlockingRx?))
    && (forall t :: t in w.pc && !w.pc[t].Outside? && w.pc[t].op == Send(true) ==> w.q.length == 1)
  }

  ghost predicate TxHeld(w: World)
    requires w.holder.Some? ==> w.holder.value in w.pc
  {
    && w.holder.Some?
    && var pc := w.pc[w.holder.value]; pc.Locked? || pc.Placing? || pc.UnlockingTx?
  }

  ghost predicate PlacesRx(w: World)
    requires w.holder.Some? ==> w.holder.value in w.pc
  {
    w.holder.Some? && w.pc[w.holder.value].Placing? && Receives(w.pc[w.holder.value].op)
  }

  ghost predicate PlacesTx(w: World)
    requires w.holder.Some? ==> w.holder.value in w.pc
  {
    w.holder.Some? && w.pc[w.holder.value].Placing? && !Receives(w.pc[w.holder.value].op)
  }

  // ----- waking

  lemma WakeRxKeeps(q: Queue)
    requires Sound(q)
    ensures Sound(WakeRx(q)) && |WakeRx(q).wokenRx| == |q.wokenRx| + if q.waitRx == [] then 0 else 1
  {
    if q.waitRx != [] {
      assert q.waitRx[0] in q.waitRx;
      forall t | t in q.waitRx[1..]
        ensures t !in WakeRx(q).wokenRx
      {
        assert t in q.waitRx;
      }
    }
  }

  lemma WakeTxKeeps(q: Queue)
    requires Sound(q)
    ensures Sound(WakeTx(q)) && |WakeTx(q).wokenTx| == |q.wokenTx| + if q.waitTx == [] then 0 else 1
  {
    if q.waitTx != [] {
      assert q.waitTx[0] in q.waitTx;
      forall t | t in q.waitTx[1..]
        ensures t !in WakeTx(q).wokenTx
      {
        assert t in q.waitTx;
      }
    }
  }

  /** Only tasks of the list move, and only from waiting to woken. */
  ghost predicate Moved(q: Queue, q': Queue) {
    && (forall t :: t in q'.waitRx ==> t in q.waitRx)
    && (forall t :: t in q'.waitTx ==> t in q.waitTx)
    && (forall t :: t in q'.wokenRx ==> t in q.wokenRx || t in q.waitRx)
    && (forall t :: t in q'.wokenTx ==> t in q.wokenTx || t in q.waitTx)
    && q'.length == q.length
  }

  lemma WakeMoves(q: Queue)
    ensures Moved(q, WakeRx(q)) && Moved(q, WakeTx(q))
  {
  }

  /** The unlocking loop wakes one task for each event counted, as long as there are any. */
  lemma {:induction false} WakeRxTimesKeeps(q: Queue, n: nat)
    requires Sound(q)
    ensures var q' := WakeRxTimes(q, n);
            && Sound(q') && Moved(q, q')
            && q' == q.(waitRx := q'.waitRx, wokenRx := q'.wokenRx)
            && (q'.waitRx != [] ==> |q'.wokenRx| == |q.wokenRx| + n)
    decreases n
  {
    if n > 0 && q.waitRx != [] {
      WakeRxKeeps(q);
      WakeMoves(q);
      WakeRxTimesKeeps(WakeRx(q), n - 1);
    }
  }

  lemma {:induction false} WakeTxTimesKeeps(q: Queue, n: nat)
    requires Sound(q)
    ensures var q' := WakeTxTimes(q, n);
            && Sound(q') && Moved(q, q')
            && q' == q.(waitTx := q'.waitTx, wokenTx := q'.wokenTx)
            && (q'.waitTx != [] ==> |q'.wokenTx| == |q.wokenTx| + n)
    decreases n
  {
    if n > 0 && q.waitTx != [] {
      WakeTxKeeps(q);
      WakeMoves(q);
      WakeTxTimesKeeps(WakeTx(q), n - 1);
    }
  }

  // ----- sections keep both balances

  lemma SendSectionKeeps(q: Queue, overwrite: bool)
    requires Sound(q) && Room(q, overwrite) && (overwrite ==> q.length == 1)
    ensures Sound(SendSection(q, overwrite)) && Moved(q, SendSection(q, overwrite))
    ensures (q.waitRx != [] ==> Received(q)) ==> (SendSection(q, overwrite).waitRx != [] ==> Received(SendSection(q, overwrite)))
    ensures Sent(q) ==> Sent(SendSection(q, overwrite))
  {
    WakeRxKeeps(Counted(q, overwrite));
    WakeMoves(Counted(q, overwrite));
  }

  lemma ReceiveSectionKeeps(q: Queue)
    requires Sound(q) && q.messages > 0
    ensures Sound(ReceiveSection(q)) && Moved(q, ReceiveSection(q))
    ensures (q.waitTx != [] ==> Sent(q)) ==> (ReceiveSection(q).waitTx != [] ==> Sent(ReceiveSection(q)))
    ensures Received(q) ==> Received(ReceiveSection(q))
  {
    WakeTxKeeps(q.(messages := q.messages - 1));
    WakeMoves(q.(messages := q.messages - 1));
  }

  // ----- each event keeps the bookkeeping

  /** A change of the queue that only wakes tasks and does not lock or unlock. */
  lemma QueueChange(w: World, q': Queue)
    requires Consistent(w) && Sound(q') && Moved(w.q, q')
    requires (q'.txLock == UNLOCKED <==> w.q.txLock == UNLOCKED) && (q'.rxLock == UNLOCKED <==> w.q.rxLock == UNLOCKED)
    ensures Consistent(w.(q := q'))
  {
  }

  /** The task is neither waiting nor woken. */
  ghost predicate Free(q: Queue, t: nat) {
    t !in q.waitRx && t !in q.waitTx && t !in q.wokenRx && t !in q.wokenTx
  }

  lemma TrySectionKeeps(q: Queue, t: nat, op: Op, patient: bool)
    requires Sound(q) && (op == Send(true) ==> q.length == 1)
    requires t !in q.waitRx && t !in q.waitTx
    ensures var q' := TrySection(q, t, op, patient).0;
            && Sound(q') && Moved(q, q') && Free(q', t)
            && q'.txLock == q.txLock && q'.rxLock == q.rxLock
    ensures TrySection(q, t, op, patient).1 in {Outside(true), Outside(false), Missed(op)}
  {
    var q0 := q.(wokenRx := q.wokenRx - {t}, wokenTx := q.wokenTx - {t});
    assert Sound(q0) && Moved(q, q0);
    match op
    case Receive =>
      if q.messages > 0 {
        ReceiveSectionKeeps(q0);
      }
    case Peek =>
      if q.messages > 0 {
        WakeRxKeeps(q0);
        WakeMoves(q0);
      }
    case Send(overwrite) =>
      if Room(q, overwrite) {
        SendSectionKeeps(q0, overwrite);
      }
  }

  lemma EnteringKeeps(w: World, t: nat, patient: bool)
    requires Consistent(w) && t in w.pc && w.pc[t].Entering? && w.holder == None
    ensures var (q', pc') := TrySection(w.q, t, w.pc[t].op, patient);
            Consistent(w.(q := q', pc := w.pc[t := pc']))
  {
    TrySectionKeeps(w.q, t, w.pc[t].op, patient);
    hide TrySection, Sound;
  }

  lemma PlaceKeeps(w: World, t: nat, place: nat)
    requires Consistent(w) && Enabled(w, Move(t, false, place)) && w.pc[t].Placing?
    ensures Consistent(MoveTask(w, t, false, place))
  {
    var op, q := w.pc[t].op, w.q;
    var q' := Place(q, t, op, place);
    assert Free(q, t);
    forall x
      ensures x in q'.waitRx <==> x in q.waitRx || (Receives(op) && x == t)
      ensures x in q'.waitTx <==> x in q.waitTx || (!Receives(op) && x == t)
    {
      PlacedIn(q.waitRx, place, t, x);
      PlacedIn(q.waitTx, place, t, x);
    }
    if Receives(op) {
      PlacedDistinct(q.waitRx, place, t);
    } else {
      PlacedDistinct(q.waitTx, place, t);
    }
  }

  lemma PlacedIn(s: seq<nat>, place: nat, t: nat, x: nat)
    ensures place <= |s| ==> (x in s[..place] + [t] + s[place..] <==> x in s || x == t)
  {
    if place <= |s| {
      assert s == s[..place] + s[place..];
    }
  }

  lemma PlacedDistinct(s: seq<nat>, place: nat, t: nat)
    requires Distinct(s) && place <= |s| && t !in s
    ensures Distinct(s[..place] + [t] + s[place..])
  {
  }

  lemma WithoutDistinct(s: seq<nat>, t: nat)
    requires Distinct(s)
    ensures Distinct(Without(s, t))
  {
    if s != [] {
      WithoutDistinct(s[1..], t);
      assert s[0] !in s[1..];
    }
  }

  lemma UnlockTxFacts(q: Queue)
    requires Sound(q)
    ensures var q' := UnlockTx(q);
            && Sound(q') && Moved(q, q') && q'.txLock == UNLOCKED && q'.rxLock == q.rxLock
            && q'.messages == q.messages && q'.waitTx == q.waitTx && q'.wokenTx == q.wokenTx
            && (q'.waitRx != [] ==> |q'.wokenRx| == |q.wokenRx| + Pos(q.txLock))
  {
    WakeRxTimesKeeps(q, Pos(q.txLock));
  }

  lemma UnlockRxFacts(q: Queue)
    requires Sound(q)
    ensures var q' := UnlockRx(q);
            && Sound(q') && Moved(q, q') && q'.rxLock == UNLOCKED && q'.txLock == q.txLock
            && q'.messages == q.messages && q'.waitRx == q.waitRx && q'.wokenRx == q.wokenRx
            && (q'.waitTx != [] ==> |q'.wokenTx| == |q.wokenTx| + Pos(q.rxLock))
  {
    WakeTxTimesKeeps(q, Pos(q.rxLock));
  }

  lemma UnlockTxKeeps(w: World, t: nat)
    requires Consistent(w) && t in w.pc && w.pc[t].UnlockingTx? && w.holder == Some(t)
    ensures Consistent(w.(q := UnlockTx(w.q), pc := w.pc[t := UnlockingRx(w.pc[t].op, w.pc[t].next)]))
  {
    UnlockTxFacts(w.q);
    hide UnlockTx, Sound;
  }

  lemma UnlockRxKeeps(w: World, t: nat)
    requires Consistent(w) && t in w.pc && w.pc[t].UnlockingRx? && w.holder == Some(t)
    ensures Consistent(w.(q := UnlockRx(w.q), pc := w.pc[t := Resuming(w.pc[t].op, w.pc[t].next)]))
  {
    UnlockRxFacts(w.q);
    hide UnlockRx, Sound;
  }

  /** A move that leaves the event lists alone: on the way to suspension, or back from it. */
  lemma PcKeeps(w: World, w': World, t: nat)
    requires Consistent(w) && t in w.pc && !w.pc[t].Outside? && (w.holder == None || w.holder == Some(t))
    requires t in w'.pc && w'.pc == w.pc[t := w'.pc[t]]
    requires w'.q == w.q.(txLock := w'.q.txLock, rxLock := w'.q.rxLock) && Sound(w'.q)
    requires !w'.pc[t].Outside? ==> w'.pc[t].op == w.pc[t].op
    requires w'.holder == if Suspends(w'.pc[t]) then Some(t) else None
    requires w'.q.txLock != UNLOCKED <==> TxHeld(w')
    requires w'.q.rxLock != UNLOCKED <==> TxHeld(w') || (w'.holder.Some? && w'.pc[t].UnlockingRx?)
    requires Waits(w.pc[t]) ==> Waits(w'.pc[t]) || (w'.pc[t].Entering? && t !in w.q.waitRx && t !in w.q.waitTx)
    requires w.pc[t].Entering? ==> w'.pc[t].Entering?
    ensures Consistent(w')
  {
    hide Sound;
  }

  lemma MissedKeeps(w: World, e: Event)
    requires Consistent(w) && Enabled(w, e) && e.Move? && (w.pc[e.t].Missed? || w.pc[e.t].Holding? || w.pc[e.t].Locked?)
    ensures Consistent(Step(w, e))
  {
    PcKeeps(w, Step(w, e), e.t);
  }

  lemma ResumingKeeps(w: World, e: Event)
    requires Consistent(w) && Enabled(w, e) && e.Move? && (w.pc[e.t].Resuming? || w.pc[e.t].Asleep? || w.pc[e.t].LastLook?)
    ensures Consistent(Step(w, e))
  {
    PcKeeps(w, Step(w, e), e.t);
  }

  lemma MoveKeeps(w: World, e: Event)
    requires Consistent(w) && Enabled(w, e) && e.Move?
    ensures Consistent(Step(w, e))
  {
    match w.pc[e.t]
    case Entering(op, _) => EnteringStep(w, e);
    case Missed(op) => MissedKeeps(w, e);
    case Holding(op) => MissedKeeps(w, e);
    case Locked(op) => MissedKeeps(w, e);
    case Placing(op) => PlaceKeeps(w, e.t, e.place);
    case UnlockingTx(op, next) => UnlockTxKeeps(w, e.t);
    case UnlockingRx(op, next) => UnlockRxKeeps(w, e.t);
    case Resuming(op, next) => ResumingKeeps(w, e);
    case Asleep(op) => ResumingKeeps(w, e);
    case LastLook(op) => ResumingKeeps(w, e);
    case Outside(_) =>
  }

  lemma EnteringStep(w: World, e: Event)
    requires Consistent(w) && Enabled(w, e) && e.Move? && w.pc[e.t].Entering?
    ensures Consistent(Step(w, e))
  {
    assert w.holder == None;
    EnteringKeeps(w, e.t, w.pc[e.t].patient);
  }

  lemma TimeOutKeeps(w: World, t: nat)
    requires Consistent(w) && Enabled(w, TimeOut(t))
    ensures Consistent(Step(w, TimeOut(t)))
  {
    hide Without;
    WithoutDistinct(w.q.waitRx, t);
    WithoutDistinct(w.q.waitTx, t);
  }

  lemma IsrKeeps(w: World, e: Event)
    requires Consistent(w) && Enabled(w, e) && (e.IsrSend? || e.IsrReceive?)
    ensures Consistent(Step(w, e))
  {
    if e.IsrSend? {
      SendSectionKeeps(w.q, e.overwrite);
      QueueChange(w, SendFromIsr(w.q, e.overwrite));
    } else {
      ReceiveSectionKeeps(w.q);
      QueueChange(w, ReceiveFromIsr(w.q));
    }
  }

  lemma ResetKeeps(w: World, t: nat)
    requires Consistent(w) && Enabled(w, ResetBy(t))
    ensures Consistent(Step(w, ResetBy(t)))
  {
    var q0 := w.q.(messages := 0, rxLock := UNLOCKED, txLock := UNLOCKED);
    WakeTxKeeps(q0);
    WakeMoves(q0);
    QueueChange(w, Reset(w.q));
  }

  /** Every event keeps lists, flags and tasks in agreement. */
  lemma StepConsistent(w: World, e: Event)
    requires Consistent(w) && Enabled(w, e)
    ensures Consistent(Step(w, e))
  {
    match e
    case Call(t, op, patient) => CallKeeps(w, t, op, patient);
    case Move(_, _, _) => MoveKeeps(w, e);
    case TimeOut(t) => TimeOutKeeps(w, t);
    case IsrSend(_) => IsrKeeps(w, e);
    case IsrReceive => IsrKeeps(w, e);
    case ResetBy(t) => ResetKeeps(w, t);
  }

  lemma CallKeeps(w: World, t: nat, op: Op, patient: bool)
    requires Consistent(w) && Enabled(w, Call(t, op, patient))
    ensures Consistent(Step(w, Call(t, op, patient)))
  {
  }

  // ----- each event keeps the balance

  ghost predicate RxOk(w: World)
    requires w.holder.Some? ==> w.holder.value in w.pc
  {
    w.q.waitRx != [] || PlacesRx(w) ==> Received(w.q)
  }

  ghost predicate TxOk(w: World)
    requires w.holder.Some? ==> w.holder.value in w.pc
  {
    w.q.waitTx != [] || PlacesTx(w) ==> Sent(w.q)
  }

  lemma RemoveOne(s: set<nat>, t: nat)
    ensures |s - {t}| == if t in s then |s| - 1 else |s|
  {
    if t !in s {
      assert s - {t} == s;
    }
  }

  /** A task that tries again: it takes a message, or leaves it to the next, or finds none. */
  lemma TryBalance(q: Queue, t: nat, op: Op, patient: bool)
    requires Sound(q) && (op == Send(true) ==> q.length == 1)
    requires t in q.wokenRx ==> Receives(op)
    requires t in q.wokenTx ==> !Receives(op)
    ensures var q' := TrySection(q, t, op, patient).0;
            && ((q.waitRx != [] ==> Received(q)) ==> (q'.waitRx != [] ==> Received(q')))
            && ((q.waitTx != [] ==> Sent(q)) ==> (q'.waitTx != [] ==> Sent(q')))
  {
    RemoveOne(q.wokenRx, t);
    RemoveOne(q.wokenTx, t);
    var q0 := q.(wokenRx := q.wokenRx - {t}, wokenTx := q.wokenTx - {t});
    assert Sound(q0);
    match op
    case Receive =>
      if q.messages > 0 {
        WakeTxKeeps(q0.(messages := q0.messages - 1));
      }
    case Peek =>
      WakeRxKeeps(q0);
    case Send(overwrite) =>
      if Room(q, overwrite) {
        WakeRxKeeps(Counted(q0, overwrite));
      }
  }

  lemma MoveBalance(w: World, e: Event)
    requires Consistent(w) && Enabled(w, e) && e.Move? && Consistent(Step(w, e))
    ensures RxOk(w) ==> RxOk(Step(w, e))
    ensures TxOk(w) ==> TxOk(Step(w, e))
  {
    match w.pc[e.t]
    case Entering(op, _) => EnteringBalance(w, e);
    case Placing(op) => PlacingBalance(w, e);
    case UnlockingTx(op, next) => UnlockTxFacts(w.q);
    case UnlockingRx(op, next) => UnlockRxFacts(w.q);
    case Missed(op) =>
    case Holding(op) =>
    case Locked(op) =>
    case Resuming(op, next) =>
    case Asleep(op) =>
    case LastLook(op) =>
    case Outside(_) =>
  }

  lemma EnteringBalance(w: World, e: Event)
    requires Consistent(w) && Enabled(w, e) && e.Move? && w.pc[e.t].Entering?
    ensures Consistent(Step(w, e))
    ensures RxOk(w) ==> RxOk(Step(w, e))
    ensures TxOk(w) ==> TxOk(Step(w, e))
  {
    EnteringStep(w, e);
    TryBalance(w.q, e.t, w.pc[e.t].op, w.pc[e.t].patient);
    hide TrySection, Sound;
  }

  lemma PlacingBalance(w: World, e: Event)
    requires Consistent(w) && Enabled(w, e) && e.Move? && w.pc[e.t].Placing?
    ensures Consistent(Step(w, e))
    ensures RxOk(w) ==> RxOk(Step(w, e))
    ensures TxOk(w) ==> TxOk(Step(w, e))
  {
    PlaceKeeps(w, e.t, e.place);
    assert w.holder == Some(e.t);
    hide Sound;
  }

  lemma TimeOutBalance(w: World, t: nat)
    requires Consistent(w) && Enabled(w, TimeOut(t))
    ensures Consistent(Step(w, TimeOut(t)))
    ensures RxOk(w) ==> RxOk(Step(w, TimeOut(t)))
    ensures TxOk(w) ==> TxOk(Step(w, TimeOut(t)))
  {
    TimeOutKeeps(w, t);
  }

  lemma IsrSendBalance(q: Queue, overwrite: bool)
    requires Sound(q) && Room(q, overwrite) && (overwrite ==> q.length == 1)
    ensures var q' := SendFromIsr(q, overwrite);
            && (Received(q) ==> Received(q') || q'.waitRx == [])
            && (Sent(q) ==> Sent(q'))
            && (q.txLock != UNLOCKED && Received(q) ==> Received(q'))
            && q'.waitTx == q.waitTx && (q.waitRx == [] ==> q'.waitRx == [])
  {
    WakeRxKeeps(Counted(q, overwrite));
  }

  lemma IsrReceiveBalance(q: Queue)
    requires Sound(q) && q.messages > 0
    ensures var q' := ReceiveFromIsr(q);
            && (Sent(q) ==> Sent(q') || q'.waitTx == [])
            && (Received(q) ==> Received(q'))
            && (q.rxLock != UNLOCKED && Sent(q) ==> Sent(q'))
            && q'.waitRx == q.waitRx && (q.waitTx == [] ==> q'.waitTx == [])
  {
    WakeTxKeeps(q.(messages := q.messages - 1));
  }

  lemma IsrBalance(w: World, e: Event)
    requires Consistent(w) && Enabled(w, e) && (e.IsrSend? || e.IsrReceive?)
    ensures Consistent(Step(w, e))
    ensures RxOk(w) ==> RxOk(Step(w, e))
    ensures TxOk(w) ==> TxOk(Step(w, e))
  {
    IsrKeeps(w, e);
    hide SendFromIsr, ReceiveFromIsr, Received, Sent, Sound;
    if e.IsrSend? {
      IsrSendBalance(w.q, e.overwrite);
    } else {
      IsrReceiveBalance(w.q);
    }
  }

  /** What a reset needs for the senders' balance: no more than one is waiting, or as many have already
      been woken as there will be room for, but one. */
  ghost predicate ResetSafe(q: Queue) {
    |q.waitTx| <= 1 || q.length <= |q.wokenTx| + 1
  }

  /** A reset keeps the receivers' balance always, and the senders' under exactly that condition. */
  lemma ResetBalance(w: World, t: nat)
    requires Consistent(w) && Enabled(w, ResetBy(t))
    ensures Consistent(Step(w, ResetBy(t)))
    ensures RxOk(Step(w, ResetBy(t)))
    ensures TxOk(Step(w, ResetBy(t))) <==> ResetSafe(w.q)
  {
    ResetKeeps(w, t);
    WakeTxKeeps(w.q.(messages := 0, rxLock := UNLOCKED, txLock := UNLOCKED));
  }

  /** Two senders asleep on a full queue of two: a reset makes room for both and wakes one. */
  lemma ResetStrandsSender()
    ensures var w := World(Queue(2, 2, UNLOCKED, UNLOCKED, [], [1, 2], {}, {}),
                           map[0 := Outside(true), 1 := Asleep(Send(false)), 2 := Asleep(Send(false))], None);
            && Consistent(w) && TxOk(w) && Enabled(w, ResetBy(0))
            && var q := Step(w, ResetBy(0)).q;
               q.waitTx == [2] && q.wokenTx == {1} && q.messages == 0 && !TxOk(Step(w, ResetBy(0)))
  {
    var w := World(Queue(2, 2, UNLOCKED, UNLOCKED, [], [1, 2], {}, {}),
                   map[0 := Outside(true), 1 := Asleep(Send(false)), 2 := Asleep(Send(false))], None);
    assert WakeTx(w.q.(messages := 0)).wokenTx == {1};
    assert |{1}| == 1;
  }

  lemma StepBalance(w: World, e: Event)
    requires Consistent(w) && Enabled(w, e)
    ensures Consistent(Step(w, e))
    ensures RxOk(w) ==> RxOk(Step(w, e))
    ensures TxOk(w) && (e.ResetBy? ==> ResetSafe(w.q)) ==> TxOk(Step(w, e))
  {
    StepConsistent(w, e);
    match e
    case Call(t, op, _) =>
    case Move(_, _, _) => MoveBalance(w, e);
    case TimeOut(t) => TimeOutBalance(w, t);
    case IsrSend(_) => IsrBalance(w, e);
    case IsrReceive => IsrBalance(w, e);
    case ResetBy(t) => ResetBalance(w, t);
  }

  // ----- runs

  ghost predicate Run(ws: seq<World>, es: seq<Event>) {
    && |ws| == |es| + 1
    && forall i :: 0 <= i < |es| ==> Enabled(ws[i], es[i]) && ws[i + 1] == Step(ws[i], es[i])
  }

  /** A new queue, and no task in a call on it. */
  ghost predicate Created(w: World) {
    && w.q.length >= 1
    && w.q == Queue(w.q.length, 0, UNLOCKED, UNLOCKED, [], [], {}, {})
    && w.holder == None && forall t :: t in w.pc ==> w.pc[t].Outside?
  }

  lemma {:induction false} RunBalance(ws: seq<World>, es: seq<Event>, k: nat)
    requires Run(ws, es) && Created(ws[0]) && k <= |es|
    ensures Consistent(ws[k]) && RxOk(ws[k])
    ensures (forall i :: 0 <= i < k && es[i].ResetBy? ==> ResetSafe(ws[i].q)) ==> TxOk(ws[k])
  {
    if k > 0 {
      RunBalance(ws, es, k - 1);
      StepBalance(ws[k - 1], es[k - 1]);
      assert ws[k - 1 + 1] == Step(ws[k - 1], es[k - 1]);
    }
  }

  /** No lost wake-up. In every reachable state with the queue unlocked and receivers waiting, the stored
      messages number at most the receivers woken but not yet run again, and each of those is about to
      look at the queue. The same for senders and free places, unless a reset was unsafe. */
  lemma NoLostWakeUp(ws: seq<World>, es: seq<Event>, k: nat)
    requires Run(ws, es) && Created(ws[0]) && k <= |es|
    ensures ws[k].q.txLock == UNLOCKED && ws[k].q.waitRx != [] ==>
              && ws[k].q.messages <= |ws[k].q.wokenRx|
              && forall t :: t in ws[k].q.wokenRx ==>
                   t in ws[k].pc && (Waits(ws[k].pc[t]) || ws[k].pc[t].Entering?) && t !in ws[k].q.waitRx
    ensures (forall i :: 0 <= i < k && es[i].ResetBy? ==> ResetSafe(ws[i].q)) &&
            ws[k].q.rxLock == UNLOCKED && ws[k].q.waitTx != [] ==>
              && ws[k].q.length - ws[k].q.messages <= |ws[k].q.wokenTx|
              && forall t :: t in ws[k].q.wokenTx ==>
                   t in ws[k].pc && (Waits(ws[k].pc[t]) || ws[k].pc[t].Entering?) && t !in ws[k].q.waitTx
  {
    RunBalance(ws, es, k);
  }

  /** The lock counters are in use only while a task holds the scheduler suspended over the queue. */
  lemma LockedOnlyByHolder(ws: seq<World>, es: seq<Event>, k: nat)
    requires Run(ws, es) && Created(ws[0]) && k <= |es|
    ensures ws[k].holder == None ==> ws[k].q.txLock == UNLOCKED && ws[k].q.rxLock == UNLOCKED
  {
    RunBalance(ws, es, k);
  }
}
