/** What a call on a queue comes to: when it passes, when it gives up, when it sleeps, and in which order
    those that wait are woken; over every run of the blocking protocol. */
module QueueAnswers {
  import opened Basics
  import opened QueueProtocol
  import opened QueueSafety

  /** There is a message for it, or room. */
  predicate Ready(q: Queue, op: Op) {
    match op
    case Send(overwrite) => q.messages < q.length || overwrite
    case _ => q.messages > 0
  }

  // ----- how calls end

  /** The last call of t before state j began with event c. */
  ghost predicate LastCall(es: seq<Event>, t: nat, c: nat, j: nat) {
    && c < j <= |es| && es[c].Call? && es[c].t == t
    && forall i :: c < i < j ==> !(es[i].Call? && es[i].t == t)
  }

  /** The check for the time-out tells t that its time is over. */
  predicate ToldAt(w: World, e: Event, t: nat) {
    e.Move? && e.t == t && e.expired && t in w.pc && w.pc[t].Locked?
  }

  /** The call that began with event c had no time to wait, or has been told that its time is over. */
  ghost predicate Over(ws: seq<World>, es: seq<Event>, t: nat, c: nat, j: nat)
    requires LastCall(es, t, c, j) && |ws| == |es| + 1
  {
    !es[c].patient || exists i :: c < i < j && ToldAt(ws[i], es[i], t)
  }

  /** No longer on the way to sleep. */
  predicate Spent(pc: Pc) {
    || (pc.Entering? && !pc.patient)
    || ((pc.UnlockingTx? || pc.UnlockingRx? || pc.Resuming?) && pc.next == GiveUp)
    || pc.LastLook?
  }

  /** What one event makes of a task's call. */
  lemma CallStep(w: World, e: Event, t: nat)
    requires Enabled(w, e) && t in w.pc && !(e.Call? && e.t == t)
    ensures var pc, w' := w.pc[t], Step(w, e);
            && t in w'.pc
            && (pc.Outside? ==> w'.pc[t] == pc)
            && (!pc.Outside? ==>
                  && (w'.pc[t].Outside? || w'.pc[t].op == pc.op)
                  && (!w'.pc[t].Outside? ==> (Spent(w'.pc[t]) <==> Spent(pc) || ToldAt(w, e, t)))
                  && (w'.pc[t] == Outside(false) ==> Spent(pc)))
  {
    hide TrySection, Place, Lock, UnlockTx, UnlockRx, SendFromIsr, ReceiveFromIsr, Reset, Without;
    if e.Move? && e.t == t && w.pc[t].Entering? {
      TryAnswers(w.q, t, w.pc[t].op, w.pc[t].patient);
    }
  }

  /** A task that tries passes iff there is something for it; if not, it waits iff it has time. */
  lemma TryAnswers(q: Queue, t: nat, op: Op, patient: bool)
    ensures TrySection(q, t, op, patient).1 ==
            if Ready(q, op) then Outside(true) else if patient then Missed(op) else Outside(false)
  {
  }

  /** A call heads for sleep until it is told that its time is over, and not a step longer; it fails only if
      it had no time to wait or has been told so. */
  lemma {:induction false} Answers(ws: seq<World>, es: seq<Event>, t: nat, c: nat, j: nat)
    requires Run(ws, es) && LastCall(es, t, c, j)
    ensures t in ws[j].pc
    ensures var pc := ws[j].pc[t];
            && (!pc.Outside? ==> pc.op == es[c].op && (Spent(pc) <==> Over(ws, es, t, c, j)))
            && (pc == Outside(false) ==> Over(ws, es, t, c, j))
    decreases j
  {
    hide Step;
    if j == c + 1 {
      CallBegins(ws[c], es[c]);
      assert ws[c + 1] == Step(ws[c], es[c]);
    } else {
      Answers(ws, es, t, c, j - 1);
      CallStep(ws[j - 1], es[j - 1], t);
      assert ws[j - 1 + 1] == Step(ws[j - 1], es[j - 1]);
      assert Over(ws, es, t, c, j) <==> Over(ws, es, t, c, j - 1) || ToldAt(ws[j - 1], es[j - 1], t);
    }
  }

  lemma CallBegins(w: World, e: Event)
    requires Enabled(w, e) && e.Call?
    ensures e.t in Step(w, e).pc && Step(w, e).pc[e.t] == Entering(e.op, e.patient)
  {
  }

  /** How a call ends. It passes just when it looks in the critical section and finds something; when it
      fails it had no time to wait or was told that its time was over, and a receiver has just found the
      queue empty. */
  lemma EndOfCall(ws: seq<World>, es: seq<Event>, t: nat, c: nat, j: nat)
    requires Run(ws, es) && LastCall(es, t, c, j) && j < |es|
    requires t in ws[j].pc && !ws[j].pc[t].Outside? && es[j].Move? && es[j].t == t
    ensures t in ws[j + 1].pc
    ensures ws[j + 1].pc[t] == Outside(true) <==> ws[j].pc[t].Entering? && Ready(ws[j].q, es[c].op)
    ensures ws[j + 1].pc[t] == Outside(false) ==>
              Over(ws, es, t, c, j) && (Receives(es[c].op) ==> ws[j].q.messages == 0)
  {
    var w, e := ws[j], es[j];
    Answers(ws, es, t, c, j);
    assert ws[j + 1] == Step(w, e);
    CallStep(w, e, t);
    if w.pc[t].Entering? {
      TryAnswers(w.q, t, w.pc[t].op, w.pc[t].patient);
    }
    hide TrySection, Place, Lock, UnlockTx, UnlockRx, Over;
  }

  // ----- how calls sleep

  ghost predicate ListedRx(q: Queue, t: nat) {
    t in q.waitRx || t in q.wokenRx
  }

  ghost predicate ListedTx(q: Queue, t: nat) {
    t in q.waitTx || t in q.wokenTx
  }

  /** Every task on its way to sleep or asleep is on the event list of its side, or has been woken off it. */
  ghost predicate SleepersListed(w: World) {
    forall t :: t in w.pc && Waits(w.pc[t]) ==> if Receives(w.pc[t].op) then ListedRx(w.q, t) else ListedTx(w.q, t)
  }

  /** Nobody drops out but t. */
  ghost predicate NobodyElse(q: Queue, q': Queue, t: nat) {
    forall x :: x != t ==> (ListedRx(q, x) ==> ListedRx(q', x)) && (ListedTx(q, x) ==> ListedTx(q', x))
  }

  ghost predicate Nobody(q: Queue, q': Queue) {
    forall x :: (ListedRx(q, x) ==> ListedRx(q', x)) && (ListedTx(q, x) ==> ListedTx(q', x))
  }

  lemma WakingDropsNobody(q: Queue)
    ensures Nobody(q, WakeRx(q)) && Nobody(q, WakeTx(q))
  {
    forall x
      ensures ListedRx(q, x) ==> ListedRx(WakeRx(q), x)
      ensures ListedTx(q, x) ==> ListedTx(WakeTx(q), x)
    {
      if q.waitRx != [] && x in q.waitRx && x !in q.waitRx[1..] {
        assert x == q.waitRx[0];
      }
      if q.waitTx != [] && x in q.waitTx && x !in q.waitTx[1..] {
        assert x == q.waitTx[0];
      }
    }
  }

  lemma {:induction false} UnlockingDropsNobody(q: Queue, n: nat)
    ensures Nobody(q, WakeRxTimes(q, n)) && Nobody(q, WakeTxTimes(q, n))
    decreases n
  {
    if n > 0 {
      WakingDropsNobody(q);
      UnlockingDropsNobody(WakeRx(q), n - 1);
      UnlockingDropsNobody(WakeTx(q), n - 1);
    }
  }

  lemma TryDropsNobodyElse(q: Queue, t: nat, op: Op, patient: bool)
    ensures NobodyElse(q, TrySection(q, t, op, patient).0, t)
  {
    var q0 := q.(wokenRx := q.wokenRx - {t}, wokenTx := q.wokenTx - {t});
    match op
    case Receive =>
      if q.messages > 0 {
        WakingDropsNobody(q0.(messages := q0.messages - 1));
      }
    case Peek =>
      WakingDropsNobody(q0);
    case Send(overwrite) =>
      WakingDropsNobody(Counted(q0, overwrite));
  }

  lemma PlacingLists(q: Queue, t: nat, op: Op, place: nat)
    requires place <= if Receives(op) then |q.waitRx| else |q.waitTx|
    ensures var q' := Place(q, t, op, place);
            Nobody(q, q') && if Receives(op) then ListedRx(q', t) else ListedTx(q', t)
  {
    forall x
      ensures place <= |q.waitRx| ==> (x in q.waitRx[..place] + [t] + q.waitRx[place..] <==> x in q.waitRx || x == t)
      ensures place <= |q.waitTx| ==> (x in q.waitTx[..place] + [t] + q.waitTx[place..] <==> x in q.waitTx || x == t)
    {
      PlacedIn(q.waitRx, place, t, x);
      PlacedIn(q.waitTx, place, t, x);
    }
  }

  lemma StepListed(w: World, e: Event)
    requires Enabled(w, e) && SleepersListed(w)
    ensures SleepersListed(Step(w, e))
  {
    match e
    case Call(_, _, _) =>
    case Move(_, _, _) => MoveListed(w, e);
    case TimeOut(t) =>
    case IsrSend(overwrite) => WakingDropsNobody(Counted(w.q, overwrite));
    case IsrReceive => WakingDropsNobody(w.q.(messages := w.q.messages - 1));
    case ResetBy(_) => WakingDropsNobody(w.q.(messages := 0, rxLock := UNLOCKED, txLock := UNLOCKED));
  }

  lemma MoveListed(w: World, e: Event)
    requires Enabled(w, e) && SleepersListed(w) && e.Move?
    ensures SleepersListed(Step(w, e))
  {
    match w.pc[e.t]
    case Entering(op, patient) =>
      TryDropsNobodyElse(w.q, e.t, op, patient);
      TryAnswers(w.q, e.t, op, patient);
      hide TrySection;
    case Placing(op) =>
      PlacingLists(w.q, e.t, op, e.place);
      hide Place;
    case UnlockingTx(op, next) => UnlockingDropsNobody(w.q, if w.q.txLock > 0 then w.q.txLock else 0);
    case UnlockingRx(op, next) => UnlockingDropsNobody(w.q, if w.q.rxLock > 0 then w.q.rxLock else 0);
    case _ =>
  }

  lemma {:induction false} AlwaysListed(ws: seq<World>, es: seq<Event>, k: nat)
    requires Run(ws, es) && Created(ws[0]) && k <= |es|
    ensures SleepersListed(ws[k])
  {
    hide Step, SleepersListed;
    if k == 0 {
      CreatedListed(ws[0]);
    } else {
      AlwaysListed(ws, es, k - 1);
      StepListed(ws[k - 1], es[k - 1]);
      assert ws[k - 1 + 1] == Step(ws[k - 1], es[k - 1]);
    }
  }

  lemma CreatedListed(w: World)
    requires Created(w)
    ensures SleepersListed(w)
  {
  }

  /** What the check for the time-out and the look at the queue after it decide. */
  function Decided(q: Queue, op: Op, expired: bool): Next {
    if expired then GiveUp
    else if q.messages == (if Receives(op) then 0 else q.length) then Block
    else Retry
  }

  predicate Carries(pc: Pc, op: Op, next: Next) {
    || pc == UnlockingTx(op, next) || pc == UnlockingRx(op, next) || pc == Resuming(op, next)
    || (pc == Placing(op) && next == Block)
  }

  /** What is decided is carried out, whatever interrupts come in between. */
  lemma CarriedOut(w: World, e: Event, t: nat, op: Op, next: Next)
    requires Consistent(w) && Enabled(w, e) && w.holder == Some(t) && t in w.pc && Carries(w.pc[t], op, next)
    ensures var w' := Step(w, e);
            && t in w'.pc
            && (w'.holder == Some(t) ==> Carries(w'.pc[t], op, next))
            && (w'.holder == None ==> w'.pc[t] == match next
                  case Block => Asleep(op)
                  case Retry => Entering(op, true)
                  case GiveUp => if Receives(op) then LastLook(op) else Outside(false))
            && (w'.holder == Some(t) || w'.holder == None)
  {
    hide Sound, TrySection, Place, Lock, UnlockTx, UnlockRx, SendFromIsr, ReceiveFromIsr;
  }

  lemma {:induction false} Carrying(ws: seq<World>, es: seq<Event>, t: nat, i: nat, j: nat)
    requires Run(ws, es) && Created(ws[0]) && i < j <= |es|
    requires es[i].Move? && es[i].t == t && t in ws[i].pc && ws[i].pc[t].Locked?
    requires forall k :: i < k <= j ==> ws[k].holder == Some(t)
    ensures t in ws[j].pc && Carries(ws[j].pc[t], ws[i].pc[t].op, Decided(ws[i].q, ws[i].pc[t].op, es[i].expired))
    decreases j
  {
    hide Consistent;
    if j == i + 1 {
      RunBalance(ws, es, i);
      assert ws[i + 1] == Step(ws[i], es[i]);
    } else {
      Carrying(ws, es, t, i, j - 1);
      RunBalance(ws, es, j - 1);
      hide Step, Carries, Decided;
      CarriedOut(ws[j - 1], es[j - 1], t, ws[i].pc[t].op, Decided(ws[i].q, ws[i].pc[t].op, es[i].expired));
      assert ws[j - 1 + 1] == Step(ws[j - 1], es[j - 1]);
    }
  }

  lemma HeldAfterCheck(ws: seq<World>, es: seq<Event>, t: nat, i: nat)
    requires Run(ws, es) && Created(ws[0]) && i < |es|
    requires es[i].Move? && es[i].t == t && t in ws[i].pc && ws[i].pc[t].Locked?
    ensures ws[i + 1].holder == Some(t)
  {
    RunBalance(ws, es, i);
    assert ws[i + 1] == Step(ws[i], es[i]);
  }

  /** From the check for the time-out to the resumption of the scheduler. Told that its time is over, a
      sender has failed and a receiver looks once more. With time left and still nothing there, the task is
      asleep, and on the event list unless it has been woken since; otherwise it tries again. */
  lemma AfterCheck(ws: seq<World>, es: seq<Event>, t: nat, i: nat, j: nat)
    requires Run(ws, es) && Created(ws[0]) && i < j <= |es|
    requires es[i].Move? && es[i].t == t && t in ws[i].pc && ws[i].pc[t].Locked?
    requires ws[j].holder == None && forall k :: i < k < j ==> ws[k].holder == Some(t)
    ensures t in ws[j].pc
    ensures var q, op := ws[i].q, ws[i].pc[t].op;
            ws[j].pc[t] ==
              if es[i].expired then if Receives(op) then LastLook(op) else Outside(false)
              else if q.messages == (if Receives(op) then 0 else q.length) then Asleep(op)
              else Entering(op, true)
    ensures ws[j].pc[t].Asleep? ==> if Receives(ws[i].pc[t].op) then ListedRx(ws[j].q, t) else ListedTx(ws[j].q, t)
  {
    AlwaysListed(ws, es, j);
    if j == i + 1 {
      HeldAfterCheck(ws, es, t, i);
      assert false;
    } else {
      Carrying(ws, es, t, i, j - 1);
      RunBalance(ws, es, j - 1);
      hide Consistent, Step, Sound;
      assert ws[j - 1 + 1] == Step(ws[j - 1], es[j - 1]);
      CarriedOut(ws[j - 1], es[j - 1], t, ws[i].pc[t].op, Decided(ws[i].q, ws[i].pc[t].op, es[i].expired));
    }
  }

  // ----- how calls get on

  /** How many moves a task is away at most from the end of its round. */
  function Stage(pc: Pc): nat {
    match pc
    case Outside(_) => 0
    case Asleep(_) => 0
    case LastLook(_) => 1
    case Resuming(_, _) => 2
    case UnlockingRx(_, _) => 3
    case UnlockingTx(_, _) => 4
    case Placing(_) => 5
    case Locked(_) => 6
    case Holding(_) => 7
    case Missed(_) => 8
    case Entering(_, _) => 9
  }

  /** A new round begins after a sleep, after the check for the time-out found something at the queue, or
      after the last look did. */
  predicate Rounds(pc: Pc) {
    pc.Asleep? || pc.LastLook? || (pc.Resuming? && pc.next == Retry)
  }

  lemma OwnMove(w: World, e: Event, t: nat)
    requires Enabled(w, e) && t in w.pc && !(e.Call? && e.t == t)
    ensures var pc, w' := w.pc[t], Step(w, e);
            && t in w'.pc
            && (w'.pc[t].Entering? && !pc.Entering? ==> Rounds(pc))
            && (!w'.pc[t].Entering? ==> Stage(w'.pc[t]) + (if e.Move? && e.t == t then 1 else 0) <= Stage(pc))
  {
    hide TrySection, Place, Lock, UnlockTx, UnlockRx, SendFromIsr, ReceiveFromIsr, Reset, Without;
    if e.Move? && e.t == t && w.pc[t].Entering? {
      TryAnswers(w.q, t, w.pc[t].op, w.pc[t].patient);
    }
  }

  function MovesOf(es: seq<Event>, t: nat): nat {
    if es == [] then 0
    else MovesOf(es[..|es| - 1], t) + if es[|es| - 1].Move? && es[|es| - 1].t == t then 1 else 0
  }

  /** A call gets on: each of a task's moves brings it nearer to the end of its round, and it begins another
      only for a reason. So of any nine moves of its own one ends its call, sends it to sleep, or has it try
      again for such a reason. */
  lemma {:induction false} RoundsEnd(ws: seq<World>, es: seq<Event>, t: nat, i: nat, j: nat)
    requires Run(ws, es) && i <= j <= |es| && t in ws[i].pc
    requires forall k :: i <= k < j ==> !(es[k].Call? && es[k].t == t)
    requires forall k :: i < k <= j ==> t in ws[k].pc && !ws[k].pc[t].Entering?
    ensures t in ws[j].pc && MovesOf(es[i..j], t) + Stage(ws[j].pc[t]) <= Stage(ws[i].pc[t]) <= 9
    decreases j
  {
    hide Run, MovesOf, Rounds;
    if i < j {
      RoundsEnd(ws, es, t, i, j - 1);
      Nearer(ws, es, t, j - 1);
      MovesWithLast(es, t, i, j);
    } else {
      NoMoves(t);
      assert es[i..j] == [];
    }
  }

  lemma MovesWithLast(es: seq<Event>, t: nat, i: nat, j: nat)
    requires i < j <= |es|
    ensures MovesOf(es[i..j], t) == MovesOf(es[i..j - 1], t) + if es[j - 1].Move? && es[j - 1].t == t then 1 else 0
  {
    assert es[i..j][..j - i - 1] == es[i..j - 1] && es[i..j][j - i - 1] == es[j - 1];
  }

  lemma NoMoves(t: nat)
    ensures MovesOf([], t) == 0
  {
  }

  lemma Nearer(ws: seq<World>, es: seq<Event>, t: nat, k: nat)
    requires Run(ws, es) && k < |es| && t in ws[k].pc && !(es[k].Call? && es[k].t == t)
    requires t in ws[k + 1].pc && !ws[k + 1].pc[t].Entering?
    ensures Stage(ws[k + 1].pc[t]) + (if es[k].Move? && es[k].t == t then 1 else 0) <= Stage(ws[k].pc[t])
  {
    hide Step, Stage, Rounds, Enabled;
    assert Enabled(ws[k], es[k]) && ws[k + 1] == Step(ws[k], es[k]);
    OwnMove(ws[k], es[k], t);
  }

  // ----- messages

  /** By how much an event changes the number of messages. */
  ghost function Change(w: World, e: Event): int
    requires Enabled(w, e)
  {
    match e
    case IsrSend(overwrite) => if overwrite && w.q.messages > 0 then 0 else 1
    case IsrReceive => -1
    case ResetBy(_) => 0 - w.q.messages
    case Move(t, _, _) => if w.pc[t].Entering? && Step(w, e).pc[t] == Outside(true) then Effect(w.q, w.pc[t].op) else 0
    case _ => 0
  }

  function Effect(q: Queue, op: Op): int {
    match op
    case Receive => -1
    case Peek => 0
    case Send(overwrite) => if overwrite && q.messages > 0 then 0 else 1
  }

  lemma {:induction false} UnlockingMoves(q: Queue, n: nat)
    ensures WakeRxTimes(q, n).messages == q.messages && WakeTxTimes(q, n).messages == q.messages
    decreases n
  {
    if n > 0 {
      UnlockingMoves(WakeRx(q), n - 1);
      UnlockingMoves(WakeTx(q), n - 1);
    }
  }

  /** Each call that passes takes or adds its one message, and nothing else changes their number but
      interrupts and resets. */
  lemma MessagesCounted(w: World, e: Event)
    requires Enabled(w, e)
    ensures Step(w, e).q.messages == w.q.messages + Change(w, e)
  {
    if e.Move? && w.pc[e.t].UnlockingTx? {
      UnlockingMoves(w.q, if w.q.txLock > 0 then w.q.txLock else 0);
    } else if e.Move? && w.pc[e.t].UnlockingRx? {
      UnlockingMoves(w.q, if w.q.rxLock > 0 then w.q.rxLock else 0);
    }
  }

  // ----- the order of waking

  /** x waits ahead of y. */
  ghost predicate Ahead(s: seq<nat>, x: nat, y: nat) {
    exists i, j :: 0 <= i < j < |s| && s[i] == x && s[j] == y
  }

  /** A list as an event may leave it: those at the head gone, one put in, or one taken out. */
  ghost predicate Dropped(s: seq<nat>, s': seq<nat>) {
    exists n :: 0 <= n <= |s| && s' == s[n..]
  }

  /** Of two waiting tasks the one behind does not go before the one ahead, unless its own time runs out. */
  ghost predicate InOrder(s: seq<nat>, s': seq<nat>, late: Option<nat>) {
    forall x, y :: Ahead(s, x, y) ==>
      && (x in s' && y in s' ==> Ahead(s', x, y))
      && (y !in s' && late != Some(y) ==> x !in s')
  }

  lemma DropKeepsAhead(s: seq<nat>, n: nat, x: nat, y: nat)
    requires Distinct(s) && n <= |s| && Ahead(s, x, y) && x in s[n..]
    ensures Ahead(s[n..], x, y) && y in s[n..]
  {
    var i, j :| 0 <= i < j < |s| && s[i] == x && s[j] == y;
    var k :| 0 <= k < |s| - n && s[n..][k] == x;
    assert s[n + k] == x;
    assert s[n..][i - n] == x && s[n..][j - n] == y;
  }

  lemma DropInOrder(s: seq<nat>, s': seq<nat>)
    requires Distinct(s) && Dropped(s, s')
    ensures InOrder(s, s', None)
  {
    var n :| 0 <= n <= |s| && s' == s[n..];
    hide Ahead, Distinct;
    forall x, y | Ahead(s, x, y) && x in s'
      ensures Ahead(s', x, y) && y in s'
    {
      DropKeepsAhead(s, n, x, y);
    }
  }

  lemma PlaceInOrder(s: seq<nat>, place: nat, t: nat)
    requires place <= |s|
    ensures InOrder(s, s[..place] + [t] + s[place..], None)
  {
    var s' := s[..place] + [t] + s[place..];
    forall x, y | Ahead(s, x, y)
      ensures Ahead(s', x, y) && y in s'
    {
      var i, j :| 0 <= i < j < |s| && s[i] == x && s[j] == y;
      var i', j' := if i < place then i else i + 1, if j < place then j else j + 1;
      assert s'[i'] == x && s'[j'] == y;
    }
  }

  lemma {:induction false} WithoutInOrder(s: seq<nat>, t: nat)
    ensures InOrder(s, Without(s, t), Some(t))
  {
    if s != [] {
      var rest, s' := Without(s[1..], t), Without(s, t);
      WithoutInOrder(s[1..], t);
      forall x, y | Ahead(s, x, y) && x in s' && y in s'
        ensures Ahead(s', x, y)
      {
        var i, j :| 0 <= i < j < |s| && s[i] == x && s[j] == y;
        assert s[1..][j - 1] == y;
        if i > 0 {
          assert s[1..][i - 1] == x;
          assert Ahead(s[1..], x, y);
          assert x in rest && y in rest;
          var i', j' :| 0 <= i' < j' < |rest| && rest[i'] == x && rest[j'] == y;
          AheadLater(s', rest, i', j');
        } else {
          assert y in rest;
          var k :| 0 <= k < |rest| && rest[k] == y;
          assert s' == [x] + rest;
          assert s'[0] == x && s'[k + 1] == y;
        }
      }
    }
  }

  lemma AheadLater(s: seq<nat>, rest: seq<nat>, i: nat, j: nat)
    requires i < j < |rest| && (s == rest || (|s| == |rest| + 1 && s[1..] == rest))
    ensures Ahead(s, rest[i], rest[j])
  {
    if s != rest {
      assert s[i + 1] == rest[i] && s[j + 1] == rest[j];
    }
  }

  lemma WakingDrops(q: Queue)
    ensures Dropped(q.waitRx, WakeRx(q).waitRx) && WakeRx(q).waitTx == q.waitTx
    ensures Dropped(q.waitTx, WakeTx(q).waitTx) && WakeTx(q).waitRx == q.waitRx
  {
    assert q.waitRx == q.waitRx[0..] && q.waitTx == q.waitTx[0..];
  }

  lemma {:induction false} UnlockingDrops(q: Queue, n: nat)
    ensures Dropped(q.waitRx, WakeRxTimes(q, n).waitRx) && WakeRxTimes(q, n).waitTx == q.waitTx
    decreases n
  {
    hide Dropped;
    Unmoved(q.waitRx);
    if n > 0 && q.waitRx != [] {
      UnlockingDrops(WakeRx(q), n - 1);
      DroppedMore(q.waitRx, WakeRxTimes(WakeRx(q), n - 1).waitRx);
    }
  }

  lemma {:induction false} UnlockingDropsTx(q: Queue, n: nat)
    ensures Dropped(q.waitTx, WakeTxTimes(q, n).waitTx) && WakeTxTimes(q, n).waitRx == q.waitRx
    decreases n
  {
    hide Dropped;
    Unmoved(q.waitTx);
    if n > 0 && q.waitTx != [] {
      UnlockingDropsTx(WakeTx(q), n - 1);
      DroppedMore(q.waitTx, WakeTxTimes(WakeTx(q), n - 1).waitTx);
    }
  }

  lemma DroppedMore(s: seq<nat>, s': seq<nat>)
    requires s != [] && Dropped(s[1..], s')
    ensures Dropped(s, s')
  {
    var n :| 0 <= n <= |s| - 1 && s' == s[1..][n..];
    assert s' == s[n + 1..];
  }

  /** Which event takes a task off its list without waking it. */
  function Late(e: Event): Option<nat> {
    if e.TimeOut? then Some(e.t) else None
  }

  lemma Unmoved(s: seq<nat>)
    ensures Dropped(s, s)
  {
    assert s == s[0..];
  }

  /** A queue whose two lists have only lost tasks at the head. */
  ghost predicate OnlyWoken(q: Queue, q': Queue) {
    Dropped(q.waitRx, q'.waitRx) && Dropped(q.waitTx, q'.waitTx)
  }

  lemma StepWakes(w: World, e: Event)
    requires Enabled(w, e) && !e.TimeOut? && !(e.Move? && w.pc[e.t].Placing?)
    ensures OnlyWoken(w.q, Step(w, e).q)
  {
    hide Dropped, WakeRxTimes, WakeTxTimes, WakeRx, WakeTx;
    Unmoved(w.q.waitRx);
    Unmoved(w.q.waitTx);
    match e
    case Call(_, _, _) =>
    case Move(t, _, _) =>
      match w.pc[t] {
        case Entering(op, patient) =>
          var q0 := w.q.(wokenRx := w.q.wokenRx - {t}, wokenTx := w.q.wokenTx - {t});
          WakingDrops(q0);
          if op.Send? {
            WakingDrops(Counted(q0, op.overwrite));
          } else if w.q.messages > 0 {
            WakingDrops(q0.(messages := q0.messages - 1));
          }
        case UnlockingTx(_, _) => UnlockingDrops(w.q, if w.q.txLock > 0 then w.q.txLock else 0);
        case UnlockingRx(_, _) => UnlockingDropsTx(w.q, if w.q.rxLock > 0 then w.q.rxLock else 0);
        case _ =>
      }
    case IsrSend(overwrite) => WakingDrops(Counted(w.q, overwrite));
    case IsrReceive => WakingDrops(w.q.(messages := w.q.messages - 1));
    case ResetBy(_) => WakingDrops(w.q.(messages := 0, rxLock := UNLOCKED, txLock := UNLOCKED));
  }

  /** Whoever waits ahead is woken first: no event changes the order of the tasks on an event list, and none
      but its own time-out takes a task off before the tasks ahead of it. */
  lemma WokenInTurn(w: World, e: Event)
    requires Consistent(w) && Enabled(w, e)
    ensures InOrder(w.q.waitRx, Step(w, e).q.waitRx, Late(e))
    ensures InOrder(w.q.waitTx, Step(w, e).q.waitTx, Late(e))
  {
    hide InOrder, Dropped;
    if e.TimeOut? {
      WithoutInOrder(w.q.waitRx, e.t);
      WithoutInOrder(w.q.waitTx, e.t);
    } else if e.Move? && w.pc[e.t].Placing? {
      PlacesInOrder(w, e);
    } else {
      StepWakes(w, e);
      DropInOrder(w.q.waitRx, Step(w, e).q.waitRx);
      DropInOrder(w.q.waitTx, Step(w, e).q.waitTx);
    }
  }

  lemma PlacesInOrder(w: World, e: Event)
    requires Consistent(w) && Enabled(w, e) && e.Move? && w.pc[e.t].Placing?
    ensures InOrder(w.q.waitRx, Step(w, e).q.waitRx, None)
    ensures InOrder(w.q.waitTx, Step(w, e).q.waitTx, None)
  {
    hide InOrder, Dropped, Distinct;
    PlacedLists(w, e);
    SoundDistinct(w);
    hide Step, Consistent, Place;
    Unmoved(w.q.waitRx);
    Unmoved(w.q.waitTx);
    DropInOrder(w.q.waitRx, w.q.waitRx);
    DropInOrder(w.q.waitTx, w.q.waitTx);
    if Receives(w.pc[e.t].op) {
      PlaceInOrder(w.q.waitRx, e.place, e.t);
    } else {
      PlaceInOrder(w.q.waitTx, e.place, e.t);
    }
  }

  lemma SoundDistinct(w: World)
    requires Consistent(w)
    ensures Distinct(w.q.waitRx) && Distinct(w.q.waitTx)
  {
    hide Distinct;
  }

  lemma PlacedLists(w: World, e: Event)
    requires Enabled(w, e) && e.Move? && w.pc[e.t].Placing?
    ensures var q, q' := w.q, Step(w, e).q;
            if Receives(w.pc[e.t].op)
            then e.place <= |q.waitRx| && q'.waitRx == q.waitRx[..e.place] + [e.t] + q.waitRx[e.place..] && q'.waitTx == q.waitTx
            else e.place <= |q.waitTx| && q'.waitTx == q.waitTx[..e.place] + [e.t] + q.waitTx[e.place..] && q'.waitRx == q.waitRx
  {
  }
}
