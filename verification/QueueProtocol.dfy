/** How tasks and interrupts meet at a queue: the blocking protocol of queue.c, with its lock counters,
    as steps between critical sections. No wake-up is lost. */
module QueueProtocol {
  import opened Basics

  const UNLOCKED := -1
  const LOCKED_UNMODIFIED := 0
  const INT8_MAX := 127

  /** `messages` of at most `length`; the two lock counters; the tasks on the event lists, the next to be
      woken first; and the tasks taken off an event list that have not yet run again. */
  datatype Queue = Queue(length: nat, messages: nat, txLock: int, rxLock: int,
                         waitRx: seq<nat>, waitTx: seq<nat>,
                         wokenRx: set<nat>, wokenTx: set<nat>)

  // ----- what each critical section does to the queue

  /** `xTaskRemoveFromEventList` on the receivers' list, if there is one waiting. */
  function WakeRx(q: Queue): Queue {
    if q.waitRx == [] then q else q.(waitRx := q.waitRx[1..], wokenRx := q.wokenRx + {q.waitRx[0]})
  }

  function WakeTx(q: Queue): Queue {
    if q.waitTx == [] then q else q.(waitTx := q.waitTx[1..], wokenTx := q.wokenTx + {q.waitTx[0]})
  }

  function Room(q: Queue, overwrite: bool): bool {
    q.messages < q.length || overwrite
  }

  /** The message count after one more was sent. */
  function Counted(q: Queue, overwrite: bool): Queue {
    if overwrite && q.messages > 0 then q else q.(messages := q.messages + 1)
  }

  function SendSection(q: Queue, overwrite: bool): Queue {
    WakeRx(Counted(q, overwrite))
  }

  function ReceiveSection(q: Queue): Queue
    requires q.messages > 0
  {
    WakeTx(q.(messages := q.messages - 1))
  }

  /** The message is left, so the next waiting receiver may have it. */
  function PeekSection(q: Queue): Queue {
    WakeRx(q)
  }

  /** From an interrupt: a locked queue's event lists are left alone and the event is counted. */
  function SendFromIsr(q: Queue, overwrite: bool): Queue {
    if q.txLock == UNLOCKED then WakeRx(Counted(q, overwrite)) else Counted(q, overwrite).(txLock := q.txLock + 1)
  }

  function ReceiveFromIsr(q: Queue): Queue
    requires q.messages > 0
  {
    if q.rxLock == UNLOCKED then WakeTx(q.(messages := q.messages - 1))
    else q.(messages := q.messages - 1, rxLock := q.rxLock + 1)
  }

  function Lock(q: Queue): Queue {
    q.(rxLock := if q.rxLock == UNLOCKED then LOCKED_UNMODIFIED else q.rxLock,
       txLock := if q.txLock == UNLOCKED then LOCKED_UNMODIFIED else q.txLock)
  }

  function WakeRxTimes(q: Queue, n: nat): Queue
    decreases n
  {
    if n == 0 || q.waitRx == [] then q else WakeRxTimes(WakeRx(q), n - 1)
  }

  function WakeTxTimes(q: Queue, n: nat): Queue
    decreases n
  {
    if n == 0 || q.waitTx == [] then q else WakeTxTimes(WakeTx(q), n - 1)
  }

  /** The two halves of `prvUnlockQueue`: one waiting task is woken for each event counted. */
  function UnlockTx(q: Queue): Queue {
    WakeRxTimes(q, if q.txLock > 0 then q.txLock else 0).(txLock := UNLOCKED)
  }

  function UnlockRx(q: Queue): Queue {
    WakeTxTimes(q, if q.rxLock > 0 then q.rxLock else 0).(rxLock := UNLOCKED)
  }

  /** `xQueueGenericReset` of a queue in use: one waiting sender is woken, however much room there is. */
  function Reset(q: Queue): Queue {
    WakeTx(q.(messages := 0, rxLock := UNLOCKED, txLock := UNLOCKED))
  }

  // ----- the tasks

  datatype Op = Receive | Peek | Send(overwrite: bool)

  /** What follows once the queue is unlocked: wait on the event list, try again, or give up. */
  datatype Next = Block | Retry | GiveUp

  /** Where a task stands in its call. */
  datatype Pc =
    | Outside(passed: bool)             // with what its last call came to
    | Entering(op: Op, patient: bool)   // about to try in the critical section; impatient with no time left
    | Missed(op: Op)                    // nothing there; about to suspend the scheduler
    | Holding(op: Op)                   // scheduler suspended; about to lock the queue
    | Locked(op: Op)                    // about to check for the time-out, then for data or room
    | Placing(op: Op)                   // still nothing; about to go on the event list
    | UnlockingTx(op: Op, next: Next)
    | UnlockingRx(op: Op, next: Next)
    | Resuming(op: Op, next: Next)      // about to resume the scheduler
    | Asleep(op: Op)
    | LastLook(op: Op)                  // timed out; looks once more before giving up

  datatype World = World(q: Queue, pc: map<nat, Pc>, holder: Option<nat>)

  /** A call begins, with time to wait or without; a task moves on; a waiting task's time runs out; an
      interrupt sends or receives; a task resets the queue. */
  datatype Event =
    | Call(t: nat, op: Op, patient: bool)
    | Move(t: nat, expired: bool, place: nat)  // what the check for the time-out says; the place on the list
    | TimeOut(t: nat)
    | IsrSend(overwrite: bool)
    | IsrReceive
    | ResetBy(t: nat)

  predicate Suspends(pc: Pc) {
    pc.Holding? || pc.Locked? || pc.Placing? || pc.UnlockingTx? || pc.UnlockingRx? || pc.Resuming?
  }

  /** On its way to sleep, or asleep. */
  predicate Waits(pc: Pc) {
    || ((pc.UnlockingTx? || pc.UnlockingRx? || pc.Resuming?) && pc.next == Block)
    || pc.Asleep?
  }

  predicate Receives(op: Op) {
    op.Receive? || op.Peek?
  }

  /** What may happen. A full lock counter stops the system on an assertion. */
  ghost predicate Enabled(w: World, e: Event) {
    match e
    case Call(t, op, _) =>
      t in w.pc && w.holder == None && w.pc[t].Outside? && (op == Send(true) ==> w.q.length == 1)
    case Move(t, _, place) =>
      && t in w.pc && !w.pc[t].Outside? && (w.holder == None || w.holder == Some(t))
      && (w.pc[t].Asleep? ==> t !in w.q.waitRx && t !in w.q.waitTx)
      && (w.pc[t].Placing? ==> place <= if Receives(w.pc[t].op) then |w.q.waitRx| else |w.q.waitTx|)
    case TimeOut(t) => t in w.pc && w.holder == None && w.pc[t].Asleep?
    case IsrSend(overwrite) =>
      Room(w.q, overwrite) && (overwrite ==> w.q.length == 1) && w.q.txLock != INT8_MAX
    case IsrReceive => w.q.messages > 0 && w.q.rxLock != INT8_MAX
    case ResetBy(t) => t in w.pc && w.holder == None && w.pc[t].Outside?
  }

  function Without(s: seq<nat>, t: nat): (r: seq<nat>)
    ensures t !in r && (forall x :: x in r <==> x in s && x != t)
  {
    if s == [] then [] else if s[0] == t then Without(s[1..], t) else [s[0]] + Without(s[1..], t)
  }

  /** The critical section a task enters. */
  function TrySection(q: Queue, t: nat, op: Op, patient: bool): (Queue, Pc) {
    var q0 := q.(wokenRx := q.wokenRx - {t}, wokenTx := q.wokenTx - {t});
    var missed := if patient then Missed(op) else Outside(false);
    match op
    case Receive => if q.messages > 0 then (ReceiveSection(q0), Outside(true)) else (q0, missed)
    case Peek => if q.messages > 0 then (PeekSection(q0), Outside(true)) else (q0, missed)
    case Send(overwrite) => if Room(q, overwrite) then (SendSection(q0, overwrite), Outside(true)) else (q0, missed)
  }

  function Place(q: Queue, t: nat, op: Op, place: nat): Queue
    requires place <= if Receives(op) then |q.waitRx| else |q.waitTx|
  {
    if Receives(op) then q.(waitRx := q.waitRx[..place] + [t] + q.waitRx[place..])
    else q.(waitTx := q.waitTx[..place] + [t] + q.waitTx[place..])
  }

  function Nothing(q: Queue, op: Op): bool {
    if Receives(op) then q.messages == 0 else q.messages == q.length
  }

  function MoveTask(w: World, t: nat, expired: bool, place: nat): World
    requires Enabled(w, Move(t, expired, place))
  {
    match w.pc[t]
    case Entering(op, patient) =>
      var (q', pc') := TrySection(w.q, t, op, patient);
      w.(q := q', pc := w.pc[t := pc'])
    case Missed(op) => w.(pc := w.pc[t := Holding(op)], holder := Some(t))
    case Holding(op) => w.(q := Lock(w.q), pc := w.pc[t := Locked(op)])
    case Locked(op) =>
      w.(pc := w.pc[t := if expired then UnlockingTx(op, GiveUp)
                         else if Nothing(w.q, op) then Placing(op)
                         else UnlockingTx(op, Retry)])
    case Placing(op) => w.(q := Place(w.q, t, op, place), pc := w.pc[t := UnlockingTx(op, Block)])
    case UnlockingTx(op, next) => w.(q := UnlockTx(w.q), pc := w.pc[t := UnlockingRx(op, next)])
    case UnlockingRx(op, next) => w.(q := UnlockRx(w.q), pc := w.pc[t := Resuming(op, next)])
    case Resuming(op, next) =>
      w.(pc := w.pc[t := match next
                         case Block => Asleep(op)
                         case Retry => Entering(op, true)
                         case GiveUp => if Receives(op) then LastLook(op) else Outside(false)], holder := None)
    case Asleep(op) => w.(pc := w.pc[t := Entering(op, true)])
    case LastLook(op) => w.(pc := w.pc[t := if Nothing(w.q, op) then Outside(false) else Entering(op, false)])
    case Outside(_) => w
  }

  function Step(w: World, e: Event): World
    requires Enabled(w, e)
  {
    match e
    case Call(t, op, patient) => w.(pc := w.pc[t := Entering(op, patient)])
    case Move(t, expired, place) => MoveTask(w, t, expired, place)
    case TimeOut(t) =>
      w.(q := w.q.(waitRx := Without(w.q.waitRx, t), waitTx := Without(w.q.waitTx, t)),
         pc := w.pc[t := Entering(w.pc[t].op, true)])
    case IsrSend(overwrite) => w.(q := SendFromIsr(w.q, overwrite))
    case IsrReceive => w.(q := ReceiveFromIsr(w.q))
    case ResetBy(t) => w.(q := Reset(w.q))
  }
}
