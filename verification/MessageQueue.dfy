/** The queue of queue.c: a ring buffer with two cursors, the lock counters and the event lists, updated in
    place by its critical sections. Places in the buffer are counted in items. */
module MessageQueue {
  import opened Basics
  import P = QueueProtocol

  datatype Position = Back | Front | Overwrite

  /** What a send makes of the messages: a bounded sequence's operations. */
  function Sent<T>(s: seq<T>, x: T, position: Position): (s': seq<T>) {
    match position
    case Back => s + [x]
    case Front => [x] + s
    case Overwrite => if s == [] then [x] else [x] + s[1..]
  }

  /** A place counted from the start of the buffer, over its end and round again. */
  function Wrap(length: nat, k: nat): (r: nat)
    requires length > 0 && k <= 2 * length
    ensures r < length
  {
    if k >= 2 * length then k - 2 * length else if k >= length then k - length else k
  }

  /** The messages between the cursors: the oldest stands behind the read cursor. */
  function Between<T>(storage: seq<T>, readFrom: nat, n: nat): (s: seq<T>)
    requires readFrom < |storage| && n <= |storage|
    ensures |s| == n && forall i :: 0 <= i < n ==> s[i] == storage[Wrap(|storage|, readFrom + 1 + i)]
  {
    seq(n, i requires 0 <= i < n => storage[Wrap(|storage|, readFrom + 1 + i)])
  }

  lemma BackAppends<T>(storage: seq<T>, readFrom: nat, n: nat, x: T)
    requires readFrom < |storage| && n < |storage|
    ensures Between(storage[Wrap(|storage|, readFrom + 1 + n) := x], readFrom, n + 1) == Between(storage, readFrom, n) + [x]
  {
    var s', s := Between(storage[Wrap(|storage|, readFrom + 1 + n) := x], readFrom, n + 1), Between(storage, readFrom, n);
    assert forall i :: 0 <= i < n ==> s'[i] == s[i];
    assert s'[..n] == s && s'[n] == x;
  }

  lemma FrontPrepends<T>(storage: seq<T>, readFrom: nat, n: nat, x: T)
    requires readFrom < |storage| && n < |storage|
    ensures var before := if readFrom == 0 then |storage| - 1 else readFrom - 1;
            Between(storage[readFrom := x], before, n + 1) == [x] + Between(storage, readFrom, n)
  {
    var before := if readFrom == 0 then |storage| - 1 else readFrom - 1;
    var s', s := Between(storage[readFrom := x], before, n + 1), Between(storage, readFrom, n);
    assert forall i :: 0 <= i < n ==> s'[1..][i] == s[i];
    assert s'[1..] == s && s'[0] == x;
  }

  lemma ReadTakes<T>(storage: seq<T>, readFrom: nat, n: nat)
    requires readFrom < |storage| && 0 < n <= |storage|
    ensures var after := if readFrom + 1 == |storage| then 0 else readFrom + 1;
            && storage[after] == Between(storage, readFrom, n)[0]
            && Between(storage, after, n - 1) == Between(storage, readFrom, n)[1..]
  {
    var after := if readFrom + 1 == |storage| then 0 else readFrom + 1;
    var s', s := Between(storage, after, n - 1), Between(storage, readFrom, n);
    assert s[0] == storage[Wrap(|storage|, readFrom + 1 + 0)];
    assert forall i :: 0 <= i < n - 1 ==> s'[i] == s[1..][i];
  }

  class Queue<T(0)> {
    const length: nat
    const storage: array<T>
    var messagesWaiting: nat
    var writeTo: nat
    var readFrom: nat
    var rxLock: int
    var txLock: int
    var waitRx: seq<nat>
    var waitTx: seq<nat>
    ghost var wokenRx: set<nat>
    ghost var wokenTx: set<nat>

    ghost predicate Valid()
      reads this, storage
    {
      && storage.Length == length >= 1
      && messagesWaiting <= length && readFrom < length
      && writeTo == Wrap(length, readFrom + 1 + messagesWaiting)
    }

    /** The messages, the next to be received first. */
    ghost function Contents(): (s: seq<T>)
      requires Valid()
      reads this, storage
      ensures |s| == messagesWaiting
    {
      Between(storage[..], readFrom, messagesWaiting)
    }

    ghost function Control(): P.Queue
      reads this
    {
      P.Queue(length, messagesWaiting, txLock, rxLock, waitRx, waitTx, wokenRx, wokenTx)
    }

    constructor (length: nat)
      requires length >= 1
      ensures Valid() && fresh(storage) && Contents() == []
      ensures Control() == P.Queue(length, 0, P.UNLOCKED, P.UNLOCKED, [], [], {}, {})
    {
      this.length := length;
      storage := new T[length];
      messagesWaiting, writeTo, readFrom := 0, 0, length - 1;
      rxLock, txLock := P.UNLOCKED, P.UNLOCKED;
      waitRx, waitTx, wokenRx, wokenTx := [], [], {}, {};
      new;
      assert Contents() == [];
    }

    /** The branch of `prvCopyDataToQueue` for the back. */
    method PutBack(x: T)
      requires Valid() && messagesWaiting < length
      modifies this`messagesWaiting, this`writeTo, storage
      ensures Valid() && Contents() == old(Contents()) + [x]
      ensures Control() == P.Counted(old(Control()), false)
    {
      ghost var s := storage[..];
      BackAppends(s, readFrom, messagesWaiting, x);
      storage[writeTo] := x;
      assert storage[..] == s[writeTo := x];
      writeTo := writeTo + 1;
      if writeTo >= length {
        writeTo := 0;
      }
      messagesWaiting := messagesWaiting + 1;
    }

    /** The branch for the front, which overwriting a queue of one shares. */
    method PutFront(x: T, overwrite: bool)
      requires Valid() && (messagesWaiting < length || overwrite) && (overwrite ==> length == 1)
      modifies this`messagesWaiting, this`readFrom, storage
      ensures Valid() && Contents() == Sent(old(Contents()), x, if overwrite then Overwrite else Front)
      ensures Control() == P.Counted(old(Control()), overwrite)
    {
      var waiting := messagesWaiting;
      ghost var s := storage[..];
      if waiting < length {
        FrontPrepends(s, readFrom, waiting, x);
      }
      storage[readFrom] := x;
      assert storage[..] == s[readFrom := x];
      readFrom := if readFrom == 0 then length - 1 else readFrom - 1;
      if overwrite && waiting > 0 {
        waiting := waiting - 1;
      }
      messagesWaiting := waiting + 1;
    }

    /** `prvCopyDataToQueue` */
    method CopyDataToQueue(x: T, position: Position)
      requires Valid() && (messagesWaiting < length || position == Overwrite) && (position == Overwrite ==> length == 1)
      modifies this`messagesWaiting, this`writeTo, this`readFrom, storage
      ensures Valid() && Contents() == Sent(old(Contents()), x, position)
      ensures Control() == P.Counted(old(Control()), position == Overwrite)
    {
      hide Between;
      if position == Back {
        PutBack(x);
      } else {
        PutFront(x, position == Overwrite);
      }
    }

    /** `prvCopyDataFromQueue`: the cursor moves on and the message is copied out. */
    method CopyDataFromQueue() returns (x: T)
      requires Valid() && messagesWaiting > 0
      modifies this`readFrom
      ensures readFrom == if old(readFrom) + 1 == length then 0 else old(readFrom) + 1
      ensures x == storage[readFrom]
    {
      readFrom := readFrom + 1;
      if readFrom >= length {
        readFrom := 0;
      }
      x := storage[readFrom];
    }

    method WakeReceiver()
      requires Valid()
      modifies this`waitRx, this`wokenRx
      ensures Valid() && Contents() == old(Contents()) && Control() == P.WakeRx(old(Control()))
    {
      if waitRx != [] {
        wokenRx := wokenRx + {waitRx[0]};
        waitRx := waitRx[1..];
      }
    }

    method WakeSender()
      requires Valid()
      modifies this`waitTx, this`wokenTx
      ensures Valid() && Contents() == old(Contents()) && Control() == P.WakeTx(old(Control()))
    {
      if waitTx != [] {
        wokenTx := wokenTx + {waitTx[0]};
        waitTx := waitTx[1..];
      }
    }

    /** The critical section of `xQueueGenericSend`. */
    method TrySend(x: T, position: Position) returns (ok: bool)
      requires Valid() && (position == Overwrite ==> length == 1)
      modifies this, storage
      ensures Valid() && ok == P.Room(old(Control()), position == Overwrite)
      ensures Contents() == if ok then Sent(old(Contents()), x, position) else old(Contents())
      ensures Control() == if ok then P.SendSection(old(Control()), position == Overwrite) else old(Control())
    {
      ok := messagesWaiting < length || position == Overwrite;
      if ok {
        CopyDataToQueue(x, position);
        WakeReceiver();
      }
    }

    /** The critical section of `xQueueReceive`. */
    method TryReceive() returns (r: Option<T>)
      requires Valid()
      modifies this
      ensures Valid() && r == if old(Contents()) == [] then None else Some(old(Contents())[0])
      ensures Contents() == if r == None then old(Contents()) else old(Contents())[1..]
      ensures Control() == if r == None then old(Control()) else P.ReceiveSection(old(Control()))
    {
      r := None;
      if messagesWaiting > 0 {
        ReadTakes(storage[..], readFrom, messagesWaiting);
        var x := CopyDataFromQueue();
        messagesWaiting := messagesWaiting - 1;
        r := Some(x);
        WakeSender();
      }
    }

    /** The critical section of `xQueuePeek`: the read cursor is put back. */
    method TryPeek() returns (r: Option<T>)
      requires Valid()
      modifies this
      ensures Valid() && r == if old(Contents()) == [] then None else Some(old(Contents())[0])
      ensures Contents() == old(Contents())
      ensures Control() == if r == None then old(Control()) else P.PeekSection(old(Control()))
    {
      r := None;
      if messagesWaiting > 0 {
        ReadTakes(storage[..], readFrom, messagesWaiting);
        var originalReadPosition := readFrom;
        var x := CopyDataFromQueue();
        readFrom := originalReadPosition;
        r := Some(x);
        WakeReceiver();
      }
    }

    /** `xQueueGenericSendFromISR` */
    method SendFromIsr(x: T, position: Position) returns (ok: bool)
      requires Valid() && (position == Overwrite ==> length == 1) && txLock != P.INT8_MAX
      modifies this, storage
      ensures Valid() && ok == P.Room(old(Control()), position == Overwrite)
      ensures Contents() == if ok then Sent(old(Contents()), x, position) else old(Contents())
      ensures Control() == if ok then P.SendFromIsr(old(Control()), position == Overwrite) else old(Control())
    {
      ok := messagesWaiting < length || position == Overwrite;
      if ok {
        var lock := txLock;
        CopyDataToQueue(x, position);
        if lock == P.UNLOCKED {
          WakeReceiver();
        } else {
          txLock := lock + 1;
        }
      }
    }

    /** `xQueueReceiveFromISR` */
    method ReceiveFromIsr() returns (r: Option<T>)
      requires Valid() && rxLock != P.INT8_MAX
      modifies this
      ensures Valid() && r == if old(Contents()) == [] then None else Some(old(Contents())[0])
      ensures Contents() == if r == None then old(Contents()) else old(Contents())[1..]
      ensures Control() == if r == None then old(Control()) else P.ReceiveFromIsr(old(Control()))
    {
      r := None;
      if messagesWaiting > 0 {
        ReadTakes(storage[..], readFrom, messagesWaiting);
        var lock := rxLock;
        var x := CopyDataFromQueue();
        messagesWaiting := messagesWaiting - 1;
        if lock == P.UNLOCKED {
          WakeSender();
        } else {
          rxLock := lock + 1;
        }
        r := Some(x);
      }
    }

    /** `prvLockQueue` */
    method Lock()
      requires Valid()
      modifies this`rxLock, this`txLock
      ensures Valid() && Contents() == old(Contents()) && Control() == P.Lock(old(Control()))
    {
      if rxLock == P.UNLOCKED {
        rxLock := P.LOCKED_UNMODIFIED;
      }
      if txLock == P.UNLOCKED {
        txLock := P.LOCKED_UNMODIFIED;
      }
    }

    /** `prvUnlockQueue`, first half: the receivers whose wake-ups were put off. */
    method UnlockTx()
      requires Valid()
      modifies this`txLock, this`waitRx, this`wokenRx
      ensures Valid() && Contents() == old(Contents()) && Control() == P.UnlockTx(old(Control()))
    {
      var lock := txLock;
      ghost var q := Control();
      while lock > P.LOCKED_UNMODIFIED
        invariant Valid() && txLock == old(txLock) && Contents() == old(Contents())
        invariant P.WakeRxTimes(q, if txLock > 0 then txLock else 0)
                  == P.WakeRxTimes(Control(), if lock > 0 then lock else 0)
        invariant Control() == q.(waitRx := waitRx, wokenRx := wokenRx)
      {
        if waitRx == [] {
          break;
        }
        WakeReceiver();
        lock := lock - 1;
      }
      txLock := P.UNLOCKED;
    }

    /** `prvUnlockQueue`, second half. */
    method UnlockRx()
      requires Valid()
      modifies this`rxLock, this`waitTx, this`wokenTx
      ensures Valid() && Contents() == old(Contents()) && Control() == P.UnlockRx(old(Control()))
    {
      var lock := rxLock;
      ghost var q := Control();
      while lock > P.LOCKED_UNMODIFIED
        invariant Valid() && rxLock == old(rxLock) && Contents() == old(Contents())
        invariant P.WakeTxTimes(q, if rxLock > 0 then rxLock else 0)
                  == P.WakeTxTimes(Control(), if lock > 0 then lock else 0)
        invariant Control() == q.(waitTx := waitTx, wokenTx := wokenTx)
      {
        if waitTx == [] {
          break;
        }
        WakeSender();
        lock := lock - 1;
      }
      rxLock := P.UNLOCKED;
    }

    /** `xQueueGenericReset` of a queue in use. */
    method Reset()
      requires Valid()
      modifies this
      ensures Valid() && Contents() == [] && Control() == P.Reset(old(Control()))
    {
      messagesWaiting, writeTo, readFrom := 0, 0, length - 1;
      rxLock, txLock := P.UNLOCKED, P.UNLOCKED;
      WakeSender();
    }
  }
}
