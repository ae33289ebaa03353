/** The queue of faults: first come, first served, and lost only when it is full. */
module PagerFaults {
  import opened Basics
  import opened Pager
  import opened PagerTheory
  import opened PagerAccess
  import opened PagerRuns

  ghost function FaultOf(s: State, page: nat, mode: Mode): Option<Outstanding>
    requires Sized(s)
  {
    match Reach(s, page, mode)
    case Fault(kind) => Some(Outstanding(page, kind))
    case Done(_) => None
  }

  /** The fault that an event raises. */
  ghost function Raised(w: World, e: Event): Option<Outstanding>
    requires CanStep(w, e)
  {
    match e
    case Read(a, mode) => FaultOf(w.s, a / PAGE_SIZE, mode)
    case Write(a, _) => FaultOf(w.s, a / PAGE_SIZE, Store)
    case Raise(o) => Some(o)
    case _ => None
  }

  ghost function One(o: Option<Outstanding>): seq<Outstanding> {
    match o case Some(x) => [x] case None => []
  }

  /** The faults raised by the first k events that found room in the queue of 32. */
  ghost function Accepted(c: Codec, ws: seq<World>, es: seq<Event>, k: nat): seq<Outstanding>
    requires Run(c, ws, es) && k <= |es|
  {
    if k == 0 then []
    else Accepted(c, ws, es, k - 1) + if |ws[k - 1].faults| < 32 then One(Raised(ws[k - 1], es[k - 1])) else []
  }

  /** The fault whose service an event begins. */
  ghost function Begun(w: World, e: Event): Option<Outstanding> {
    if e.Serve? && w.faults != [] then Some(w.faults[0]) else None
  }

  ghost function Served(c: Codec, ws: seq<World>, es: seq<Event>, k: nat): seq<Outstanding>
    requires Run(c, ws, es) && k <= |es|
  {
    if k == 0 then [] else Served(c, ws, es, k - 1) + One(Begun(ws[k - 1], es[k - 1]))
  }

  lemma StepQueue(c: Codec, w: World, e: Event)
    requires CanStep(w, e)
    ensures w.faults + (if |w.faults| < 32 then One(Raised(w, e)) else []) == One(Begun(w, e)) + Step(c, w, e).faults
  {
    hide Begin, GoOn, Reach, StoreByte, Sized;
    assert One(None) == [];
    if e.Serve? && w.faults != [] {
      assert w.faults == [w.faults[0]] + w.faults[1..];
    }
  }

  lemma Regrouped(a: seq<Outstanding>, b: seq<Outstanding>, d: seq<Outstanding>)
    ensures a + b + d == a + (b + d)
  {
  }

  /** First come, first served: the faults served so far and then those in the queue are the faults raised,
      in that order, but for those that found 32 before them. */
  lemma {:induction false} FirstServed(c: Codec, ws: seq<World>, es: seq<Event>, k: nat)
    requires Run(c, ws, es) && k <= |es|
    ensures Accepted(c, ws, es, k) == Served(c, ws, es, k) + ws[k].faults
  {
    hide CanStep, Step, Raised, Begun, One;
    if k > 0 {
      FirstServed(c, ws, es, k - 1);
      assert CanStep(ws[k - 1], es[k - 1]) && ws[k - 1 + 1] == Step(c, ws[k - 1], es[k - 1]);
      StepQueue(c, ws[k - 1], es[k - 1]);
      var room := if |ws[k - 1].faults| < 32 then One(Raised(ws[k - 1], es[k - 1])) else [];
      Regrouped(Served(c, ws, es, k - 1), ws[k - 1].faults, room);
      Regrouped(Served(c, ws, es, k - 1), One(Begun(ws[k - 1], es[k - 1])), ws[k].faults);
    }
  }
}
