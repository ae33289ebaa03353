/** How long a segment keeps its first-level entry: the movable entries are taken in turn, so a segment is
    evicted by the seventh that is brought in after it. */
module MmuAges {
  import opened MmuTable

  /** The movable entry located at a resident segment. */
  ghost function SlotOf(m: MmuState, seg: nat): (i: nat)
    requires Valid(m) && Resident(m, seg)
    ensures 1 <= i < SLOTS && m.loc[i] == seg
  {
    var i :| 1 <= i < SLOTS && m.loc[i] == seg;
    i
  }

  /** How many of the other entries have been moved since the segment's was; the entry of age six is the next
      to go. */
  ghost function Age(m: MmuState, seg: nat): (a: nat)
    requires Valid(m) && Resident(m, seg)
    ensures a <= 6
  {
    (m.ptr + 6 - SlotOf(m, seg)) % 7
  }

  function SegOf(op: Op): nat {
    match op
    case Map(p, _) => Seg(p)
    case Unmap(p) => Seg(p)
    case Reload(s) => s
  }

  /** The operation brings its segment in. */
  ghost predicate Brings(m: MmuState, op: Op)
    requires Valid(m)
  {
    Registered(SegOf(op)) && !Resident(m, SegOf(op))
  }

  lemma OpValid(m: MmuState, op: Op)
    requires Valid(m) && OpOk(op)
    ensures Valid(Apply(m, op)) && SegOf(op) != FREE_SEG
  {
    match op
    case Map(p, v) =>
      RegisteredSeg(Seg(p));
      PutEntryRefines(m, p, v);
    case Unmap(p) =>
      RegisteredSeg(Seg(p));
      PutEntryRefines(m, p, 0);
    case Reload(s) => BringInRefines(m, s);
  }

  lemma RegisteredSeg(seg: nat)
    requires Registered(seg)
    ensures 0 < seg < FREE_SEG
  {
    SegsDistinct(TableOf(seg), TableOf(seg));
  }

  /** Where the entries are located changes by bringing in alone. */
  lemma OpMoves(m: MmuState, op: Op)
    requires Valid(m) && OpOk(op)
    ensures Apply(m, op).loc == BringIn(m, SegOf(op)).loc && Apply(m, op).ptr == BringIn(m, SegOf(op)).ptr
  {
    hide BringIn, Registered;
    OpValid(m, op);
  }

  /** Only one entry is located at a segment. */
  lemma OneSlot(m: MmuState, seg: nat, i: nat)
    requires Valid(m) && 1 <= i < SLOTS && m.loc[i] == seg
    ensures Resident(m, seg) && SlotOf(m, seg) == i
  {
    hide Registered;
    assert m.loc[SlotOf(m, seg)] == m.loc[i];
  }

  lemma Turn(ptr: nat, i: nat)
    requires 1 <= ptr <= 7 && 1 <= i <= 7
    ensures 1 <= NextPtr(ptr) <= 7
    ensures i != ptr ==> (ptr + 6 - i) % 7 < 6 && (NextPtr(ptr) + 6 - i) % 7 == (ptr + 6 - i) % 7 + 1
    ensures i == ptr ==> (ptr + 6 - i) % 7 == 6 && (NextPtr(ptr) + 6 - i) % 7 == 0
  {
  }

  /** What bringing a segment in does to the locations. */
  lemma MovesOne(m: MmuState, seg: nat)
    requires Valid(m) && Registered(seg) && !Resident(m, seg) && seg != FREE_SEG
    ensures BringIn(m, seg).loc == m.loc[m.ptr := seg] && BringIn(m, seg).ptr == NextPtr(m.ptr)
  {
    FindSegOfRegistered(m, seg);
    hide Registered;
  }

  lemma MovesNone(m: MmuState, seg: nat)
    requires Valid(m) && (!Registered(seg) || Resident(m, seg)) && seg != FREE_SEG
    ensures BringIn(m, seg) == m
  {
    FindSegOfRegistered(m, seg);
    hide Registered;
  }

  /** One operation: a segment that it brings in is of age 0; any other grows older by one if some segment was
      brought in, and goes if it was of age six; otherwise nothing changes. */
  lemma OpAges(m: MmuState, op: Op, seg: nat)
    requires Valid(m) && OpOk(op) && Valid(Apply(m, op))
    ensures var m' := Apply(m, op);
            && (Brings(m, op) && SegOf(op) == seg ==> Resident(m', seg) && Age(m', seg) == 0)
            && (Brings(m, op) && SegOf(op) != seg ==>
                  && (Resident(m', seg) <==> Resident(m, seg) && Age(m, seg) < 6)
                  && (Resident(m', seg) ==> Age(m', seg) == Age(m, seg) + 1))
            && (!Brings(m, op) ==>
                  (Resident(m', seg) <==> Resident(m, seg)) && (Resident(m', seg) ==> Age(m', seg) == Age(m, seg)))
  {
    hide BringIn, Apply, Registered, TableOf;
    var m' := Apply(m, op);
    OpValid(m, op);
    OpMoves(m, op);
    if Brings(m, op) {
      MovesOne(m, SegOf(op));
      if SegOf(op) == seg {
        OneSlot(m', seg, m.ptr);
        Turn(m.ptr, m.ptr);
      } else {
        OtherAges(m, m', SegOf(op), seg);
      }
    } else {
      MovesNone(m, SegOf(op));
      SameAges(m, m', seg);
    }
  }

  lemma WasResident(m: MmuState, m': MmuState, brought: nat, seg: nat)
    requires Shaped(m) && |m'.loc| == SLOTS && brought != seg && m'.loc == m.loc[m.ptr := brought] && Resident(m', seg)
    ensures Resident(m, seg)
  {
    var k :| 1 <= k < SLOTS && m'.loc[k] == seg;
    assert m.loc[k] == seg;
  }

  lemma OtherAges(m: MmuState, m': MmuState, brought: nat, seg: nat)
    requires Valid(m) && Valid(m') && brought != seg
    requires m'.loc == m.loc[m.ptr := brought] && m'.ptr == NextPtr(m.ptr)
    ensures Resident(m', seg) <==> Resident(m, seg) && Age(m, seg) < 6
    ensures Resident(m', seg) ==> Age(m', seg) == Age(m, seg) + 1
  {
    if Resident(m, seg) {
      var i := SlotOf(m, seg);
      Turn(m.ptr, i);
      if i != m.ptr {
        OneSlot(m', seg, i);
      } else if Resident(m', seg) {
        OneSlot(m, seg, SlotOf(m', seg));
        assert false;
      }
    } else if Resident(m', seg) {
      WasResident(m, m', brought, seg);
    }
  }

  lemma SameAges(m: MmuState, m': MmuState, seg: nat)
    requires Valid(m) && Valid(m') && m'.loc == m.loc && m'.ptr == m.ptr
    ensures Resident(m', seg) <==> Resident(m, seg)
    ensures Resident(m', seg) ==> Age(m', seg) == Age(m, seg)
  {
    if Resident(m, seg) {
      OneSlot(m', seg, SlotOf(m, seg));
    }
  }

  /** What a reload reports: that it has brought the segment in, that it was resident, or that it is not one of
      those registered. */
  lemma CodeSays(m: MmuState, seg: nat)
    requires Valid(m) && seg != FREE_SEG
    ensures ReloadCode(m, seg) == if !Registered(seg) then 0 else if Resident(m, seg) then 1 else 2
    ensures ReloadCode(m, seg) == 2 <==> Brings(m, Reload(seg))
  {
    hide Registered, TableOf, FindSeg, Resident;
    FindSegOfRegistered(m, seg);
    if Resident(m, seg) {
      ResidentKnown(m, SlotOf(m, seg));
    }
  }

  lemma ResidentKnown(m: MmuState, i: nat)
    requires Valid(m) && 1 <= i < SLOTS
    ensures Registered(m.loc[i])
  {
  }

  // ----- runs

  lemma {:induction false} RunValid(ms: seq<MmuState>, ops: seq<Op>, k: nat)
    requires RunFrom(ms, ops) && k <= |ops|
    ensures Valid(ms[k])
  {
    hide Valid, Apply;
    if k > 0 {
      RunValid(ms, ops, k - 1);
      assert ms[k - 1 + 1] == Apply(ms[k - 1], ops[k - 1]);
      OpValid(ms[k - 1], ops[k - 1]);
    }
  }

  /** How many segments the operations from i to j bring in. */
  ghost function BroughtIn(ms: seq<MmuState>, ops: seq<Op>, i: nat, j: nat): nat
    requires i <= j <= |ops| < |ms|
    decreases j
  {
    if i == j then 0 else BroughtIn(ms, ops, i, j - 1) + if Valid(ms[j - 1]) && Brings(ms[j - 1], ops[j - 1]) then 1 else 0
  }

  /** Its segment is brought in at k. */
  ghost predicate BroughtAt(ms: seq<MmuState>, ops: seq<Op>, seg: nat, k: nat)
    requires k < |ops| < |ms|
  {
    Valid(ms[k]) && Brings(ms[k], ops[k]) && SegOf(ops[k]) == seg
  }

  /** A segment resident at i is still resident at j iff those brought in since leave it among the last seven,
      as long as it is not brought in anew. */
  lemma {:induction false} AgesOn(ms: seq<MmuState>, ops: seq<Op>, seg: nat, i: nat, j: nat)
    requires RunFrom(ms, ops) && i <= j <= |ops| && Valid(ms[i]) && Resident(ms[i], seg)
    requires forall k :: i <= k < j ==> !BroughtAt(ms, ops, seg, k)
    ensures Valid(ms[j])
    ensures Resident(ms[j], seg) <==> Age(ms[i], seg) + BroughtIn(ms, ops, i, j) <= 6
    ensures Resident(ms[j], seg) ==> Age(ms[j], seg) == Age(ms[i], seg) + BroughtIn(ms, ops, i, j)
    decreases j
  {
    hide Valid, Age, Apply, Brings, Resident, RunFrom;
    RunValid(ms, ops, j);
    if i < j {
      AgesOn(ms, ops, seg, i, j - 1);
      StepIs(ms, ops, j - 1);
      OpAges(ms[j - 1], ops[j - 1], seg);
      assert !BroughtAt(ms, ops, seg, j - 1);
    }
  }

  lemma StepIs(ms: seq<MmuState>, ops: seq<Op>, k: nat)
    requires RunFrom(ms, ops) && k < |ops|
    ensures |ms| == |ops| + 1 && Valid(ms[k]) && OpOk(ops[k]) && ms[k + 1] == Apply(ms[k], ops[k]) && Valid(ms[k + 1])
  {
    RunValid(ms, ops, k);
    RunValid(ms, ops, k + 1);
  }

  /** First in, first out. In any run of maps, unmaps and reloads, a segment that was brought in stays
      resident until seven others have been brought in after it, and no longer. */
  lemma ResidentSeven(ms: seq<MmuState>, ops: seq<Op>, i: nat, j: nat)
    requires RunFrom(ms, ops) && i < j <= |ops| && Valid(ms[i]) && Brings(ms[i], ops[i])
    requires forall k :: i < k < j ==> !BroughtAt(ms, ops, SegOf(ops[i]), k)
    ensures Valid(ms[j]) && (Resident(ms[j], SegOf(ops[i])) <==> BroughtIn(ms, ops, i + 1, j) < 7)
  {
    var seg := SegOf(ops[i]);
    assert ms[i + 1] == Apply(ms[i], ops[i]);
    RunValid(ms, ops, i + 1);
    OpAges(ms[i], ops[i], seg);
    AgesOn(ms, ops, seg, i + 1, j);
  }
}
