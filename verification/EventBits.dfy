/** Event groups: tasks waiting for bits, and what setting bits does to them. */
module EventBits {

  const CLEAR_ON_EXIT: bv32 := 0x0100_0000
  const UNBLOCKED: bv32 := 0x0200_0000
  const WAIT_FOR_ALL: bv32 := 0x0400_0000
  const IN_USE: bv32 := 0x8000_0000
  const CONTROL: bv32 := 0xff00_0000

  /** A waiting task and the value of its list item: the bits waited for and the control bits. */
  datatype Waiter = Waiter(task: nat, word: bv32)

  /** The bits of a with those of b. */
  function Plus(a: bv32, b: bv32): bv32 {
    a | b
  }

  /** The bits of a without those of b. */
  function Minus(a: bv32, b: bv32): bv32 {
    a & !b
  }

  /** All of the mask's bits are among the bits. */
  predicate AllOf(bits: bv32, mask: bv32) {
    bits & mask == mask
  }

  predicate AnyOf(bits: bv32, mask: bv32) {
    bits & mask != 0
  }

  function Mask(word: bv32): bv32 {
    Minus(word, CONTROL)
  }

  /** `prvTestWaitCondition` */
  predicate TestWaitCondition(bits: bv32, mask: bv32, all: bool) {
    if all then AllOf(bits, mask) else AnyOf(bits, mask)
  }

  /** The waiter's condition holds of the bits. */
  predicate Met(bits: bv32, w: Waiter) {
    TestWaitCondition(bits, Mask(w.word), AnyOf(w.word, WAIT_FOR_ALL))
  }

  function Clears(w: Waiter): bv32 {
    if AnyOf(w.word, CLEAR_ON_EXIT) then Mask(w.word) else 0
  }

  // ----- the walk of xEventGroupSetBits

  /** The waiters left, in order. */
  function Kept(list: seq<Waiter>, bits: bv32): (r: seq<Waiter>) {
    if list == [] then [] else (if Met(bits, list[0]) then [] else [list[0]]) + Kept(list[1..], bits)
  }

  /** The waiters released, in order. */
  function Released(list: seq<Waiter>, bits: bv32): (r: seq<Waiter>) {
    if list == [] then [] else (if Met(bits, list[0]) then [list[0]] else []) + Released(list[1..], bits)
  }

  /** The union of the bits the released waiters clear. */
  function ToClear(list: seq<Waiter>, bits: bv32): bv32 {
    if list == [] then 0 else Plus(if Met(bits, list[0]) then Clears(list[0]) else 0, ToClear(list[1..], bits))
  }

  /** What a released task finds in its list item. */
  function Told(bits: bv32): bv32 {
    Plus(Plus(bits, UNBLOCKED), IN_USE)
  }

  /** What it then returns: the word without the control bits. */
  function WokenWith(word: bv32): bv32 {
    Minus(word, CONTROL)
  }

  datatype Group = Group(bits: bv32, waiting: seq<Waiter>)

  function SetBits(g: Group, more: bv32): Group {
    var bits := Plus(g.bits, more);
    Group(Minus(bits, ToClear(g.waiting, bits)), Kept(g.waiting, bits))
  }

  /** Setting bits releases exactly the waiters whose condition holds of the old bits with the new, wherever
      they stand, and leaves the others waiting. */
  lemma {:induction false} SetReleasesExactly(list: seq<Waiter>, bits: bv32, w: Waiter)
    ensures w in Released(list, bits) <==> w in list && Met(bits, w)
    ensures w in Kept(list, bits) <==> w in list && !Met(bits, w)
    ensures |Released(list, bits)| + |Kept(list, bits)| == |list|
  {
    hide Met;
    if list != [] {
      SetReleasesExactly(list[1..], bits, w);
      assert list == [list[0]] + list[1..];
    }
  }

  /** A bit is cleared iff some released waiter asked for it to be. */
  lemma {:induction false} ClearsExactly(list: seq<Waiter>, bits: bv32, bit: bv32)
    ensures AnyOf(ToClear(list, bits), bit) <==> exists w :: w in list && Met(bits, w) && AnyOf(Clears(w), bit)
  {
    hide Met, Clears, AnyOf, Plus;
    ZeroBit(bit);
    if list != [] {
      ClearsExactly(list[1..], bits, bit);
      OrBit(if Met(bits, list[0]) then Clears(list[0]) else 0, ToClear(list[1..], bits), bit);
      assert list == [list[0]] + list[1..];
      assert list[0] in list;
    }
  }

  lemma ZeroBit(bit: bv32)
    ensures !AnyOf(0, bit)
  {
  }

  lemma OrBit(a: bv32, b: bv32, bit: bv32)
    ensures AnyOf(Plus(a, b), bit) <==> AnyOf(a, bit) || AnyOf(b, bit)
  {
    assert (a | b) & bit == (a & bit) | (b & bit);
  }

  // ----- nobody waits in vain

  /** No task waits for a condition that holds. */
  ghost predicate NoneMet(g: Group) {
    forall w :: w in g.waiting ==> !Met(g.bits, w)
  }

  /** With fewer bits, no condition comes to hold. */
  lemma FewerBits(bits: bv32, cleared: bv32, mask: bv32, all: bool)
    ensures TestWaitCondition(Minus(bits, cleared), mask, all) ==> TestWaitCondition(bits, mask, all)
  {
    if all {
      assert (bits & !cleared) & mask == mask ==> bits & mask == mask;
    } else {
      assert (bits & !cleared) & mask != 0 ==> bits & mask != 0;
    }
  }

  lemma FewerMet(bits: bv32, cleared: bv32, w: Waiter)
    ensures Met(Minus(bits, cleared), w) ==> Met(bits, w)
  {
    hide TestWaitCondition, Minus, AnyOf;
    FewerBits(bits, cleared, Mask(w.word), AnyOf(w.word, WAIT_FOR_ALL));
  }

  lemma SetKeeps(g: Group, more: bv32)
    ensures NoneMet(SetBits(g, more))
  {
    hide Met, Kept, Released, ToClear, Plus, Minus;
    var bits := Plus(g.bits, more);
    forall w | w in SetBits(g, more).waiting
      ensures !Met(SetBits(g, more).bits, w)
    {
      SetReleasesExactly(g.waiting, bits, w);
      FewerMet(bits, ToClear(g.waiting, bits), w);
    }
  }

  // ----- the other operations

  function ControlBits(clear: bool, all: bool): bv32 {
    if clear then if all then Plus(CLEAR_ON_EXIT, WAIT_FOR_ALL) else CLEAR_ON_EXIT
    else if all then WAIT_FOR_ALL else 0
  }

  function WordFor(mask: bv32, clear: bool, all: bool): bv32 {
    Plus(Plus(mask, ControlBits(clear, all)), IN_USE)
  }

  predicate Usable(mask: bv32) {
    !AnyOf(mask, CONTROL) && mask != 0
  }

  /** The list item of a blocked task says what it waits for. */
  lemma WordSays(mask: bv32, clear: bool, all: bool, bits: bv32, t: nat)
    requires Usable(mask)
    ensures var w := Waiter(t, WordFor(mask, clear, all));
            && Mask(w.word) == mask
            && Met(bits, w) == TestWaitCondition(bits, mask, all)
            && Clears(w) == (if clear then mask else 0)
            && AnyOf(w.word, IN_USE)
  {
    hide WordFor, Minus, AnyOf, AllOf, Usable;
    WordFields(mask, clear, all);
  }

  lemma WordFields(mask: bv32, clear: bool, all: bool)
    requires Usable(mask)
    ensures var w := WordFor(mask, clear, all);
            && Minus(w, CONTROL) == mask && AnyOf(w, WAIT_FOR_ALL) == all && AnyOf(w, CLEAR_ON_EXIT) == clear
            && AnyOf(w, IN_USE)
  {
    ControlFields(clear, all);
    hide ControlBits;
    RawFields(mask, ControlBits(clear, all));
  }

  lemma ControlFields(clear: bool, all: bool)
    ensures var c := ControlBits(clear, all);
            c & 0xff00_0000 == c && AnyOf(c, WAIT_FOR_ALL) == all && AnyOf(c, CLEAR_ON_EXIT) == clear
  {
  }

  lemma RawFields(mask: bv32, control: bv32)
    requires mask & 0xff00_0000 == 0 && control & 0xff00_0000 == control
    ensures ((mask | control) | 0x8000_0000) & !0xff00_0000 == mask
    ensures ((mask | control) | 0x8000_0000) & 0x0400_0000 == control & 0x0400_0000
    ensures ((mask | control) | 0x8000_0000) & 0x0100_0000 == control & 0x0100_0000
    ensures ((mask | control) | 0x8000_0000) & 0x8000_0000 != 0
  {
  }

  /** The first part of `xEventGroupWaitBits`: None if the task has to block, else what it returns. */
  datatype Answer = Blocked | Returned(bits: bv32)

  function WaitBits(g: Group, t: nat, mask: bv32, clear: bool, all: bool, blocking: bool): (Group, Answer) {
    if TestWaitCondition(g.bits, mask, all) then
      (if clear then g.(bits := Minus(g.bits, mask)) else g, Returned(g.bits))
    else if !blocking then (g, Returned(g.bits))
    else (g.(waiting := g.waiting + [Waiter(t, WordFor(mask, clear, all))]), Blocked)
  }

  /** The first part of `xEventGroupSync`. */
  function Sync(g: Group, t: nat, more: bv32, mask: bv32, blocking: bool): (Group, Answer) {
    var g1 := SetBits(g, more);
    if AllOf(Plus(g.bits, more), mask) then (g1.(bits := Minus(g1.bits, mask)), Returned(Plus(g.bits, more)))
    else if blocking then (g1.(waiting := g1.waiting + [Waiter(t, WordFor(mask, true, true))]), Blocked)
    else (g1, Returned(g1.bits))
  }

  function ClearBits(g: Group, bits: bv32): Group {
    g.(bits := Minus(g.bits, bits))
  }

  function Dropped(list: seq<Waiter>, t: nat): (r: seq<Waiter>)
    ensures forall w :: w in r ==> w in list
  {
    if list == [] then [] else (if list[0].task == t then [] else [list[0]]) + Dropped(list[1..], t)
  }

  /** A waiting task's time runs out: it leaves the list, and later looks at the bits once more. */
  function LateLook(g: Group, mask: bv32, clear: bool, all: bool): Group {
    if TestWaitCondition(g.bits, mask, all) && clear then g.(bits := Minus(g.bits, mask)) else g
  }

  datatype Event =
    | Sets(bits: bv32)
    | Waits(t: nat, mask: bv32, clear: bool, all: bool, blocking: bool)
    | Syncs(t: nat, bits: bv32, mask: bv32, blocking: bool)
    | ClearsBits(bits: bv32)
    | TimesOut(t: nat)
    | LooksLate(mask: bv32, clear: bool, all: bool)

  ghost predicate Allowed(e: Event) {
    match e
    case Sets(bits) => !AnyOf(bits, CONTROL)
    case Waits(_, mask, _, _, _) => Usable(mask)
    case Syncs(_, bits, mask, _) => Usable(mask) && !AnyOf(bits, CONTROL)
    case _ => true
  }

  function Step(g: Group, e: Event): Group {
    match e
    case Sets(bits) => SetBits(g, bits)
    case Waits(t, mask, clear, all, blocking) => WaitBits(g, t, mask, clear, all, blocking).0
    case Syncs(t, bits, mask, blocking) => Sync(g, t, bits, mask, blocking).0
    case ClearsBits(bits) => ClearBits(g, bits)
    case TimesOut(t) => g.(waiting := Dropped(g.waiting, t))
    case LooksLate(mask, clear, all) => LateLook(g, mask, clear, all)
  }

  lemma FewerKeeps(g: Group, cleared: bv32)
    requires NoneMet(g)
    ensures NoneMet(g.(bits := Minus(g.bits, cleared)))
  {
    hide Met;
    forall w | w in g.waiting
      ensures !Met(Minus(g.bits, cleared), w)
    {
      FewerMet(g.bits, cleared, w);
    }
  }

  lemma SyncKeeps(g: Group, t: nat, more: bv32, mask: bv32, blocking: bool)
    requires Usable(mask)
    ensures NoneMet(Sync(g, t, more, mask, blocking).0)
  {
    hide Met, AllOf, AnyOf, WordFor, Usable, Plus, Minus, Kept, ToClear;
    SetKeeps(g, more);
    var g1, bits := SetBits(g, more), Plus(g.bits, more);
    FewerKeeps(g1, mask);
    WordSays(mask, true, true, g1.bits, t);
    FewerBits(bits, ToClear(g.waiting, bits), mask, true);
  }

  /** Every operation keeps it that no task waits for a condition that holds. */
  lemma StepKeeps(g: Group, e: Event)
    requires NoneMet(g) && Allowed(e)
    ensures NoneMet(Step(g, e))
  {
    hide Met, TestWaitCondition, SetBits, WordFor, Sync, Usable, Plus, Minus;
    match e
    case Sets(bits) => SetKeeps(g, bits);
    case Waits(t, mask, clear, all, blocking) =>
      FewerKeeps(g, mask);
      WordSays(mask, clear, all, g.bits, t);
    case Syncs(t, bits, mask, blocking) => SyncKeeps(g, t, bits, mask, blocking);
    case ClearsBits(bits) => FewerKeeps(g, bits);
    case TimesOut(t) =>
    case LooksLate(mask, clear, all) => FewerKeeps(g, mask);
  }

  ghost predicate Run(gs: seq<Group>, es: seq<Event>) {
    && |gs| == |es| + 1 && gs[0].waiting == []
    && forall i :: 0 <= i < |es| ==> Allowed(es[i]) && gs[i + 1] == Step(gs[i], es[i])
  }

  lemma {:induction false} NobodyWaitsInVain(gs: seq<Group>, es: seq<Event>, k: nat)
    requires Run(gs, es) && k <= |es|
    ensures NoneMet(gs[k])
  {
    if k > 0 {
      NobodyWaitsInVain(gs, es, k - 1);
      StepKeeps(gs[k - 1], es[k - 1]);
      assert gs[k - 1 + 1] == Step(gs[k - 1], es[k - 1]);
    }
  }

  // ----- what becomes of each bit

  /** Whatever has any of it has all of it. */
  ghost predicate Single(bit: bv32) {
    bit != 0 && forall bits :: AnyOf(bits, bit) ==> AllOf(bits, bit)
  }

  lemma MinusBit(a: bv32, b: bv32, bit: bv32)
    requires Single(bit)
    ensures AnyOf(Minus(a, b), bit) <==> AnyOf(a, bit) && !AnyOf(b, bit)
  {
    hide Minus, AllOf, AnyOf;
    if AnyOf(b, bit) {
      MinusAll(a, b, bit);
    } else {
      MinusNone(a, b, bit);
    }
  }

  lemma MinusAll(a: bv32, b: bv32, bit: bv32)
    requires AllOf(b, bit)
    ensures !AnyOf(Minus(a, b), bit)
  {
  }

  lemma MinusNone(a: bv32, b: bv32, bit: bv32)
    requires !AnyOf(b, bit)
    ensures AnyOf(Minus(a, b), bit) == AnyOf(a, bit)
  {
    Regroup(a, b, bit);
    NoneTaken(a & bit);
  }

  lemma Regroup(a: bv32, b: bv32, bit: bv32)
    ensures (a & !b) & bit == (a & bit) & !(b & bit)
  {
  }

  lemma NoneTaken(x: bv32)
    ensures x & !0 == x
  {
  }

  /** Some waiter that the set releases asks for the bit to be cleared. */
  ghost predicate AskedFor(g: Group, more: bv32, bit: bv32) {
    exists w :: w in g.waiting && Met(Plus(g.bits, more), w) && AnyOf(Clears(w), bit)
  }

  lemma SetBit(g: Group, more: bv32, bit: bv32)
    requires Single(bit)
    ensures AnyOf(SetBits(g, more).bits, bit) <==> (AnyOf(g.bits, bit) || AnyOf(more, bit)) && !AskedFor(g, more, bit)
  {
    hide Met, Clears, AnyOf, Plus, Minus, ToClear, Kept, Single;
    var bits := Plus(g.bits, more);
    OrBit(g.bits, more, bit);
    ClearsExactly(g.waiting, bits, bit);
    MinusBit(bits, ToClear(g.waiting, bits), bit);
  }

  /** What becomes of each bit. A set adds its bits, less those that a waiter it releases asked to have
      cleared; a wait or a late look whose condition holds takes its own bits if it was asked to, and a
      rendezvous that is complete always; a clear takes its bits; nothing else changes any. */
  lemma BitAfter(g: Group, e: Event, bit: bv32)
    requires Single(bit)
    ensures AnyOf(Step(g, e).bits, bit) <==>
              match e
              case Sets(more) => (AnyOf(g.bits, bit) || AnyOf(more, bit)) && !AskedFor(g, more, bit)
              case Waits(_, mask, clear, all, _) =>
                AnyOf(g.bits, bit) && !(clear && AnyOf(mask, bit) && if all then AllOf(g.bits, mask) else AnyOf(g.bits, mask))
              case Syncs(_, more, mask, _) =>
                && (AnyOf(g.bits, bit) || AnyOf(more, bit)) && !AskedFor(g, more, bit)
                && !(AnyOf(mask, bit) && AllOf(Plus(g.bits, more), mask))
              case ClearsBits(bits) => AnyOf(g.bits, bit) && !AnyOf(bits, bit)
              case TimesOut(_) => AnyOf(g.bits, bit)
              case LooksLate(mask, clear, all) =>
                AnyOf(g.bits, bit) && !(clear && AnyOf(mask, bit) && if all then AllOf(g.bits, mask) else AnyOf(g.bits, mask))
  {
    hide AnyOf, AllOf, Plus, Minus, SetBits, Single, AskedFor, WordFor, Dropped;
    match e
    case Sets(more) => SetBit(g, more, bit);
    case Waits(_, mask, _, _, _) => MinusBit(g.bits, mask, bit);
    case Syncs(_, more, mask, _) =>
      SetBit(g, more, bit);
      MinusBit(SetBits(g, more).bits, mask, bit);
    case ClearsBits(bits) => MinusBit(g.bits, bits, bit);
    case TimesOut(_) =>
    case LooksLate(mask, _, _) => MinusBit(g.bits, mask, bit);
  }

  /** A task that waits goes on at once, with the bits as they were, if its condition holds or it has no time.
      Otherwise it is put last on the list, and a set releases it just when its condition comes to hold. */
  lemma WaitUntilMet(g: Group, t: nat, mask: bv32, clear: bool, all: bool, blocking: bool, more: bv32)
    requires Usable(mask)
    ensures var (g', answer) := WaitBits(g, t, mask, clear, all, blocking);
            var w, bits := Waiter(t, WordFor(mask, clear, all)), Plus(g.bits, more);
            if !blocking || (if all then AllOf(g.bits, mask) else AnyOf(g.bits, mask))
            then answer == Returned(g.bits) && g'.waiting == g.waiting
            else && answer == Blocked && g'.bits == g.bits && g'.waiting == g.waiting + [w]
                 && (w in Released(g'.waiting, bits) <==> if all then AllOf(bits, mask) else AnyOf(bits, mask))
  {
    hide AnyOf, AllOf, Plus, Minus, WordFor, Usable, Met, Released;
    var w, bits := Waiter(t, WordFor(mask, clear, all)), Plus(g.bits, more);
    WordSays(mask, clear, all, bits, t);
    SetReleasesExactly(g.waiting + [w], bits, w);
  }

  /** A time-out takes the task's own item off the list and no other. */
  lemma {:induction false} DropsExactly(list: seq<Waiter>, t: nat, w: Waiter)
    ensures w in Dropped(list, t) <==> w in list && w.task != t
  {
    if list != [] {
      DropsExactly(list[1..], t, w);
      assert list == [list[0]] + list[1..];
    }
  }

  // ----- rendezvous

  /** A participant waits for all of the same bits, to be cleared. */
  ghost predicate Participant(w: Waiter, mask: bv32) {
    w.word == WordFor(mask, true, true)
  }

  /** A rendezvous releases all its participants together: when a task brings the last of the bits, it and
      every participant waiting go on and the bits are cleared, and the value that the waiting ones find in
      their list items is the one the task gets; before that, none does. */
  lemma Rendezvous(g: Group, t: nat, more: bv32, mask: bv32, w: Waiter, blocking: bool)
    requires Usable(mask) && w in g.waiting && Participant(w, mask)
    requires !AnyOf(g.bits, CONTROL) && !AnyOf(more, CONTROL)
    ensures var (g', answer) := Sync(g, t, more, mask, blocking);
            var bits := Plus(g.bits, more);
            if AllOf(bits, mask)
            then answer == Returned(bits) && w in Released(g.waiting, bits) && w !in g'.waiting && !AnyOf(g'.bits, mask)
                 && WokenWith(Told(bits)) == bits && AnyOf(Told(bits), UNBLOCKED) && AnyOf(Told(bits), IN_USE)
            else w in g'.waiting && w !in Released(g.waiting, bits)
                 && answer == if blocking then Blocked else Returned(g'.bits)
  {
    hide Met, AllOf, AnyOf, Kept, Released, ToClear, WordFor, Usable, Plus, Minus, Told, WokenWith;
    var bits := Plus(g.bits, more);
    WordSays(mask, true, true, bits, w.task);
    assert w == Waiter(w.task, WordFor(mask, true, true));
    SetReleasesExactly(g.waiting, bits, w);
    ClearedGone(SetBits(g, more).bits, mask);
    ToldAndWoken(g.bits, more);
  }

  lemma ToldAndWoken(bits: bv32, more: bv32)
    requires !AnyOf(bits, CONTROL) && !AnyOf(more, CONTROL)
    ensures var word := Told(Plus(bits, more));
            WokenWith(word) == Plus(bits, more) && AnyOf(word, UNBLOCKED) && AnyOf(word, IN_USE)
  {
    hide Plus;
    PlusNoControl(bits, more);
    ToldFields(Plus(bits, more));
  }

  lemma PlusNoControl(bits: bv32, more: bv32)
    requires !AnyOf(bits, CONTROL) && !AnyOf(more, CONTROL)
    ensures !AnyOf(Plus(bits, more), CONTROL)
  {
  }

  lemma ToldFields(b: bv32)
    requires !AnyOf(b, CONTROL)
    ensures WokenWith(Told(b)) == b && AnyOf(Told(b), UNBLOCKED) && AnyOf(Told(b), IN_USE)
  {
    RawTold(b);
  }

  lemma RawTold(b: bv32)
    requires b & 0xff00_0000 == 0
    ensures ((b | 0x0200_0000) | 0x8000_0000) & !0xff00_0000 == b
    ensures ((b | 0x0200_0000) | 0x8000_0000) & 0x0200_0000 != 0
    ensures ((b | 0x0200_0000) | 0x8000_0000) & 0x8000_0000 != 0
  {
  }

  /** The control bits are never among a group's own. */
  lemma {:induction false} NoControlBits(gs: seq<Group>, es: seq<Event>, k: nat)
    requires Run(gs, es) && k <= |es| && !AnyOf(gs[0].bits, CONTROL)
    ensures !AnyOf(gs[k].bits, CONTROL)
  {
    hide Kept, ToClear, Allowed, WordFor, Usable;
    if k > 0 {
      NoControlBits(gs, es, k - 1);
      assert gs[k - 1 + 1] == Step(gs[k - 1], es[k - 1]);
      assert Allowed(es[k - 1]);
      StepNoControl(gs[k - 1], es[k - 1]);
    }
  }

  lemma StepNoControl(g: Group, e: Event)
    requires !AnyOf(g.bits, CONTROL) && Allowed(e)
    ensures !AnyOf(Step(g, e).bits, CONTROL)
  {
    hide AnyOf, Plus, Minus, Kept, ToClear, TestWaitCondition, AllOf, Usable;
    match e
    case Sets(bits) =>
      SetNoControl(g.bits, bits, ToClear(g.waiting, Plus(g.bits, bits)));
    case Waits(t, mask, clear, all, blocking) => LessNoControl(g.bits, mask);
    case Syncs(t, bits, mask, blocking) =>
      SetNoControl(g.bits, bits, ToClear(g.waiting, Plus(g.bits, bits)));
      LessNoControl(SetBits(g, bits).bits, mask);
    case ClearsBits(bits) => LessNoControl(g.bits, bits);
    case TimesOut(t) =>
    case LooksLate(mask, clear, all) => LessNoControl(g.bits, mask);
  }

  lemma LessNoControl(bits: bv32, cleared: bv32)
    requires !AnyOf(bits, CONTROL)
    ensures !AnyOf(Minus(bits, cleared), CONTROL)
  {
  }

  lemma SetNoControl(bits: bv32, more: bv32, cleared: bv32)
    requires !AnyOf(bits, CONTROL) && !AnyOf(more, CONTROL)
    ensures !AnyOf(Minus(Plus(bits, more), cleared), CONTROL)
  {
    hide Plus, Minus;
    PlusNoControl(bits, more);
    LessNoControl(Plus(bits, more), cleared);
  }

  lemma ClearedGone(bits: bv32, mask: bv32)
    ensures !AnyOf(Minus(bits, mask), mask)
  {
    assert (bits & !mask) & mask == 0;
  }
}
