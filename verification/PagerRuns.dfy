/** The pager over whole runs of guest accesses, faults and flash operations: what was written last is what
    is read, until a step does harm; and which steps do can be told beforehand. */
module PagerRuns {
  import opened Basics
  import opened MmuTable
  import opened LruList
  import opened Pager
  import opened PagerTheory
  import opened PagerSteps
  import opened PagerAccess

  const QUEUE_LEN := 32

  datatype Outstanding = Outstanding(page: nat, kind: Kind)

  /** A guest access may be made at any time, by whichever task runs, also while a service waits for the
      flash memory; the fault it raises is queued. `Raise` queues a fault that no access to the two areas
      raises. `Serve` begins the service of the fault at the head of the queue, with what the allocator
      grants if the handler asks it; `Answer` is the end of the flash operation that a service waits for.
      The swap area may be switched on or off at any time. */
  datatype Event =
    | Read(a: nat, mode: Mode)
    | Write(a: nat, b: byte)
    | Raise(o: Outstanding)
    | Serve(grant: Option<seq<byte>>)
    | Answer(x: Flash)
    | SetSwap(on: bool)

  /** The pager, what its service waits for, the flat memory it stands for, and the queue of faults. `seen`
      is the outcome of a completed read, `verdict` that of a service. */
  datatype World = World(s: State, phase: Phase, flat: Flat, faults: seq<Outstanding>,
                         seen: Option<byte>, verdict: Option<Verdict>)

  /** Addresses below the first megabyte are not translated page by page. */
  predicate Virtual(a: nat) {
    0x10_0000 <= a < 0x1_0000_0000
  }

  predicate EventOk(e: Event) {
    match e
    case Read(a, mode) => Virtual(a) && mode != Store
    case Write(a, b) => Virtual(a)
    case Raise(o) => Posted(o) && (o.kind == Other || (!InRam(o.page) && !InRom(o.page)))
    case _ => true
  }

  lemma VirtualSeg(a: nat)
    requires Virtual(a)
    ensures 0 < Seg(a / PAGE_SIZE) < FREE_SEG
  {
  }

  /** A fault as it is queued: anything, at an address of 32 bits. */
  predicate Posted(o: Outstanding) {
    Seg(o.page) < 0x1000
  }

  /** A fault that the present page table would raise. */
  ghost predicate Genuine(s: State, o: Outstanding)
    requires Sized(s)
  {
    && 0 < Seg(o.page) < FREE_SEG
    && exists mode :: Reach(s, o.page, mode) == Fault(o.kind)
  }

  /** A fault that finds the queue full is lost; its task will try again. */
  function Post(q: seq<Outstanding>, o: Outstanding): seq<Outstanding> {
    if |q| < QUEUE_LEN then q + [o] else q
  }

  /** One service at a time, and none once the RAM list has been linked to itself. */
  ghost predicate CanStep(w: World, e: Event) {
    && Sized(w.s) && EventOk(e)
    && (e.Serve? ==> w.phase == Idle && (w.faults != [] ==> w.s.link != Looped && Seg(w.faults[0].page) != FREE_SEG))
    && (e.Answer? ==> CanGoOn(w.s, w.phase))
  }

  ghost function Step(c: Codec, w: World, e: Event): (w': World)
    requires CanStep(w, e)
    ensures Sized(w'.s)
  {
    var w0 := w.(seen := None, verdict := None);
    match e
    case Read(a, mode) =>
      (match Reach(w.s, a / PAGE_SIZE, mode)
       case Fault(kind) => w0.(faults := Post(w.faults, Outstanding(a / PAGE_SIZE, kind)))
       case Done(g) => if g < |w.s.mem| then w0.(seen := Some(w.s.mem[g][a % PAGE_SIZE])) else w0)
    case Write(a, b) =>
      (match Reach(w.s, a / PAGE_SIZE, Store)
       case Fault(kind) => w0.(faults := Post(w.faults, Outstanding(a / PAGE_SIZE, kind)))
       case Done(g) => w0.(s := StoreByte(w.s, a, b), flat := w.flat[a := b]))
    case Raise(o) => w0.(faults := Post(w.faults, o))
    case Serve(grant) =>
      if w.faults == [] then w0
      else
        var r := Begin(c, w.s, w.faults[0].page, w.faults[0].kind, grant);
        w0.(s := r.s, phase := r.phase, faults := w.faults[1..], verdict := r.verdict)
    case Answer(x) =>
      var r := GoOn(c, w.s, w.phase, x);
      w0.(s := r.s, phase := r.phase, verdict := r.verdict)
    case SetSwap(on) => w0.(s := w.s.(swap := on))
  }

  /** While a service waits: the victim is still dirty, or the frame has been taken for the page. */
  ghost predicate PhaseOk(s: State, phase: Phase)
    requires Sized(s)
  {
    match phase
    case Idle => true
    case SaveRead(f, page) =>
      f < RAM_FRAMES && InRam(page) && s.ram.frames[f].dirty && s.ram.frames[f].page - RAM_BASE >= ZRAM_PAGES
    case SaveWrite(f, page, _) =>
      f < RAM_FRAMES && InRam(page) && s.ram.frames[f].dirty && s.ram.frames[f].page - RAM_BASE >= ZRAM_PAGES
    case RamLoad(f, page) => f < RAM_FRAMES && InRam(page) && s.ram.frames[f] == Frame(page, false)
    case RomLoad(f, page) => f < ROM_FRAMES && InRom(page) && s.rom.frames[f] == Frame(page, false)
  }

  /** The invariant between events: that between services, but that the frame a service is about to fill is
      out of use. */
  ghost predicate StateInv(c: Codec, s: State, phase: Phase, flat: Flat) {
    Sized(s) && PhaseOk(s, phase) && Inv(c, Settled(s, phase), flat)
  }

  ghost predicate WorldInv(c: Codec, w: World) {
    StateInv(c, w.s, w.phase, w.flat) && forall i :: 0 <= i < |w.faults| ==> Posted(w.faults[i])
  }

  // ----- what a step waits for

  lemma GiveWaits(c: Codec, s: State, f: nat, page: nat)
    requires Sized(s) && f < RAM_FRAMES && InRam(page)
    ensures var r := Give(c, s, f, page);
            && PhaseOk(r.s, r.phase) && r.s.flash == s.flash && r.s.link == s.link && r.s.ram.order == s.ram.order
            && (r.phase == Idle ==> r.verdict == Some(Resume))
            && (r.phase != Idle ==> r.verdict == None && r.phase == RamLoad(f, page))
  {
    hide Taken, Shown, FullEntry, Backing, Loaded, HadAtOnce;
    TakenIs(s, f, page);
    if AtOnce(s, page) {
      ShownIs(c, Taken(s, f, page), f, page);
      LoadedIs(Taken(s, f, page), f, page, HadAtOnce(c, Taken(s, f, page), f, page));
    }
  }

  lemma RamMissWaits(c: Codec, s: State, page: nat, grant: Option<seq<byte>>)
    requires Sized(s) && InRam(page) && s.link != Looped
    ensures var r := RamMiss(c, s, page, grant);
            && PhaseOk(r.s, r.phase) && r.s.flash == s.flash && r.s.link == Fresh
            && r.s.ram.order == Touch(s.ram.order, Victim(s))
            && (SaveRefused(s, Victim(s), grant) ==>
                  r.phase == Idle && r.verdict in {Some(Kill(ZramOom)), Some(Kill(SwapNotEnabled))})
            && (SaveWaits(s, Victim(s)) ==> r.verdict == None && r.phase == SaveRead(Victim(s), page))
            && (!SaveRefused(s, Victim(s), grant) && !SaveWaits(s, Victim(s)) ==>
                  r.verdict == if r.phase == Idle then Some(Resume) else None)
  {
    hide Give, Compressed, Touch;
    var f, s0 := Victim(s), Rotated(s);
    RotatedSame(s);
    if !SaveRefused(s, f, grant) && !SaveWaits(s, f) {
      var s1 := if s.ram.frames[f].dirty then Compressed(c, s0, f, grant.value) else s0;
      assert RamMiss(c, s, page, grant) == Give(c, s1, f, page);
      GiveWaits(c, s1, f, page);
      if s.ram.frames[f].dirty {
        CompressedOrder(c, s0, f, grant.value);
      }
    }
  }

  lemma CompressedOrder(c: Codec, s: State, f: nat, rest: seq<byte>)
    requires Sized(s) && f < RAM_FRAMES && s.ram.frames[f].dirty
    ensures var s' := Compressed(c, s, f, rest); s'.flash == s.flash && s'.link == s.link && s'.ram.order == s.ram.order
  {
  }

  lemma RomMissWaits(s: State, page: nat)
    requires Sized(s) && InRom(page)
    ensures var r := RomMiss(s, page);
            && PhaseOk(r.s, r.phase) && r.s.flash == s.flash && r.s.link == s.link && r.s.ram == s.ram && r.verdict == None
  {
    hide RomTaken, FullEntry, Touch;
    RomTakenIs(RomRotated(s), s.rom.order[0], page);
  }

  lemma WriteFaultWaits(s: State, page: nat)
    requires Sized(s) && InRam(page) && s.link != Looped
    ensures var r := WriteFault(s, page);
            && r.phase == Idle && r.s.flash == s.flash
            && r.verdict == Some(if Found(s, page) >= 0 then Resume else Hang)
            && r.s.ram.order == if Found(s, page) >= 0 then Touch(s.ram.order, s.ram.order[Found(s, page)]) else s.ram.order
  {
    hide WriteFault, Found, FullEntry, Touch, EntryOf;
    WriteFaultDirties(s, page);
  }

  lemma WrittenOrder(s: State, f: nat, buf: Sector, x: Flash)
    requires Sized(s) && f < RAM_FRAMES && s.ram.frames[f].dirty
    ensures var s' := WrittenBack(s, f, buf, x);
            s'.flash == s.flash && s'.link == s.link && s'.ram.order == s.ram.order
  {
  }

  /** Once a service waits, it will resume its task, whatever the flash memory answers. */
  lemma GoOnWaits(c: Codec, s: State, phase: Phase, x: Flash)
    requires Sized(s) && PhaseOk(s, phase) && phase != Idle
    ensures CanGoOn(s, phase)
    ensures var r := GoOn(c, s, phase, x);
            && PhaseOk(r.s, r.phase) && r.s.flash == s.flash && r.s.link == s.link && r.s.ram.order == s.ram.order
            && r.verdict == if r.phase == Idle then Some(Resume) else None
  {
    hide Give, SetPage, EntryOf, FullEntry, WrittenBack, Half, SetHalf, PutEntry;
    match phase
    case SaveRead(f, page) =>
    case SaveWrite(f, page, buf) =>
      WrittenOrder(s, f, buf, x);
      GiveWaits(c, WrittenBack(s, f, buf, x), f, page);
    case RamLoad(f, page) =>
      LoadIs(c, s, f, page, x);
      LoadedIs(s, f, page, LoadedHalf(s, page, x));
    case RomLoad(f, page) =>
      RomLoadIs(c, s, f, page, x);
      RomLoadedIs(s, f, page, LoadedRomHalf(s, page, x));
  }

  // ----- the beginning of a service

  ghost predicate IsMiss(o: Outstanding) {
    (o.kind == UnmapDab || o.kind == UnmapPab) && (InRam(o.page) || InRom(o.page))
  }

  /** A fault whose segment is resident, or none of the registered ones: the handler proper gets it. */
  ghost predicate Handled(s: State, o: Outstanding)
    requires Sized(s)
  {
    ReloadCode(s.mmu, Seg(o.page)) != 2
  }

  /** The services that do harm at their beginning. */
  ghost predicate ServeHarms(c: Codec, s: State, flat: Flat, o: Outstanding, grant: Option<seq<byte>>)
    requires Sized(s)
  {
    && Handled(s, o) && InRam(o.page)
    && if IsMiss(o) then !MissFine(c, s, flat, o.page, grant) else o.kind == WriteReadOnly && !WriteFine(s, flat, o.page)
  }

  lemma NoReload(s: State, o: Outstanding)
    requires Sized(s) && Handled(s, o) && Seg(o.page) != FREE_SEG
    ensures Reloaded(s, o.page) == s
  {
  }

  lemma InvSized(c: Codec, s: State, flat: Flat)
    requires Inv(c, s, flat)
    ensures Sized(s) && s.link != Looped
  {
  }

  /** Whatever the fault, and however old: the beginning of its service keeps the invariant iff it is not one
      of those. */
  lemma BeginKeepsIff(c: Codec, s: State, flat: Flat, o: Outstanding, grant: Option<seq<byte>>)
    requires Inv(c, s, flat) && Lossless(c) && Posted(o)
    ensures Seg(o.page) != FREE_SEG && s.link != Looped
    ensures var r := Begin(c, s, o.page, o.kind, grant);
            && r.s.flash == s.flash && PhaseOk(r.s, r.phase)
            && (StateInv(c, r.s, r.phase, flat) <==> !ServeHarms(c, s, flat, o, grant))
  {
    hide RamMiss, RomMiss, WriteFault, MissFine, WriteFine, ReloadCode, BringIn, Settled, Inv;
    InvSized(c, s, flat);
    if Handled(s, o) {
      NoReload(s, o);
      hide Reloaded, PhaseOk, Handled;
      RepairKeepsIff(c, s, flat, o, grant);
    } else {
      ReloadKeeps(c, s, flat, o.page);
      SettledIs(Reloaded(s, o.page), 0, 0);
    }
  }

  lemma RepairKeepsIff(c: Codec, s: State, flat: Flat, o: Outstanding, grant: Option<seq<byte>>)
    requires Inv(c, s, flat) && Lossless(c) && Handled(s, o)
    ensures var r := Repair(c, s, o.page, o.kind, grant);
            && r.s.flash == s.flash && PhaseOk(r.s, r.phase)
            && (StateInv(c, r.s, r.phase, flat) <==> !ServeHarms(c, s, flat, o, grant))
  {
    hide RamMiss, RomMiss, WriteFault, Handled, Settled, Inv;
    InvSized(c, s, flat);
    if InRam(o.page) {
      RamRepairIff(c, s, flat, o, grant);
    } else {
      OtherRepairKeeps(c, s, flat, o, grant);
    }
  }

  lemma RamRepairIff(c: Codec, s: State, flat: Flat, o: Outstanding, grant: Option<seq<byte>>)
    requires Inv(c, s, flat) && Lossless(c) && Handled(s, o) && InRam(o.page)
    ensures var r := Repair(c, s, o.page, o.kind, grant);
            && r.s.flash == s.flash && PhaseOk(r.s, r.phase)
            && (StateInv(c, r.s, r.phase, flat) <==> !ServeHarms(c, s, flat, o, grant))
  {
    hide RamMiss, RomMiss, WriteFault, MissFine, WriteFine, Handled, Settled, Inv, SaveRefused, SaveWaits, Touch, Found, Relinks;
    InvSized(c, s, flat);
    RamOnly(o.page);
    if IsMiss(o) {
      RamMissWaits(c, s, o.page, grant);
      MissIff(c, s, flat, o.page, grant);
    } else if o.kind == WriteReadOnly {
      WriteFaultWaits(s, o.page);
      SettledIs(WriteFault(s, o.page).s, 0, 0);
      WriteFaultIff(c, s, flat, o.page);
    } else {
      SettledIs(s, 0, 0);
    }
  }

  lemma OtherRepairKeeps(c: Codec, s: State, flat: Flat, o: Outstanding, grant: Option<seq<byte>>)
    requires Inv(c, s, flat) && !InRam(o.page)
    ensures s.link != Looped
    ensures var r := Repair(c, s, o.page, o.kind, grant);
            r.s.flash == s.flash && PhaseOk(r.s, r.phase) && StateInv(c, r.s, r.phase, flat)
  {
    hide RamMiss, RomMiss, WriteFault, Settled, Inv;
    InvSized(c, s, flat);
    SettledIs(s, 0, 0);
    if InRom(o.page) {
      RomMissWaits(s, o.page);
      RomMissKeeps(c, s, flat, o.page);
    }
  }

  lemma RamOnly(page: nat)
    requires InRam(page)
    ensures !InRom(page)
  {
  }

  // ----- the end of a flash operation

  ghost predicate AnswerHarms(c: Codec, s: State, flat: Flat, phase: Phase, x: Flash)
    requires Sized(s) && PhaseOk(s, phase)
  {
    match phase
    case Idle | SaveRead(_, _) => false
    case SaveWrite(f, page, buf) => !WriteBackFine(c, s, flat, f, page, buf, x)
    case RamLoad(f, page) => !LoadFine(c, s, flat, page, x)
    case RomLoad(f, page) => !RomLoadFine(s, page, x)
  }

  /** Whatever the flash memory answers, and whatever has happened while it was waited for. */
  lemma GoOnKeepsIff(c: Codec, s: State, phase: Phase, flat: Flat, x: Flash)
    requires StateInv(c, s, phase, flat) && phase != Idle
    ensures CanGoOn(s, phase)
    ensures var r := GoOn(c, s, phase, x);
            && r.s.flash == s.flash
            && (StateInv(c, r.s, r.phase, flat) <==> !AnswerHarms(c, s, flat, phase, x))
  {
    hide GoOn, WriteBackFine, LoadFine, RomLoadFine, Inv, Settled, CopiedIn;
    GoOnWaits(c, s, phase, x);
    match phase
    case SaveRead(f, page) =>
      SettledIs(s, f, page);
      CopyIs(c, s, f, page, x);
    case SaveWrite(f, page, buf) =>
      SettledWriting(s, f, page, buf);
      WriteBackIff(c, s, flat, f, page, buf, x);
    case RamLoad(f, page) =>
      RamLoadIff(c, s, flat, f, page, x);
      SettledIs(GoOn(c, s, phase, x).s, f, page);
    case RomLoad(f, page) =>
      RomLoadIff(c, s, flat, f, page, x);
      SettledIs(GoOn(c, s, phase, x).s, f, page);
  }

  lemma SettledWriting(s: State, f: nat, page: nat, buf: Sector)
    requires Sized(s)
    ensures Settled(s, SaveWrite(f, page, buf)) == s
  {
  }

  lemma CopyIs(c: Codec, s: State, f: nat, page: nat, x: Flash)
    requires CanGoOn(s, SaveRead(f, page))
    ensures GoOn(c, s, SaveRead(f, page), x) == Progress(s, SaveWrite(f, page, CopiedIn(s, f, x)), None)
    ensures Settled(s, SaveWrite(f, page, CopiedIn(s, f, x))) == s
  {
  }

  // ----- what happens meanwhile

  lemma SettledMmu(s: State, phase: Phase)
    requires Sized(s)
    ensures var s' := Settled(s, phase);
            && s'.mmu == s.mmu && s'.mem == s.mem && s'.zram == s.zram && s'.ftl == s.ftl && s'.flash == s.flash
            && s'.swap == s.swap && s'.link == s.link
  {
  }

  lemma SettledReach(s: State, phase: Phase, page: nat, mode: Mode)
    requires Sized(s)
    ensures Reach(Settled(s, phase), page, mode) == Reach(s, page, mode)
  {
    SettledMmu(s, phase);
    hide Settled, Walk;
  }

  lemma MeanwhileStored(c: Codec, s: State, phase: Phase, flat: Flat, a: nat, b: byte)
    requires StateInv(c, s, phase, flat) && Reach(s, a / PAGE_SIZE, Store).Done? && Seg(a / PAGE_SIZE) != 0
    ensures StateInv(c, StoreByte(s, a, b), phase, flat[a := b]) && StoreByte(s, a, b).flash == s.flash
  {
    hide Reach, Inv;
    SettledReach(s, phase, a / PAGE_SIZE, Store);
    StoreKeeps(c, Settled(s, phase), flat, a, b);
    assert Settled(StoreByte(s, a, b), phase) == StoreByte(Settled(s, phase), a, b);
  }

  lemma MeanwhileSwap(c: Codec, s: State, phase: Phase, flat: Flat, on: bool)
    requires StateInv(c, s, phase, flat)
    ensures StateInv(c, s.(swap := on), phase, flat) <==> on || NoneDepends(s, flat)
  {
    hide Inv, NoneDepends;
    var s0 := Settled(s, phase);
    assert Settled(s.(swap := on), phase) == s0.(swap := on);
    if on {
      EnableSwapKeeps(c, s0, flat);
    } else {
      DisableSwapKeepsIff(c, s0, flat);
      SettledMmu(s, phase);
      DependsOnTable(s, s0, flat);
    }
  }

  lemma DependsOnTable(s: State, s': State, flat: Flat)
    requires Sized(s) && Sized(s') && s'.mmu == s.mmu
    ensures NoneDepends(s', flat) == NoneDepends(s, flat)
  {
    hide FullEntry, Written;
    assert forall page :: Independent(s', page) == Independent(s, page);
  }

  // ----- steps

  /** Whether the next event does harm: the beginning of a service, the end of a flash operation, or the swap
      area's being switched off. */
  ghost predicate Harmful(c: Codec, w: World, e: Event)
    requires Sized(w.s) && PhaseOk(w.s, w.phase)
  {
    match e
    case Serve(grant) => w.faults != [] && ServeHarms(c, w.s, w.flat, w.faults[0], grant)
    case Answer(x) => AnswerHarms(c, w.s, w.flat, w.phase, x)
    case SetSwap(on) => !on && !NoneDepends(w.s, w.flat)
    case _ => false
  }

  /** An event that finds its service in the right place. */
  ghost predicate InTurn(w: World, e: Event) {
    EventOk(e) && (e.Serve? ==> w.phase == Idle) && (e.Answer? ==> w.phase != Idle)
  }

  /** Every event keeps the invariant, but for those that do harm, which destroy it. */
  lemma StepKeepsIff(c: Codec, w: World, e: Event)
    requires WorldInv(c, w) && InTurn(w, e) && Lossless(c)
    ensures CanStep(w, e)
    ensures WorldInv(c, Step(c, w, e)) <==> !Harmful(c, w, e)
    ensures Step(c, w, e).s.flash == w.s.flash
  {
    hide Inv, Settled, Begin, GoOn, StoreByte, Reach, ServeHarms, AnswerHarms, NoneDepends, Posted;
    match e
    case Read(a, mode) =>
      VirtualPosted(a);
    case Write(a, b) =>
      VirtualPosted(a);
      if Reach(w.s, a / PAGE_SIZE, Store).Done? {
        VirtualSeg(a);
        MeanwhileStored(c, w.s, w.phase, w.flat, a, b);
      }
    case Raise(o) =>
    case Serve(grant) =>
      SettledIs(w.s, 0, 0);
      if w.faults != [] {
        BeginKeepsIff(c, w.s, w.flat, w.faults[0], grant);
      }
    case Answer(x) =>
      GoOnKeepsIff(c, w.s, w.phase, w.flat, x);
    case SetSwap(on) =>
      MeanwhileSwap(c, w.s, w.phase, w.flat, on);
  }

  lemma VirtualPosted(a: nat)
    requires Virtual(a)
    ensures forall kind :: Posted(Outstanding(a / PAGE_SIZE, kind))
  {
  }

  // ----- runs

  ghost predicate Run(c: Codec, ws: seq<World>, es: seq<Event>) {
    && |ws| == |es| + 1
    && Started(ws[0])
    && forall i :: 0 <= i < |es| ==> CanStep(ws[i], es[i]) && ws[i + 1] == Step(c, ws[i], es[i])
  }

  /** After `vmMgr_init`: no frame in use, nothing mapped, nothing written, no fault. */
  ghost predicate Started(w: World) {
    && Sized(w.s)
    && (forall f :: 0 <= f < RAM_FRAMES ==> w.s.ram.frames[f].page == 0)
    && (forall f :: 0 <= f < ROM_FRAMES ==> w.s.rom.frames[f].page == 0)
    && (forall q :: FullEntry(w.s.mmu, q) == 0)
    && w.s.link == Fresh && w.phase == Idle && w.flat == map[] && w.faults == []
  }

  lemma StartedInv(c: Codec, w: World)
    requires Started(w)
    ensures WorldInv(c, w)
  {
  }

  /** None of the first k events does harm. */
  ghost predicate HarmlessTo(c: Codec, ws: seq<World>, es: seq<Event>, k: nat)
    requires k <= |es| < |ws|
  {
    forall i :: 0 <= i < k ==> Harmless(c, ws[i], es[i])
  }

  ghost predicate Harmless(c: Codec, w: World, e: Event) {
    Sized(w.s) && PhaseOk(w.s, w.phase) && !Harmful(c, w, e)
  }

  lemma TurnOf(w: World, e: Event)
    requires CanStep(w, e)
    ensures InTurn(w, e)
  {
  }

  lemma InvShape(c: Codec, w: World)
    requires WorldInv(c, w)
    ensures Sized(w.s) && PhaseOk(w.s, w.phase)
  {
  }

  /** With any number of faults in the queue, up to date or not, with accesses between the beginning and the
      end of a service, and whatever the flash memory answers, the invariant holds until an event does
      harm. */
  lemma {:induction false} RunInv(c: Codec, ws: seq<World>, es: seq<Event>, k: nat)
    requires Run(c, ws, es) && Lossless(c) && k <= |es| && HarmlessTo(c, ws, es, k)
    ensures WorldInv(c, ws[k]) && ws[k].s.flash == ws[0].s.flash
  {
    hide WorldInv, Started, Step, InTurn, CanStep, Lossless, Harmful, Sized, PhaseOk;
    if k == 0 {
      StartedInv(c, ws[0]);
    } else {
      RunInv(c, ws, es, k - 1);
      assert CanStep(ws[k - 1], es[k - 1]) && Harmless(c, ws[k - 1], es[k - 1]);
      TurnOf(ws[k - 1], es[k - 1]);
      StepKeepsIff(c, ws[k - 1], es[k - 1]);
      assert ws[k - 1 + 1] == Step(c, ws[k - 1], es[k - 1]);
    }
  }

  /** And the first that does ends it. */
  lemma FirstHarm(c: Codec, ws: seq<World>, es: seq<Event>, k: nat)
    requires Run(c, ws, es) && Lossless(c) && k < |es| && HarmlessTo(c, ws, es, k)
    ensures WorldInv(c, ws[k + 1]) <==> Harmless(c, ws[k], es[k])
  {
    hide WorldInv, Started, Step, InTurn, CanStep, Lossless, Harmful, Sized, PhaseOk;
    RunInv(c, ws, es, k);
    assert CanStep(ws[k], es[k]) && ws[k + 1] == Step(c, ws[k], es[k]);
    TurnOf(ws[k], es[k]);
    InvShape(c, ws[k]);
    StepKeepsIff(c, ws[k], es[k]);
  }

  lemma ReadCorrect(c: Codec, w: World, e: Event)
    requires WorldInv(c, w) && CanStep(w, e) && e.Read? && Step(c, w, e).seen.Some?
    ensures e.a in w.flat ==> Step(c, w, e).seen == Some(w.flat[e.a])
    ensures InRom(e.a / PAGE_SIZE) ==> Step(c, w, e).seen == Some(RomPage(w.s, e.a / PAGE_SIZE)[e.a % PAGE_SIZE])
  {
    hide Reach, Inv, Half;
    VirtualSeg(e.a);
    SettledMmu(w.s, w.phase);
    SettledReach(w.s, w.phase, e.a / PAGE_SIZE, e.mode);
    hide Settled;
    LoadCorrect(c, Settled(w.s, w.phase), w.flat, e.a, e.mode);
  }

  /** The pager refines a flat memory. In any run, with any number of faults outstanding, a read that
      completes before an event has done harm gives the byte written last if its address was ever written,
      and in the ROM area the byte of the system image. */
  lemma ReadsLastWritten(c: Codec, ws: seq<World>, es: seq<Event>, k: nat)
    requires Run(c, ws, es) && Lossless(c) && k < |es| && HarmlessTo(c, ws, es, k)
    requires es[k].Read? && ws[k + 1].seen.Some?
    ensures |ws[0].s.flash| == ROM_PAGES / 2
    ensures es[k].a in ws[k].flat ==> ws[k + 1].seen == Some(ws[k].flat[es[k].a])
    ensures InRom(es[k].a / PAGE_SIZE) ==>
              ws[k + 1].seen == Some(RomPage(ws[0].s, es[k].a / PAGE_SIZE)[es[k].a % PAGE_SIZE])
  {
    hide WorldInv, Step, CanStep, Lossless, Half;
    RunInv(c, ws, es, k);
    assert CanStep(ws[k], es[k]) && ws[k + 1] == Step(c, ws[k], es[k]);
    InvShape(c, ws[k]);
    ReadCorrect(c, ws[k], es[k]);
  }

  /** The flat memory is changed by the completed writes and by nothing else. */
  lemma OnlyWritesChange(c: Codec, w: World, e: Event)
    requires CanStep(w, e)
    ensures Step(c, w, e).flat ==
            if e.Write? && Reach(w.s, e.a / PAGE_SIZE, Store).Done? then w.flat[e.a := e.b] else w.flat
  {
    hide Reach, Begin, GoOn;
  }

  /** In any run, a service whose victim's page is refused does not resume the task, and leaves frames,
      contents and mappings as they were; it does harm iff the refused block was needed. */
  lemma RefusedNeverResumes(c: Codec, ws: seq<World>, es: seq<Event>, k: nat)
    requires Run(c, ws, es) && Lossless(c) && k < |es| && HarmlessTo(c, ws, es, k) && es[k].Serve? && ws[k].faults != []
    requires var s, o := ws[k].s, ws[k].faults[0];
             && Sized(s) && InRam(o.page) && IsMiss(o) && Handled(s, o) && SaveRefused(s, Victim(s), es[k].grant)
    ensures var s, w' := ws[k].s, ws[k + 1];
            && w'.phase == Idle
            && w'.verdict == Some(Kill(if VictimPage(s) - RAM_BASE < ZRAM_PAGES then ZramOom else SwapNotEnabled))
            && w'.s.ram.frames == s.ram.frames && w'.s.mem == s.mem && w'.s.mmu == s.mmu
            && (WorldInv(c, w') <==>
                  (VictimPage(s) - RAM_BASE < ZRAM_PAGES && Written(ws[k].flat, VictimPage(s)) ==> !Needs(s, VictimPage(s))))
  {
    hide WorldInv, Inv, Begin, SaveRefused, Lossless, Sized, Started, CanStep, Handled, IsMiss, Needs, Written, MissFine;
    RunInv(c, ws, es, k);
    FirstHarm(c, ws, es, k);
    assert CanStep(ws[k], es[k]) && ws[k + 1] == Step(c, ws[k], es[k]);
    TurnOf(ws[k], es[k]);
    RefusedIsFine(c, ws[k], es[k].grant);
  }

  lemma RefusedIsFine(c: Codec, w: World, grant: Option<seq<byte>>)
    requires WorldInv(c, w) && InTurn(w, Serve(grant)) && w.faults != []
    requires var s, o := w.s, w.faults[0]; InRam(o.page) && IsMiss(o) && Handled(s, o) && SaveRefused(s, Victim(s), grant)
    ensures Seg(w.faults[0].page) != FREE_SEG && w.s.link != Looped
    ensures var s, r := w.s, Begin(c, w.s, w.faults[0].page, w.faults[0].kind, grant);
            && r.phase == Idle
            && r.verdict == Some(Kill(if VictimPage(s) - RAM_BASE < ZRAM_PAGES then ZramOom else SwapNotEnabled))
            && r.s.ram.frames == s.ram.frames && r.s.mem == s.mem && r.s.mmu == s.mmu
            && (Harmless(c, w, Serve(grant)) <==>
                  (VictimPage(s) - RAM_BASE < ZRAM_PAGES && Written(w.flat, VictimPage(s)) ==> !Needs(s, VictimPage(s))))
  {
    hide Inv, SaveRefused, Handled, Needs, Written, RamMiss, RomMiss, Reloaded, Right, BackingAfter;
    InvSized(c, w.s, w.flat);
    NoReload(w.s, w.faults[0]);
    HandledMiss(c, w.s, w.faults[0], grant);
    RefusedIff(c, w.s, w.flat, w.faults[0].page, grant);
  }

  lemma HandledMiss(c: Codec, s: State, o: Outstanding, grant: Option<seq<byte>>)
    requires Sized(s) && s.link != Looped && Seg(o.page) != FREE_SEG && InRam(o.page) && IsMiss(o) && Handled(s, o)
    ensures Begin(c, s, o.page, o.kind, grant) == RamMiss(c, s, o.page, grant)
  {
    hide RamMiss, RomMiss, WriteFault, Sized;
    NoReload(s, o);
    RamOnly(o.page);
  }

  // ----- who is evicted

  /** The RAM frame that an event moves to the end of the list, or RAM_FRAMES. */
  ghost function MovedFrame(w: World, e: Event): nat
    requires CanStep(w, e)
  {
    if !e.Serve? || w.faults == [] || !InRam(w.faults[0].page) || !Handled(w.s, w.faults[0]) then RAM_FRAMES
    else if IsMiss(w.faults[0]) then w.s.ram.order[0]
    else if w.faults[0].kind == WriteReadOnly && Found(w.s, w.faults[0].page) >= 0 then w.s.ram.order[Found(w.s, w.faults[0].page)]
    else RAM_FRAMES
  }

  lemma BeginMoves(c: Codec, s: State, o: Outstanding, grant: Option<seq<byte>>)
    requires Sized(s) && Seg(o.page) != FREE_SEG && s.link != Looped
    ensures Begin(c, s, o.page, o.kind, grant).s.ram.order ==
            if !InRam(o.page) || !Handled(s, o) then s.ram.order
            else if IsMiss(o) then Touch(s.ram.order, Victim(s))
            else if o.kind == WriteReadOnly && Found(s, o.page) >= 0 then Touch(s.ram.order, s.ram.order[Found(s, o.page)])
            else s.ram.order
  {
    hide RamMiss, RomMiss, WriteFault, ReloadCode, BringIn, Touch, Found, Permutation, MmuTable.Valid;
    if Handled(s, o) {
      NoReload(s, o);
      if InRam(o.page) {
        RamOnly(o.page);
        RamMissWaits(c, s, o.page, grant);
        WriteFaultWaits(s, o.page);
      } else if InRom(o.page) {
        RomMissWaits(s, o.page);
      }
    }
  }

  lemma GoOnMoves(c: Codec, s: State, phase: Phase, x: Flash)
    requires CanGoOn(s, phase)
    ensures GoOn(c, s, phase, x).s.ram.order == s.ram.order
  {
    hide Give, SetPage, EntryOf, FullEntry, WrittenBack, CopiedIn, PutEntry;
    match phase
    case SaveRead(f, page) =>
    case SaveWrite(f, page, buf) =>
      WrittenOrder(s, f, buf, x);
      GiveWaits(c, WrittenBack(s, f, buf, x), f, page);
    case RamLoad(f, page) =>
      LoadIs(c, s, f, page, x);
      LoadedIs(s, f, page, LoadedHalf(s, page, x));
    case RomLoad(f, page) =>
      RomLoadIs(c, s, f, page, x);
      RomLoadedIs(s, f, page, LoadedRomHalf(s, page, x));
  }

  lemma StepMoves(c: Codec, w: World, e: Event)
    requires CanStep(w, e)
    ensures MovedFrame(w, e) <= RAM_FRAMES
    ensures Permutation(w.s.ram.order, RAM_FRAMES) && Permutation(Step(c, w, e).s.ram.order, RAM_FRAMES)
    ensures Step(c, w, e).s.ram.order == After(w.s.ram.order, MovedFrame(w, e), RAM_FRAMES)
  {
    hide Begin, GoOn, Reach, StoreByte, Touch, Permutation, FullEntry, ReloadCode, Found, Sized;
    SizedOrder(w.s);
    SizedOrder(Step(c, w, e).s);
    match e
    case Write(a, b) =>
      if Reach(w.s, a / PAGE_SIZE, Store).Done? {
        StoredOrder(w.s, a, b);
      }
    case Serve(grant) =>
      if w.faults != [] {
        BeginMoves(c, w.s, w.faults[0], grant);
      }
    case Answer(x) =>
      GoOnMoves(c, w.s, w.phase, x);
    case _ =>
  }

  lemma SizedOrder(s: State)
    requires Sized(s)
    ensures Permutation(s.ram.order, RAM_FRAMES) && s.ram.order[0] < RAM_FRAMES
    ensures forall i :: 0 <= i < RAM_FRAMES ==> s.ram.order[i] < RAM_FRAMES
  {
  }

  lemma StoredOrder(s: State, a: nat, b: byte)
    requires Sized(s) && Reach(s, a / PAGE_SIZE, Store).Done?
    ensures StoreByte(s, a, b).ram == s.ram
  {
  }

  ghost function Orders(ws: seq<World>): (orders: seq<seq<nat>>)
    ensures |orders| == |ws|
  {
    seq(|ws|, i requires 0 <= i < |ws| => ws[i].s.ram.order)
  }

  ghost function Moves(c: Codec, ws: seq<World>, es: seq<Event>): (moved: seq<nat>)
    requires Run(c, ws, es)
    ensures |moved| == |es|
  {
    seq(|es|, i requires 0 <= i < |es| => MovedFrame(ws[i], es[i]))
  }

  lemma RunMoves(c: Codec, ws: seq<World>, es: seq<Event>)
    requires Run(c, ws, es)
    ensures LruList.Run(Orders(ws), Moves(c, ws, es), RAM_FRAMES)
  {
    hide Step, MovedFrame, Permutation, After, Started, CanStep;
    StartedOrder(ws[0]);
    forall k | 0 <= k < |es|
      ensures Moves(c, ws, es)[k] <= RAM_FRAMES && Permutation(Orders(ws)[k], RAM_FRAMES)
      ensures Orders(ws)[k + 1] == After(Orders(ws)[k], Moves(c, ws, es)[k], RAM_FRAMES)
    {
      StepMoves(c, ws[k], es[k]);
    }
    if es != [] {
      StepMoves(c, ws[|es| - 1], es[|es| - 1]);
      assert ws[|es| - 1 + 1] == Step(c, ws[|es| - 1], es[|es| - 1]);
    }
  }

  lemma StartedOrder(w: World)
    requires Started(w)
    ensures Permutation(w.s.ram.order, RAM_FRAMES)
  {
  }

  /** Some event after a and before b moved the frame. */
  ghost predicate MovedBetween(c: Codec, ws: seq<World>, es: seq<Event>, a: nat, b: nat, g: nat)
    requires Run(c, ws, es) && b <= |es|
  {
    exists m :: a < m < b && MovedFrame(ws[m], es[m]) == g
  }

  lemma MovedMeans(c: Codec, ws: seq<World>, es: seq<Event>, a: nat, b: nat, g: nat)
    requires Run(c, ws, es) && b <= |es|
    ensures MovedBetween(c, ws, es, a, b, g) <==> MovedWithin(Moves(c, ws, es), a + 1, b, g)
  {
    hide Step, MovedFrame, Started, CanStep;
    var moved := Moves(c, ws, es);
    if MovedBetween(c, ws, es, a, b, g) {
      var m :| a < m < b && MovedFrame(ws[m], es[m]) == g;
      assert moved[m] == g;
    }
    if MovedWithin(moved, a + 1, b, g) {
      var m :| a + 1 <= m < b && moved[m] == g;
      assert MovedFrame(ws[m], es[m]) == g;
    }
  }

  /** Least recently used, first out, in any run: a frame that event a moved, and nothing has moved since, is
      evicted only after every other frame has been moved in between. */
  lemma EvictedLastInRun(c: Codec, ws: seq<World>, es: seq<Event>, a: nat, b: nat, f: nat)
    requires Run(c, ws, es) && a < b < |es| && MovedFrame(ws[a], es[a]) == f < RAM_FRAMES
    requires !MovedBetween(c, ws, es, a, b, f)
    requires ws[b].s.ram.order != [] && ws[b].s.ram.order[0] == f
    ensures forall g :: 0 <= g < RAM_FRAMES && g != f ==> MovedBetween(c, ws, es, a, b, g)
  {
    hide Step, MovedFrame, Permutation, After, Started, CanStep;
    RunMoves(c, ws, es);
    MovedMeans(c, ws, es, a, b, f);
    EvictedLast(Orders(ws), Moves(c, ws, es), RAM_FRAMES, a + 1, b, f);
    forall g | 0 <= g < RAM_FRAMES && g != f
      ensures MovedBetween(c, ws, es, a, b, g)
    {
      MovedMeans(c, ws, es, a, b, g);
    }
  }
}
