/** Runs and states in which the pager does go wrong: two faults in the queue at once suffice to lose a
    written byte, or to link the list of RAM frames to itself, and so does switching the swap area off. */
module PagerExamples {
  import opened Basics
  import opened MmuTable
  import opened LruList
  import opened Pager
  import opened PagerTheory
  import opened PagerSteps
  import opened PagerAccess
  import opened PagerRuns
  import opened PagerService
  import opened PagerProgress
  import opened PagerCorrespondence
  import opened PagerCalm

  /** The worlds that the events lead through. */
  ghost function Play(c: Codec, w: World, es: seq<Event>): (ws: seq<World>)
    ensures ws != [] && ws[0] == w
    decreases |es|
  {
    if es == [] || !CanStep(w, es[0]) then [w] else [w] + Play(c, Step(c, w, es[0]), es[1..])
  }

  /** All the events can happen, and the worlds follow from each other. */
  ghost predicate Played(c: Codec, ws: seq<World>, es: seq<Event>) {
    && |ws| == |es| + 1
    && forall i :: 0 <= i < |es| ==> CanStep(ws[i], es[i]) && ws[i + 1] == Step(c, ws[i], es[i])
  }

  lemma {:induction false} PlayedIsPlay(c: Codec, ws: seq<World>, es: seq<Event>)
    requires Played(c, ws, es)
    ensures Play(c, ws[0], es) == ws
    decreases |es|
  {
    hide Step, CanStep;
    if es != [] {
      assert ws[0 + 1] == Step(c, ws[0], es[0]);
      PlayedIsPlay(c, ws[1..], es[1..]);
    }
  }

  /** A run of events none of which does harm. */
  ghost predicate Quiet(c: Codec, ws: seq<World>, es: seq<Event>) {
    Played(c, ws, es) && forall i :: 0 <= i < |es| ==> Harmless(c, ws[i], es[i])
  }

  /** Two runs one after the other; if the first k events of the second do no harm, no event before does. */
  lemma QuietThen(c: Codec, ws: seq<World>, es: seq<Event>, vs: seq<World>, fs: seq<Event>, k: nat)
    requires Quiet(c, ws, es) && Played(c, vs, fs) && ws[|es|] == vs[0] && k <= |fs|
    requires forall i :: 0 <= i < k ==> Harmless(c, vs[i], fs[i])
    ensures Played(c, ws + vs[1..], es + fs) && HarmlessTo(c, ws + vs[1..], es + fs, |es| + k)
    ensures k == |fs| ==> Quiet(c, ws + vs[1..], es + fs)
  {
    hide Step, CanStep, Harmless;
    var us, gs := ws + vs[1..], es + fs;
    forall i | 0 <= i < |gs|
      ensures CanStep(us[i], gs[i]) && us[i + 1] == Step(c, us[i], gs[i])
      ensures i < |es| + k ==> Harmless(c, us[i], gs[i])
    {
      if i >= |es| {
        var j := i - |es|;
        assert us[i] == vs[j] && us[i + 1] == vs[j + 1] && gs[i] == fs[j];
      }
    }
  }

  // ----- accesses and services, case by case

  lemma ReachOf(s: State, page: nat, mode: Mode)
    requires Sized(s) && (InRam(page) || InRom(page))
    ensures Reach(s, page, mode) ==
            if !Resident(s.mmu, Seg(page)) || FullEntry(s.mmu, page) == 0 then Fault(if mode == Fetch then UnmapPab else UnmapDab)
            else if mode == Store && !Writable(FullEntry(s.mmu, page)) then Fault(WriteReadOnly)
            else Done(FrameOf(FullEntry(s.mmu, page)))
  {
    AreasRegistered(page);
    WalkOf(s, page);
    hide FullEntry, Registered, Sized, Walk;
  }

  lemma BeginOf(c: Codec, s: State, page: nat, kind: Kind, grant: Option<seq<byte>>)
    requires Sized(s) && (InRam(page) || InRom(page)) && s.link != Looped
    ensures Seg(page) != FREE_SEG
    ensures Resident(s.mmu, Seg(page)) ==>
              Handled(s, Outstanding(page, kind)) && Begin(c, s, page, kind, grant) == Repair(c, s, page, kind, grant)
    ensures !Resident(s.mmu, Seg(page)) ==>
              !Handled(s, Outstanding(page, kind)) && Begin(c, s, page, kind, grant) == Over(Reloaded(s, page), Resume)
  {
    AreasRegistered(page);
    FindSegOfRegistered(s.mmu, Seg(page));
    hide Repair, Registered, FindSeg, MmuTable.Valid, TableOf;
  }

  /** An access that faults is queued. */
  lemma Faults(c: Codec, w: World, e: Event, mode: Mode, kind: Kind)
    requires Sized(w.s) && EventOk(e) && ((e.Read? && e.mode == mode) || (e.Write? && mode == Store))
    requires Reach(w.s, e.a / PAGE_SIZE, mode) == Fault(kind) && |w.faults| < QUEUE_LEN
    ensures CanStep(w, e)
    ensures Step(c, w, e) == w.(seen := None, verdict := None, faults := w.faults + [Outstanding(e.a / PAGE_SIZE, kind)])
  {
    hide Reach, Sized;
  }

  lemma Serves(c: Codec, w: World, grant: Option<seq<byte>>)
    requires Sized(w.s) && w.phase == Idle && w.faults != [] && w.s.link != Looped && Seg(w.faults[0].page) != FREE_SEG
    ensures CanStep(w, Serve(grant))
    ensures var r := Begin(c, w.s, w.faults[0].page, w.faults[0].kind, grant);
            Step(c, w, Serve(grant))
            == w.(s := r.s, phase := r.phase, faults := w.faults[1..], seen := None, verdict := r.verdict)
  {
    hide Begin, Sized;
  }

  /** A read that reaches a frame. */
  lemma Reads(c: Codec, w: World, a: nat, g: nat)
    requires Sized(w.s) && Virtual(a) && Reach(w.s, a / PAGE_SIZE, Load) == Done(g) && g < |w.s.mem|
    ensures CanStep(w, Read(a, Load))
    ensures Step(c, w, Read(a, Load)) == w.(seen := Some(w.s.mem[g][a % PAGE_SIZE]), verdict := None)
  {
    hide Reach, Sized;
  }

  lemma AccessHarmless(c: Codec, w: World, e: Event)
    requires Sized(w.s) && PhaseOk(w.s, w.phase) && (e.Read? || e.Write?)
    ensures Harmless(c, w, e)
  {
  }

  // ----- two reads of one page

  /** The byte the address will show when its page is loaded again. */
  ghost function StoredByte(c: Codec, s: State, a: nat): byte
    requires Sized(s) && InRam(a / PAGE_SIZE)
  {
    Brought(Backing(c, s, a / PAGE_SIZE), s.mem[ROM_FRAMES + Victim(s)])[a % PAGE_SIZE]
  }

  /** The page is in a frame, its segment is not resident, and the next victim is another frame; neither the
      victim nor the page has to be waited for. */
  ghost predicate Evadable(s: State, page: nat, grant: Option<seq<byte>>)
    requires Sized(s)
  {
    && InRam(page) && FullEntry(s.mmu, page) != 0 && !Resident(s.mmu, Seg(page)) && s.link != Looped
    && VictimPage(s) != page && !SaveRefused(s, Victim(s), grant) && !SaveWaits(s, Victim(s)) && AtOnce(s, page)
  }

  /** A miss that does not wait. */
  lemma MissedAtOnce(c: Codec, s: State, page: nat, grant: Option<seq<byte>>)
    requires Sized(s) && InRam(page) && s.link != Looped && Lossless(c) && AtOnce(s, page)
    requires !SaveRefused(s, Victim(s), grant) && !SaveWaits(s, Victim(s))
    ensures var r, f := RamMiss(c, s, page, grant), Victim(s);
            ShowsBrought(r, f, page, Brought(BackingAfter(c, s, f, page), s.mem[ROM_FRAMES + f]))
  {
    hide Backing, ShowsBrought, Touch, Through, RamMiss, PhaseOk;
    MissShows(c, s, page, grant, [Good, Good, Good]);
    EndsAtOnce(c, s, page, grant);
    ThroughIdle(c, RamMiss(c, s, page, grant), [Good, Good, Good]);
  }

  lemma EndsAtOnce(c: Codec, s: State, page: nat, grant: Option<seq<byte>>)
    requires Sized(s) && InRam(page) && s.link != Looped && AtOnce(s, page)
    requires !SaveRefused(s, Victim(s), grant) && !SaveWaits(s, Victim(s))
    ensures RamMiss(c, s, page, grant).phase == Idle
  {
    hide Taken, Shown, Touch, FullEntry;
    var f, s0 := Victim(s), Rotated(s);
    RotatedSame(s);
    if s.ram.frames[f].dirty {
      CompressedSame(c, s, grant.value);
      TakenIs(Compressed(c, s0, f, grant.value), f, page);
    } else {
      TakenIs(s0, f, page);
    }
  }

  /** Two faults in one segment, whichever tasks raised them: the first service brings the segment in, so
      that the second takes the page for one that is in no frame. The page is loaded again from its store
      into another frame, and what was written to it since it was stored is not what is read. */
  lemma TwoReads(c: Codec, w: World, a: nat, grant: Option<seq<byte>>)
    requires Sized(w.s) && w.phase == Idle && w.faults == [] && Virtual(a) && Lossless(c)
    requires Evadable(w.s, a / PAGE_SIZE, grant)
    ensures var es := [Read(a, Load), Read(a, Load), Serve(None), Serve(grant), Read(a, Load)];
            var ws := Play(c, w, es);
            && Played(c, ws, es)
            && (forall i :: 0 <= i < 3 ==> Harmless(c, ws[i], es[i]))
            && ws[5].flat == w.flat && ws[5].seen == Some(StoredByte(c, w.s, a))
  {
    hide Begin, Reach, Sized, FullEntry, SaveRefused, SaveWaits, RamMiss, Resident, Backing, Reloaded, Handled, Step, CanStep;
    hide Brought, Harmless;
    var page, read := a / PAGE_SIZE, Read(a, Load);
    var miss := Outstanding(page, UnmapDab);
    ReachOf(w.s, page, Load);
    Faults(c, w, read, Load, UnmapDab);
    AccessHarmless(c, w, read);
    var w1 := Step(c, w, read);
    Faults(c, w1, read, Load, UnmapDab);
    AccessHarmless(c, w1, read);
    var w2 := Step(c, w1, read);
    assert w2.faults == [miss, miss];
    BeginOf(c, w.s, page, UnmapDab, None);
    ReloadHarmless(c, w2);
    Serves(c, w2, None);
    var w3 := Step(c, w2, Serve(None));
    ReloadedState(w.s, page);
    assert w3.faults == [miss];
    MissedAgain(c, w.s, w3.s, page, grant);
    Serves(c, w3, grant);
    var w4 := Step(c, w3, Serve(grant));
    Reads(c, w4, a, ROM_FRAMES + Victim(w.s));
    var w5 := Step(c, w4, read);
    PlayedIsPlay(c, [w, w1, w2, w3, w4, w5], [read, read, Serve(None), Serve(grant), read]);
  }

  lemma ReloadHarmless(c: Codec, w: World)
    requires Sized(w.s) && w.phase == Idle && w.faults != [] && !Handled(w.s, w.faults[0])
    ensures forall grant :: Harmless(c, w, Serve(grant))
  {
  }

  lemma RepairIsMiss(c: Codec, s: State, page: nat, grant: Option<seq<byte>>)
    requires Sized(s) && InRam(page) && s.link != Looped
    ensures Repair(c, s, page, UnmapDab, grant) == RamMiss(c, s, page, grant)
  {
    hide RamMiss, Sized;
  }

  /** The second of the two services. */
  lemma MissedAgain(c: Codec, s0: State, s: State, page: nat, grant: Option<seq<byte>>)
    requires Sized(s0) && Sized(s) && Lossless(c) && Evadable(s0, page, grant)
    requires s == s0.(mmu := s.mmu) && Resident(s.mmu, Seg(page)) && FullEntry(s.mmu, page) == FullEntry(s0.mmu, page)
    ensures Seg(page) != FREE_SEG && s.link != Looped
    ensures var r := Begin(c, s, page, UnmapDab, grant);
            var g := ROM_FRAMES + Victim(s0);
            && r.phase == Idle && Sized(r.s) && Reach(r.s, page, Load) == Done(g) && g < |r.s.mem|
            && r.s.mem[g] == Brought(Backing(c, s0, page), s0.mem[g])
  {
    hide RamMiss, FullEntry, Resident, MmuTable.Valid, Permutation, Begin, Repair, Reach, Handled, Brought;
    BeginOf(c, s, page, UnmapDab, grant);
    RepairIsMiss(c, s, page, grant);
    MissedAtOnce(c, s, page, grant);
    BackingDependsOn(c, s0, s, page);
  }

  // ----- from start-up

  /** The segments that `mmu_init` leaves resident: the last seven registered. */
  const FIRST_LOC: seq<nat> := [0, 33, 34, 48, 49, 50, 51, 32]

  lemma FirstRegistered(i: nat)
    requires 1 <= i < SLOTS
    ensures Registered(FIRST_LOC[i])
  {
    assert SEGS[if i == 7 then 6 else i + 6] == FIRST_LOC[i];
  }

  ghost function FirstSlot(i: nat): L1 {
    if 1 <= i < SLOTS then
      FirstRegistered(i);
      Fine(TableOf(FIRST_LOC[i]))
    else Section(0)
  }

  /** The page table as `mmu_init` leaves it. */
  ghost function FirstMmu(): MmuState {
    MmuState(FIRST_LOC, seq(SLOTS, (i: nat) => FirstSlot(i)), 7,
             SEGS + [FREE_SEG, FREE_SEG], seq(MAX_SEG_SUPPORTED, (j: nat) => if j < |SEGS| then Fine(j) else Invalid),
             seq(|SEGS| * PAGES_PER_SEG, _ => 0))
  }

  function ZeroPage(): Page {
    seq(PAGE_SIZE, _ => 0)
  }

  function ZeroSector(): Sector {
    seq(2 * PAGE_SIZE, _ => 0)
  }

  /** The pager after `vmMgr_init`, with an empty swap area and system image. */
  ghost function Boot(): World {
    World(State(FirstMmu(), Cache(Ascending(RAM_FRAMES), seq(RAM_FRAMES, _ => Frame(0, false))), Fresh,
                Cache(Ascending(ROM_FRAMES), seq(ROM_FRAMES, _ => Frame(0, false))),
                seq(ROM_FRAMES + RAM_FRAMES, _ => ZeroPage()), map[],
                seq(RAM_PAGES / 2, _ => ZeroSector()), seq(ROM_PAGES / 2, _ => ZeroSector()), false),
          Idle, map[], [], None, None)
  }

  lemma FirstMmuValid()
    ensures MmuTable.Valid(FirstMmu())
    ensures Resident(FirstMmu(), 32) && !Resident(FirstMmu(), 1)
  {
    hide TableOf, Registered;
    var m := FirstMmu();
    forall i | 1 <= i < SLOTS
      ensures Registered(m.loc[i]) && m.slot[i] == Fine(TableOf(m.loc[i]))
    {
      FirstRegistered(i);
    }
    assert m.loc[7] == 32;
  }

  lemma NothingMapped(m: MmuState)
    requires MmuTable.Valid(m) && forall i :: 0 <= i < |m.l2| ==> m.l2[i] == 0
    ensures forall q :: FullEntry(m, q) == 0
  {
    hide Registered, TableOf;
  }

  lemma Booted()
    ensures Started(Boot())
  {
    FirstMmuValid();
    NothingMapped(FirstMmu());
    hide FirstMmu, MmuTable.Valid, FullEntry;
    AscendingPermutes(RAM_FRAMES);
    AscendingPermutes(ROM_FRAMES);
  }

  /** While its segment is resident, a page's entry is put without moving any other. */
  lemma StaysPut(m: MmuState, page: nat, v: nat)
    requires MmuTable.Valid(m) && Registered(Seg(page)) && Resident(m, Seg(page))
    ensures var m' := PutEntry(m, page, v); m'.loc == m.loc && m'.ptr == m.ptr
  {
  }

  /** A page of the compressed store that has not been there, and the next frame not in use. */
  ghost predicate Untouched(s: State, page: nat)
    requires Sized(s)
  {
    && InRam(page) && page - RAM_BASE < ZRAM_PAGES && page - RAM_BASE !in s.zram
    && s.link != Looped && s.ram.frames[Victim(s)] == Frame(0, false)
  }

  lemma FirstTouchIs(c: Codec, s: State, page: nat)
    requires Sized(s) && Untouched(s, page)
    ensures Victim(s) in s.ram.order
    ensures var f := Victim(s);
            var s3 := s.(ram := Cache(Touch(s.ram.order, f), s.ram.frames[f := Frame(page, false)]), link := Fresh);
            Sized(s3) && RamMiss(c, s, page, None) == Over(SetPage(s3, page, EntryOf(ROM_FRAMES + f, false)), Resume)
  {
    hide MmuTable.Valid, SetPage, EntryOf, Permutation, Touch;
    var f, s1 := Victim(s), Rotated(s);
    TouchPermutes(s.ram.order, RAM_FRAMES, f);
    assert SetFrame(s1, f, Frame(page, false))
        == s.(ram := Cache(Touch(s.ram.order, f), s.ram.frames[f := Frame(page, false)]), link := Fresh);
  }

  /** Such a page touched for the first time. */
  lemma FirstTouch(c: Codec, s: State, page: nat)
    requires Sized(s) && Untouched(s, page) && Resident(s.mmu, Seg(page))
    ensures Victim(s) in s.ram.order
    ensures var r := RamMiss(c, s, page, None);
            var f, s' := Victim(s), r.s;
            && r == Over(s', Resume)
            && s' == s.(mmu := s'.mmu, ram := Cache(Touch(s.ram.order, f), s.ram.frames[f := Frame(page, false)]), link := Fresh)
            && s'.mmu.loc == s.mmu.loc && s'.mmu.ptr == s.mmu.ptr
            && forall q :: FullEntry(s'.mmu, q) == if q == page then EntryOf(ROM_FRAMES + f, false) else FullEntry(s.mmu, q)
  {
    FirstTouchIs(c, s, page);
    hide RamMiss, Registered, FullEntry, PutEntry, EntryOf, Touch, Permutation, FramesInAreas, MmuTable.Valid;
    AreasRegistered(page);
    var f := Victim(s);
    PutEntryRefines(s.mmu, page, EntryOf(ROM_FRAMES + f, false));
    StaysPut(s.mmu, page, EntryOf(ROM_FRAMES + f, false));
  }

  /** Nothing but the running task: no fault is outstanding, no service under way, and no page in two
      frames. */
  ghost predicate AtRest(c: Codec, w: World) {
    WorldInv(c, w) && StrictWorld(w) && w.phase == Idle && w.faults == []
  }

  /** A calm event does no harm. */
  lemma CalmKeeps(c: Codec, w: World, e: Event)
    requires WorldInv(c, w) && StrictWorld(w) && CanStep(w, e) && Lossless(c) && Calm(w, e)
    requires AtMostOne(w) && AtMostOne(Step(c, w, e))
    ensures Harmless(c, w, e) && WorldInv(c, Step(c, w, e)) && StrictWorld(Step(c, w, e))
  {
    hide WorldInv, StrictWorld, CanStep, Step, Calm, AtMostOne, Lossless, Harmful;
    CalmStep(c, w, e);
    TurnOf(w, e);
    StepKeepsIff(c, w, e);
  }

  lemma RestSized(c: Codec, w: World)
    requires AtRest(c, w)
    ensures Inv(c, w.s, w.flat) && OneToOne(w.s) && Listed(w.s) && AtMostOne(w)
  {
    StrictIdle(w.s);
    hide Strict, Inv;
  }

  /** An access that faults, and the beginning of the service of its fault. */
  lemma FaultServed(c: Codec, w: World, e: Event, mode: Mode, kind: Kind)
    requires AtRest(c, w) && Lossless(c)
    requires EventOk(e) && ((e.Read? && e.mode == mode) || (e.Write? && mode == Store))
    requires Sized(w.s) && Reach(w.s, e.a / PAGE_SIZE, mode) == Fault(kind)
    ensures CanStep(w, e) && Harmless(c, w, e)
    ensures var w1 := Step(c, w, e);
            && w1.s == w.s && w1.faults == [Outstanding(e.a / PAGE_SIZE, kind)] && AtMostOne(w1)
            && CanStep(w1, Serve(None)) && Harmless(c, w1, Serve(None))
            && var w2 := Step(c, w1, Serve(None));
               && WorldInv(c, w2) && StrictWorld(w2) && w2.faults == [] && w2.flat == w.flat && AtMostOne(w2)
               && w.s.link != Looped && Seg(e.a / PAGE_SIZE) != FREE_SEG
               && var r := Begin(c, w.s, e.a / PAGE_SIZE, kind, None);
                  && w2.s == r.s && w2.phase == r.phase
                  && (r.phase == Idle ==> AtRest(c, w2))
  {
    hide Begin, Reach, Inv, StrictWorld, Lossless, Harmless, WritesVictim;
    RestSized(c, w);
    InvSized(c, w.s, w.flat);
    VirtualSeg(e.a);
    Faults(c, w, e, mode, kind);
    NotWaiting(w, e);
    CalmKeeps(c, w, e);
    var w1 := Step(c, w, e);
    NotWaiting(w1, Serve(None));
    Serves(c, w1, None);
    CalmKeeps(c, w1, Serve(None));
  }

  lemma NotWaiting(w: World, e: Event)
    requires w.phase == Idle
    ensures !WritesVictim(w, e)
  {
  }

  /** The first touch of a page, by a read or a write. */
  lemma Touched(c: Codec, w: World, e: Event, mode: Mode, page: nat)
    requires AtRest(c, w) && Lossless(c) && Sized(w.s)
    requires EventOk(e) && ((e.Read? && e.mode == mode == Load) || (e.Write? && mode == Store)) && e.a / PAGE_SIZE == page
    requires Untouched(w.s, page) && Resident(w.s.mmu, Seg(page)) && FullEntry(w.s.mmu, page) == 0
    ensures Reach(w.s, page, mode) == Fault(UnmapDab) && Seg(page) != FREE_SEG && w.s.link != Looped && InRam(page)
    ensures Begin(c, w.s, page, UnmapDab, None) == RamMiss(c, w.s, page, None)
  {
    hide Begin, RamMiss, Reach, AtRest, FullEntry, Untouched, Resident, Repair;
    UntouchedRam(w.s, page);
    ReachOf(w.s, page, mode);
    BeginOf(c, w.s, page, UnmapDab, None);
    RepairIsMiss(c, w.s, page, None);
  }

  lemma UntouchedRam(s: State, page: nat)
    requires Sized(s) && Untouched(s, page)
    ensures InRam(page) && s.link != Looped
  {
  }

  /** The page that is in frame f and in no other is the one the search finds. */
  lemma TheHolder(s: State, page: nat, f: nat)
    requires Sized(s) && OneToOne(s) && page != 0 && Holds(s.ram.frames, f, page)
    ensures Found(s, page) >= 0 && s.ram.order[Found(s, page)] == f
  {
    hide OneToOne, Found;
    FoundIff(s, page);
    NoPageTwice(s, f, s.ram.order[Found(s, page)]);
  }

  /** The first write to a page that has been read in. */
  lemma FirstWrite(c: Codec, s: State, page: nat, f: nat)
    requires Sized(s) && OneToOne(s) && s.link != Looped && f < RAM_FRAMES && InRam(page) && Resident(s.mmu, Seg(page))
    requires FullEntry(s.mmu, page) == EntryOf(ROM_FRAMES + f, false) && Holds(s.ram.frames, f, page)
    ensures Reach(s, page, Store) == Fault(WriteReadOnly) && Seg(page) != FREE_SEG
    ensures var r := Begin(c, s, page, WriteReadOnly, None);
            && r.phase == Idle && Sized(r.s) && Dirtied(s, r.s, f, page)
            && r.s.mmu.loc == s.mmu.loc && r.s.mmu.ptr == s.mmu.ptr
  {
    hide Begin, Reach, OneToOne, FullEntry, EntryOf, MmuTable.Valid, Registered, Resident, WriteFault, Dirtied, Found;
    ReachOf(s, page, Store);
    EntryFields(ROM_FRAMES + f, false);
    BeginOf(c, s, page, WriteReadOnly, None);
    RepairIsWrite(c, s, page);
    TheHolder(s, page, f);
    WriteFaultDirties(s, page);
    WriteStays(s, page);
  }

  lemma RepairIsWrite(c: Codec, s: State, page: nat)
    requires Sized(s) && InRam(page) && s.link != Looped
    ensures Repair(c, s, page, WriteReadOnly, None) == WriteFault(s, page)
  {
    hide WriteFault, Sized;
  }

  lemma WriteStays(s: State, page: nat)
    requires Sized(s) && InRam(page) && s.link != Looped && Resident(s.mmu, Seg(page))
    ensures var s' := WriteFault(s, page).s; s'.mmu.loc == s.mmu.loc && s'.mmu.ptr == s.mmu.ptr
  {
    hide PutEntry, EntryOf, Registered, Touch, LastPlace;
    AreasRegistered(page);
    if Found(s, page) >= 0 {
      PutTwice(s.mmu, page, EntryOf(ROM_FRAMES + s.ram.order[Found(s, page)], true));
    }
  }

  lemma PutTwice(m: MmuState, page: nat, v: nat)
    requires MmuTable.Valid(m) && Registered(Seg(page)) && Resident(m, Seg(page))
    ensures Shaped(PutEntry(m, page, 0))
    ensures var m' := PutEntry(PutEntry(m, page, 0), page, v); m'.loc == m.loc && m'.ptr == m.ptr
  {
    hide PutEntry, Registered;
    PutEntryRefines(m, page, 0);
    StaysPut(m, page, 0);
    StaysPut(PutEntry(m, page, 0), page, v);
  }

  // ----- a written byte lost

  const A := RAM_BASE * PAGE_SIZE
  const R := ROM_BASE * PAGE_SIZE

  /** The first RAM page is in frame 0, and nothing else is in any frame. */
  ghost predicate InFrame0(s: State, dirty: bool) {
    && Sized(s) && s.link == Fresh && s.zram == map[] && s.mem[ROM_FRAMES + 1] == ZeroPage()
    && s.ram.order == Ascending(RAM_FRAMES)[1..] + [0]
    && s.ram.frames == seq(RAM_FRAMES, _ => Frame(0, false))[0 := Frame(RAM_BASE, dirty)]
    && FullEntry(s.mmu, RAM_BASE) == EntryOf(ROM_FRAMES, dirty)
    && s.mmu.loc == FIRST_LOC && s.mmu.ptr == 7
  }

  lemma FirstLocations(m: MmuState)
    requires |m.loc| == SLOTS && m.loc == FIRST_LOC
    ensures Resident(m, 32) && !Resident(m, 1)
  {
    assert m.loc[7] == 32;
  }

  lemma Addresses()
    ensures A / PAGE_SIZE == RAM_BASE && R / PAGE_SIZE == ROM_BASE && Seg(RAM_BASE) == 32 && Seg(ROM_BASE) == 1
    ensures InRam(RAM_BASE) && InRom(ROM_BASE) && Virtual(A) && Virtual(R) && A % PAGE_SIZE == 0
    ensures Seg(RAM_BASE + 1) == 32 && InRam(RAM_BASE + 1) && (A + PAGE_SIZE) / PAGE_SIZE == RAM_BASE + 1 && Virtual(A + PAGE_SIZE)
  {
  }

  lemma BootShape()
    ensures var s := Boot().s;
            && Sized(s) && Victim(s) == 0 && Untouched(s, RAM_BASE) && Resident(s.mmu, 32) && FullEntry(s.mmu, RAM_BASE) == 0
            && s.mmu.loc == FIRST_LOC && s.mmu.ptr == 7
            && Touch(s.ram.order, 0) == Ascending(RAM_FRAMES)[1..] + [0]
  {
    Booted();
    FirstMmuValid();
    TouchFirst(Ascending(RAM_FRAMES));
    hide FirstMmu, MmuTable.Valid, FullEntry, Touch, Permutation;
  }

  lemma BootAtRest(c: Codec)
    ensures AtRest(c, Boot())
  {
    hide Boot, WorldInv, StrictWorld;
    Booted();
    StartedInv(c, Boot());
    StartedStrict(Boot());
  }

  /** After the page is touched for the first time. */
  lemma Touched0(c: Codec, e: Event, mode: Mode)
    requires Lossless(c)
    requires (e == Read(A, Load) && mode == Load) || (e == Write(A, 1) && mode == Store)
    ensures CanStep(Boot(), e) && Harmless(c, Boot(), e)
    ensures var w1 := Step(c, Boot(), e);
            && CanStep(w1, Serve(None)) && Harmless(c, w1, Serve(None))
            && var w2 := Step(c, w1, Serve(None));
               && AtRest(c, w2) && w2.flat == map[] && InFrame0(w2.s, false)
               && forall q :: q != RAM_BASE ==> FullEntry(w2.s.mmu, q) == 0
  {
    hide Harmless, Begin, RamMiss, FirstMmu, Reach, Step, CanStep, AtRest, Touch, FullEntry, EntryOf;
    hide Permutation, MmuTable.Valid, Resident, Untouched;
    Addresses();
    BootShape();
    Booted();
    BootClean();
    BootAtRest(c);
    FirstTouch(c, Boot().s, RAM_BASE);
    Touched(c, Boot(), e, mode, RAM_BASE);
    FaultServed(c, Boot(), e, mode, UnmapDab);
  }

  lemma BootClean()
    ensures Boot().flat == map[] && Boot().faults == []
    ensures var s := Boot().s;
            && s.zram == map[] && |s.mem| == ROM_FRAMES + RAM_FRAMES && s.mem[ROM_FRAMES + 1] == ZeroPage()
            && s.ram.frames == seq(RAM_FRAMES, _ => Frame(0, false))
  {
  }

  lemma Frame0Facts(s: State, dirty: bool)
    requires InFrame0(s, dirty)
    ensures Holds(s.ram.frames, 0, RAM_BASE) && Resident(s.mmu, 32) && !Resident(s.mmu, 1)
    ensures |s.ram.order| == RAM_FRAMES && s.ram.order[RAM_FRAMES - 1] == 0 && Permutation(s.ram.order, RAM_FRAMES)
  {
    FirstLocations(s.mmu);
  }

  lemma DirtiedFrame0(s: State, s': State)
    requires InFrame0(s, false) && Sized(s') && Dirtied(s, s', 0, RAM_BASE)
    requires s'.mmu.loc == s.mmu.loc && s'.mmu.ptr == s.mmu.ptr
    ensures InFrame0(s', true)
  {
    hide FullEntry, EntryOf, MmuTable.Valid, Permutation, Touch;
    Frame0Facts(s, false);
    TouchTail(s.ram.order, RAM_FRAMES);
  }

  /** The page written to: a fault, its service, and the write itself. */
  lemma Written0(c: Codec, w: World)
    requires AtRest(c, w) && Lossless(c) && w.flat == map[] && InFrame0(w.s, false)
    ensures CanStep(w, Write(A, 1)) && Harmless(c, w, Write(A, 1))
    ensures var w1 := Step(c, w, Write(A, 1));
            && CanStep(w1, Serve(None)) && Harmless(c, w1, Serve(None))
            && var w2 := Step(c, w1, Serve(None));
               && CanStep(w2, Write(A, 1)) && Harmless(c, w2, Write(A, 1))
               && var w3 := Step(c, w2, Write(A, 1));
                  AtRest(c, w3) && w3.flat == map[A := 1] && InFrame0(w3.s, true)
  {
    hide Harmless, Begin, Reach, Step, CanStep, AtRest, Touch, FullEntry, EntryOf, Permutation, OneToOne, Listed;
    hide MmuTable.Valid, Resident, InFrame0, Dirtied, Inv;
    Addresses();
    RestSized(c, w);
    InvSized(c, w.s, w.flat);
    Frame0Facts(w.s, false);
    Frame0Entry(w.s, false);
    FirstWrite(c, w.s, RAM_BASE, 0);
    FaultServed(c, w, Write(A, 1), Store, WriteReadOnly);
    var w2 := Step(c, Step(c, w, Write(A, 1)), Serve(None));
    DirtiedFrame0(w.s, w2.s);
    Stored0(c, w2);
  }

  lemma Frame0Entry(s: State, dirty: bool)
    requires InFrame0(s, dirty)
    ensures FullEntry(s.mmu, RAM_BASE) == EntryOf(ROM_FRAMES + 0, dirty)
  {
  }

  /** A write that completes. */
  lemma Stores(c: Codec, w: World, a: nat, b: byte)
    requires AtRest(c, w) && Lossless(c) && Virtual(a) && Sized(w.s) && Reach(w.s, a / PAGE_SIZE, Store).Done?
    ensures CanStep(w, Write(a, b)) && Harmless(c, w, Write(a, b))
    ensures var w' := Step(c, w, Write(a, b)); AtRest(c, w') && w'.flat == w.flat[a := b] && w'.s == StoreByte(w.s, a, b)
  {
    hide Reach, Inv, StrictWorld, Lossless, Harmless, WritesVictim, StoreByte;
    RestSized(c, w);
    NotWaiting(w, Write(a, b));
    CalmKeeps(c, w, Write(a, b));
  }

  lemma Stored0(c: Codec, w: World)
    requires AtRest(c, w) && Lossless(c) && w.flat == map[] && InFrame0(w.s, true)
    ensures CanStep(w, Write(A, 1)) && Harmless(c, w, Write(A, 1))
    ensures var w' := Step(c, w, Write(A, 1));
            AtRest(c, w') && w'.flat == map[A := 1] && InFrame0(w'.s, true)
  {
    hide AtRest, Step, CanStep, Harmless, FullEntry, EntryOf, Permutation, MmuTable.Valid, Resident, Walk, Lossless;
    Addresses();
    Frame0Facts(w.s, true);
    EntryFields(ROM_FRAMES + 0, true);
    EntryNotNull(ROM_FRAMES + 0, true);
    ReachOf(w.s, RAM_BASE, Store);
    hide Reach;
    Stores(c, w, A, 1);
  }

  /** A page of another segment read, so that the first RAM segment is not resident any more. */
  lemma Evicted0(c: Codec, w: World)
    requires AtRest(c, w) && Lossless(c) && InFrame0(w.s, true)
    ensures CanStep(w, Read(R, Load)) && Harmless(c, w, Read(R, Load))
    ensures var w1 := Step(c, w, Read(R, Load));
            && CanStep(w1, Serve(None)) && Harmless(c, w1, Serve(None))
            && var w2 := Step(c, w1, Serve(None));
               && AtRest(c, w2) && w2.flat == w.flat
               && Sized(w2.s) && Evadable(w2.s, RAM_BASE, None) && StoredByte(c, w2.s, A) == 0
  {
    hide Harmless, Begin, Reach, Step, CanStep, AtRest, Touch, FullEntry, EntryOf, Permutation, StoredByte;
    hide MmuTable.Valid, Resident, InFrame0, Evadable, OneToOne, Listed, Inv;
    Addresses();
    RestSized(c, w);
    InvSized(c, w.s, w.flat);
    Frame0Facts(w.s, true);
    ReachOf(w.s, ROM_BASE, Load);
    FaultServed(c, w, Read(R, Load), Load, UnmapDab);
    BeginOf(c, w.s, ROM_BASE, UnmapDab, None);
    SegmentGone(c, w.s);
  }

  lemma SegmentGone(c: Codec, s: State)
    requires InFrame0(s, true)
    ensures Seg(ROM_BASE) != FREE_SEG
    ensures var s' := Reloaded(s, ROM_BASE); Evadable(s', RAM_BASE, None) && StoredByte(c, s', A) == 0
  {
    hide FullEntry, EntryOf, Permutation, MmuTable.Valid;
    Addresses();
    Frame0Facts(s, true);
    EntryNotNull(ROM_FRAMES, true);
    ReloadedState(s, ROM_BASE);
    MovedAway(s.mmu);
  }

  lemma MovedAway(m: MmuState)
    requires MmuTable.Valid(m) && m.loc == FIRST_LOC && m.ptr == 7
    ensures !Resident(BringIn(m, 1), 32)
  {
    FirstLocations(m);
    assert SEGS[0] == 1;
    FindSegOfRegistered(m, 1);
    hide FindSeg, TableOf;
  }

  /** The first five events write a byte, the next two make its segment give way to another; then two reads
      fault, both are served, and the byte is read once more. */
  ghost function LosingEvents(): seq<Event> {
    [Write(A, 1), Serve(None), Write(A, 1), Serve(None), Write(A, 1), Read(R, Load), Serve(None)]
    + [Read(A, Load), Read(A, Load), Serve(None), Serve(None), Read(A, Load)]
  }

  /** In this run from start-up a byte that was written is lost: two faults of the queue were for the same
      segment, and the second service gave the page a second frame. */
  lemma TwoFaultsLoseByte(c: Codec)
    requires Lossless(c)
    ensures var es := LosingEvents();
            var ws := Play(c, Boot(), es);
            && PagerRuns.Run(c, ws, es) && |es| == 12
            && HarmlessTo(c, ws, es, 10) && !Harmless(c, ws[10], es[10])
            && ws[12].flat == map[A := 1] && ws[12].seen == Some(0)
  {
    hide Step, CanStep, Harmless, AtRest, InFrame0, Evadable, StoredByte, Sized;
    var w0 := Boot();
    Booted();
    Touched0(c, Write(A, 1), Store);
    var w1 := Step(c, w0, Write(A, 1));
    var w2 := Step(c, w1, Serve(None));
    Written0(c, w2);
    var w3 := Step(c, w2, Write(A, 1));
    var w4 := Step(c, w3, Serve(None));
    var w5 := Step(c, w4, Write(A, 1));
    Evicted0(c, w5);
    var w6 := Step(c, w5, Read(R, Load));
    var w7 := Step(c, w6, Serve(None));
    assert Quiet(c, [w0, w1, w2, w3, w4, w5, w6, w7], LosingEvents()[..7]);
    LastFive(c, [w0, w1, w2, w3, w4, w5, w6, w7]);
  }

  lemma LastFive(c: Codec, ws: seq<World>)
    requires Lossless(c) && Quiet(c, ws, LosingEvents()[..7]) && Started(ws[0]) && ws[0] == Boot()
    requires AtRest(c, ws[7]) && ws[7].flat == map[A := 1]
    requires Sized(ws[7].s) && Evadable(ws[7].s, RAM_BASE, None) && StoredByte(c, ws[7].s, A) == 0
    ensures var es := LosingEvents();
            var us := Play(c, Boot(), es);
            && PagerRuns.Run(c, us, es) && |es| == 12
            && HarmlessTo(c, us, es, 10) && !Harmless(c, us[10], es[10])
            && us[12].flat == map[A := 1] && us[12].seen == Some(0)
  {
    hide Step, CanStep, Evadable, StoredByte, Sized, Started, Harmless, WorldInv, StrictWorld, Play;
    Addresses();
    TwoReads(c, ws[7], A, None);
    var fs := [Read(A, Load), Read(A, Load), Serve(None), Serve(None), Read(A, Load)];
    var es := LosingEvents();
    assert es == es[..7] + fs;
    var vs := Play(c, ws[7], fs);
    QuietThen(c, ws, es[..7], vs, fs, 3);
    var us := ws + vs[1..];
    PlayedIsPlay(c, us, es);
    assert us[12] == vs[5];
    WrongMeansHarm(c, us, es);
  }

  /** A wrong byte read right after the first event that may have done harm shows that it did. */
  lemma WrongMeansHarm(c: Codec, us: seq<World>, es: seq<Event>)
    requires PagerRuns.Run(c, us, es) && Lossless(c) && |es| == 12 && HarmlessTo(c, us, es, 10)
    requires es[11] == Read(A, Load) && us[12].seen == Some(0) && us[12].flat == map[A := 1]
    ensures !Harmless(c, us[10], es[10])
  {
    hide Step, CanStep, Started, Harmless, WorldInv;
    if Harmless(c, us[10], es[10]) {
      assert CanStep(us[11], es[11]) && us[11 + 1] == Step(c, us[11], es[11]);
      OnlyWritesChange(c, us[11], es[11]);
      assert HarmlessTo(c, us, es, 11);
      ReadsLastWritten(c, us, es, 11);
    }
  }

  // ----- the list linked to itself

  /** The first two RAM pages are in frames 0 and 1, the latter at the end of the list. */
  ghost predicate InFrames01(s: State) {
    && Sized(s) && s.link == Fresh && FullEntry(s.mmu, RAM_BASE) == EntryOf(ROM_FRAMES + 0, false)
    && s.ram.order[0] != 0 && s.ram.order[RAM_FRAMES - 1] == 1
    && Holds(s.ram.frames, 0, RAM_BASE) && Resident(s.mmu, 32)
  }

  lemma Frame1Next(c: Codec, s: State)
    requires InFrame0(s, false) && FullEntry(s.mmu, RAM_BASE + 1) == 0
    ensures Untouched(s, RAM_BASE + 1) && Resident(s.mmu, 32)
    ensures RamMiss(c, s, RAM_BASE + 1, None).phase == Idle && InFrames01(RamMiss(c, s, RAM_BASE + 1, None).s)
  {
    hide RamMiss, FullEntry, EntryOf, MmuTable.Valid, Touch;
    Addresses();
    Frame0Facts(s, false);
    FirstTouch(c, s, RAM_BASE + 1);
    TouchFirst(s.ram.order);
    FirstLocations(RamMiss(c, s, RAM_BASE + 1, None).s.mmu);
  }

  /** The second page touched after the first. */
  lemma Touched1(c: Codec, w: World)
    requires AtRest(c, w) && Lossless(c) && InFrame0(w.s, false)
    requires FullEntry(w.s.mmu, RAM_BASE + 1) == 0
    ensures var e := Read(A + PAGE_SIZE, Load);
            && CanStep(w, e) && Harmless(c, w, e)
            && var w1 := Step(c, w, e);
               && CanStep(w1, Serve(None)) && Harmless(c, w1, Serve(None))
               && var w2 := Step(c, w1, Serve(None));
                  AtRest(c, w2) && InFrames01(w2.s)
  {
    hide Harmless, Begin, RamMiss, Reach, Step, CanStep, AtRest, FullEntry, EntryOf, Permutation;
    hide MmuTable.Valid, Resident, Untouched, InFrame0, InFrames01, Inv, OneToOne, Listed;
    Addresses();
    RestSized(c, w);
    InvSized(c, w.s, w.flat);
    Frame1Next(c, w.s);
    Touched(c, w, Read(A + PAGE_SIZE, Load), Load, RAM_BASE + 1);
    FaultServed(c, w, Read(A + PAGE_SIZE, Load), Load, UnmapDab);
  }

  /** What the first of the two services leaves: a dirty tail with a stale link, and the second service
      still to come. */
  lemma MovedFromMiddle(s: State, s': State)
    requires InFrames01(s) && Sized(s') && Dirtied(s, s', 0, RAM_BASE)
    ensures Relinks(s', RAM_BASE)
  {
    hide FullEntry, EntryOf, MmuTable.Valid, Touch, Resident;
    TouchPermutes(s.ram.order, RAM_FRAMES, 0);
  }

  /** Two writes to one page of the middle of the list, both of which fault before either is served. */
  lemma TwoWrites(c: Codec, w: World)
    requires AtRest(c, w) && Lossless(c) && InFrames01(w.s)
    ensures var e, f := Write(A, 1), Serve(None);
            && CanStep(w, e) && Harmless(c, w, e)
            && var w1 := Step(c, w, e);
               && CanStep(w1, e) && Harmless(c, w1, e)
               && var w2 := Step(c, w1, e);
                  && CanStep(w2, f) && Harmless(c, w2, f)
                  && var w3 := Step(c, w2, f);
                     CanStep(w3, f) && !Harmless(c, w3, f) && Step(c, w3, f).s.link == Looped
  {
    hide Begin, Reach, Inv, FullEntry, EntryOf, MmuTable.Valid, Resident, Dirtied, OneToOne, Listed, Strict, ServeHarms;
    Addresses();
    RestSized(c, w);
    InvSized(c, w.s, w.flat);
    FirstWrite(c, w.s, RAM_BASE, 0);
    AccessHarmless(c, w, Write(A, 1));
    Faults(c, w, Write(A, 1), Store, WriteReadOnly);
    var w1 := Step(c, w, Write(A, 1));
    AccessHarmless(c, w1, Write(A, 1));
    Faults(c, w1, Write(A, 1), Store, WriteReadOnly);
    var w2 := Step(c, w1, Write(A, 1));
    var o := Outstanding(RAM_BASE, WriteReadOnly);
    assert w2.faults == [o, o];
    GenuineWrite(w.s);
    StrictBegin(c, w.s, w.flat, o, None);
    Serves(c, w2, None);
    var w3 := Step(c, w2, Serve(None));
    SecondWrite(c, w3, w.s);
  }

  lemma GenuineWrite(s: State)
    requires Sized(s) && Reach(s, RAM_BASE, Store) == Fault(WriteReadOnly)
    ensures UpToDate(s, Outstanding(RAM_BASE, WriteReadOnly)) && Posted(Outstanding(RAM_BASE, WriteReadOnly))
  {
    hide Reach;
  }

  /** The second of the two services. */
  lemma SecondWrite(c: Codec, w: World, s0: State)
    requires Sized(w.s) && w.phase == Idle && w.faults == [Outstanding(RAM_BASE, WriteReadOnly)]
    requires InFrames01(s0) && Dirtied(s0, w.s, 0, RAM_BASE) && w.s.mmu.loc == s0.mmu.loc
    ensures CanStep(w, Serve(None)) && !Harmless(c, w, Serve(None)) && Step(c, w, Serve(None)).s.link == Looped
  {
    hide Begin, FullEntry, EntryOf, Permutation, MmuTable.Valid, Relinks, WriteFault, Found, Touch;
    Addresses();
    MovedFromMiddle(s0, w.s);
    StaleLink(w.s);
    LocLength(w.s);
    assert Resident(w.s.mmu, 32);
    BeginOf(c, w.s, RAM_BASE, WriteReadOnly, None);
    RepairIsWrite(c, w.s, RAM_BASE);
    RelinkedLoops(w.s, RAM_BASE);
    Serves(c, w, None);
  }

  lemma LocLength(s: State)
    requires Sized(s)
    ensures |s.mmu.loc| == SLOTS
  {
  }

  lemma StaleLink(s: State)
    requires Sized(s) && Relinks(s, RAM_BASE)
    ensures s.link != Looped
  {
  }

  lemma RelinkedLoops(s: State, page: nat)
    requires Sized(s) && InRam(page) && Relinks(s, page)
    ensures s.link != Looped && WriteFault(s, page).s.link == Looped
  {
    hide FullEntry, EntryOf, WriteFault, Found, Touch;
    FoundAtTail(s, page);
    WriteFaultDirties(s, page);
    RelinksIff(s, page);
  }

  /** Two pages are read in, and then two writes to the first of them fault and are served. */
  ghost function LoopingEvents(): seq<Event> {
    [Read(A, Load), Serve(None), Read(A + PAGE_SIZE, Load), Serve(None), Write(A, 1), Write(A, 1), Serve(None), Serve(None)]
  }

  /** In this run from start-up the list of RAM frames ends up linked to itself. */
  lemma TwoFaultsLoopList(c: Codec)
    requires Lossless(c)
    ensures var es := LoopingEvents();
            var ws := Play(c, Boot(), es);
            && PagerRuns.Run(c, ws, es) && |es| == 8
            && HarmlessTo(c, ws, es, 7) && !Harmless(c, ws[7], es[7]) && ws[8].s.link == Looped
  {
    hide Step, CanStep, Harmless, AtRest, InFrame0, InFrames01, Sized, FullEntry, Started;
    var w0 := Boot();
    Booted();
    Touched0(c, Read(A, Load), Load);
    var w1 := Step(c, w0, Read(A, Load));
    var w2 := Step(c, w1, Serve(None));
    Touched1(c, w2);
    var w3 := Step(c, w2, Read(A + PAGE_SIZE, Load));
    var w4 := Step(c, w3, Serve(None));
    TwoWrites(c, w4);
    var w5 := Step(c, w4, Write(A, 1));
    var w6 := Step(c, w5, Write(A, 1));
    var w7 := Step(c, w6, Serve(None));
    PlayedIsPlay(c, [w0, w1, w2, w3, w4, w5, w6, w7, Step(c, w7, Serve(None))], LoopingEvents());
  }

  // ----- the swap area switched off

  const SWAPPED := RAM_BASE + ZRAM_PAGES

  function OnesSector(): Sector {
    seq(2 * PAGE_SIZE, _ => 1)
  }

  /** A page of ones in the swap area, in no frame. */
  ghost function SwappedOut(): State {
    Boot().s.(swap := true, ftl := Boot().s.ftl[ZRAM_PAGES / 2 := OnesSector()])
  }

  lemma SwappedOutKept(c: Codec)
    ensures Inv(c, SwappedOut(), map[SWAPPED * PAGE_SIZE := 1])
  {
    Booted();
    BootClean();
    hide FirstMmu, FullEntry, EntryOf, Permutation, MmuTable.Valid;
    var s, flat := SwappedOut(), map[SWAPPED * PAGE_SIZE := 1];
    forall q | Written(flat, q)
      ensures InRam(q) && PageKept(c, s, flat, q)
    {
      assert q == SWAPPED;
    }
  }

  /** Before the swap area is switched off the byte is 1; after it, the page comes back with what its frame
      held, and the byte is 0. */
  lemma SwapOffLosesByte(c: Codec)
    requires Lossless(c)
    ensures var s, flat := SwappedOut(), map[SWAPPED * PAGE_SIZE := 1];
            && Inv(c, s, flat) && !Inv(c, s.(swap := false), flat)
            && var r := RamMiss(c, s.(swap := false), SWAPPED, None);
               var g := FrameOf(FullEntry(r.s.mmu, SWAPPED));
               r.verdict == Some(Resume) && g < |r.s.mem| && r.s.mem[g][0] == 0
  {
    SwappedOutKept(c);
    SwappedFacts(c);
    hide FirstMmu, FullEntry, RamMiss, Inv, MmuTable.Valid;
    var s, flat := SwappedOut(), map[SWAPPED * PAGE_SIZE := 1];
    assert SWAPPED * PAGE_SIZE in flat && Written(flat, SWAPPED);
    DisableSwapKeepsIff(c, s, flat);
    MissedAtOnce(c, s.(swap := false), SWAPPED, None);
    EntryFields(ROM_FRAMES + 0, false);
  }

  lemma SwappedFacts(c: Codec)
    ensures var s := SwappedOut().(swap := false);
            && Sized(s) && InRam(SWAPPED) && s.link != Looped && Victim(s) == 0 && VictimPage(s) == 0
            && !Independent(SwappedOut(), SWAPPED) && s.mem[ROM_FRAMES] == ZeroPage() && Backing(c, s, SWAPPED) == None
            && AtOnce(s, SWAPPED) && !SaveRefused(s, 0, None) && !SaveWaits(s, 0)
  {
    hide FirstMmu, FullEntry, EntryOf, MmuTable.Valid, Permutation;
    Booted();
    BootClean();
    NullUnwritable();
  }
}
