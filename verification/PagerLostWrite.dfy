/** A run from start-up in which a write is lost with one fault at a time: it completes on a page that is on its
    way to flash. */
module PagerLostWrite {
  import opened Basics
  import opened MmuTable
  import opened LruList
  import opened Pager
  import opened PagerTheory
  import opened PagerSteps
  import opened PagerAccess
  import opened PagerRuns
  import opened PagerService
  import opened PagerCorrespondence
  import opened PagerCalm
  import opened PagerExamples

  /** The first page above the compressed store, its first address, the page whose fault evicts it, and an
      address of each page of the area. */
  const S := RAM_BASE + ZRAM_PAGES
  const SA := S * PAGE_SIZE
  const L := RAM_BASE + RAM_FRAMES

  function AddressOf(k: nat): nat {
    (RAM_BASE + k) * PAGE_SIZE
  }

  lemma Places(k: nat)
    requires k <= RAM_FRAMES
    ensures SA / PAGE_SIZE == S && SA % PAGE_SIZE == 0 && InRam(S) && Virtual(SA) && Seg(S) == 32 && S - RAM_BASE == ZRAM_PAGES
    ensures AddressOf(k) / PAGE_SIZE == RAM_BASE + k && InRam(RAM_BASE + k) && Virtual(AddressOf(k)) && Seg(RAM_BASE + k) == 32
    ensures k < ZRAM_PAGES && RAM_BASE + k != S
  {
  }

  /** The frames in the order of their numbers, from the m-th on. */
  function Rolled(m: nat): seq<nat>
    requires m <= RAM_FRAMES
  {
    Ascending(RAM_FRAMES)[m..] + Ascending(RAM_FRAMES)[..m]
  }

  lemma RolledOn(m: nat)
    requires m < RAM_FRAMES
    ensures |Rolled(m)| == RAM_FRAMES && Rolled(m)[0] == m && m in Rolled(m) && Touch(Rolled(m), m) == Rolled(m + 1)
  {
    TouchFirst(Rolled(m));
  }

  lemma RolledAll()
    ensures Rolled(RAM_FRAMES) == Rolled(0) == Ascending(RAM_FRAMES)
  {
  }

  /** One fault at most, all the time. */
  ghost predicate Single(ws: seq<World>) {
    forall i :: 0 <= i < |ws| ==> AtMostOne(ws[i])
  }

  lemma RestSingle(c: Codec, w: World)
    requires AtRest(c, w)
    ensures AtMostOne(w)
  {
  }

  lemma RestAlone(c: Codec, w: World)
    requires AtRest(c, w)
    ensures Single([w])
  {
  }

  // ----- the page written to

  /** The page is in frame 0, and nothing else is in any frame. */
  ghost predicate Alone(s: State, dirty: bool) {
    && Sized(s) && s.link == Fresh && s.swap && s.zram == map[] && s.ram.order == Rolled(1)
    && s.ram.frames == seq(RAM_FRAMES, _ => Frame(0, false))[0 := Frame(S, dirty)]
    && (forall q :: FullEntry(s.mmu, q) == if q == S then EntryOf(ROM_FRAMES + 0, dirty) else 0)
    && s.mmu.loc == FIRST_LOC
  }

  lemma AloneFacts(s: State, dirty: bool)
    requires Alone(s, dirty)
    ensures Sized(s) && s.link == Fresh && Holds(s.ram.frames, 0, S) && Resident(s.mmu, 32)
    ensures FullEntry(s.mmu, S) == EntryOf(ROM_FRAMES + 0, dirty)
  {
    FirstLocations(s.mmu);
  }

  /** The start-up state with the swap area switched on. */
  ghost function SwapOn(): State {
    Boot().s.(swap := true)
  }

  lemma SwapOnShape()
    ensures var s := SwapOn();
            && Sized(s) && s.link == Fresh && s.swap && s.zram == map[] && s.ram.order == Rolled(0) && Victim(s) == 0
            && s.ram.frames == seq(RAM_FRAMES, _ => Frame(0, false)) && s.mmu.loc == FIRST_LOC && Resident(s.mmu, 32)
            && forall q :: FullEntry(s.mmu, q) == 0
  {
    Booted();
    BootShape();
    BootClean();
    RolledAll();
    hide FirstMmu, MmuTable.Valid, FullEntry, Permutation;
  }

  /** A miss that takes a frame not in use, for a page that has to be waited for. */
  lemma WaitedFor(c: Codec, s: State, page: nat)
    requires Sized(s) && InRam(page) && s.link != Looped && !AtOnce(s, page) && !s.ram.frames[Victim(s)].dirty
    ensures var f, r := Victim(s), RamMiss(c, s, page, None);
            && r == Progress(Taken(Rotated(s), f, page), RamLoad(f, page), None)
  {
    hide Taken, Touch, FullEntry, Permutation, MmuTable.Valid;
    RotatedSame(s);
    TakenIs(Rotated(s), Victim(s), page);
  }

  lemma SwapLoaded(c: Codec)
    ensures var s := SwapOn();
            && Sized(s) && InRam(S) && s.link != Looped
            && var r := RamMiss(c, s, S, None);
               && r.phase == RamLoad(0, S) && CanGoOn(r.s, r.phase)
               && var r' := GoOn(c, r.s, r.phase, Good);
                  r'.phase == Idle && Alone(r'.s, false)
  {
    hide Taken, Touch, FullEntry, Permutation, MmuTable.Valid, SwapOn, Loaded, LoadedHalf, GoOn, EntryOf, Rolled, RamMiss;
    SwapOnShape();
    Places(0);
    RolledOn(0);
    var s := SwapOn();
    WaitedFor(c, s, S);
    TakenIs(Rotated(s), 0, S);
    var s2 := Taken(Rotated(s), 0, S);
    LoadIs(c, s2, 0, S, Good);
    LoadedIs(s2, 0, S, LoadedHalf(s2, S, Good));
    TakenStays(Rotated(s), 0, S);
    LoadedStaysPut(s2, 0, S, LoadedHalf(s2, S, Good));
  }

  lemma TakenStays(s: State, f: nat, page: nat)
    requires Sized(s) && f < RAM_FRAMES && InRam(page) && s.ram.frames[f].page == 0
    ensures Taken(s, f, page).mmu == s.mmu
  {
  }

  lemma LoadedStaysPut(s: State, f: nat, page: nat, p: Page)
    requires Sized(s) && f < RAM_FRAMES && InRam(page) && Resident(s.mmu, Seg(page))
    ensures Loaded(s, f, page, p).mmu.loc == s.mmu.loc
  {
    hide PutEntry, EntryOf, Registered;
    AreasRegistered(page);
    StaysPut(s.mmu, page, EntryOf(ROM_FRAMES + f, false));
  }

  /** The swap area switched on, and the page touched and loaded. */
  lemma FirstFour(c: Codec) returns (ws: seq<World>)
    requires Lossless(c)
    ensures Quiet(c, ws, [SetSwap(true), Write(SA, 1), Serve(None), Answer(Good)])
    ensures Single(ws) && ws[0] == Boot() && AtRest(c, ws[4]) && ws[4].flat == map[] && Alone(ws[4].s, false)
  {
    hide Harmless, Step, CanStep, AtRest, SwapOn, Alone, Boot, AtMostOne;
    BootAtRest(c);
    RestSingle(c, Boot());
    SwitchedOn(c);
    var w1 := Step(c, Boot(), SetSwap(true));
    TouchedWaits(c, w1);
    var w2 := Step(c, w1, Write(SA, 1));
    var w3 := Step(c, w2, Serve(None));
    var w4 := Step(c, w3, Answer(Good));
    RestSingle(c, w1);
    RestSingle(c, w4);
    ws := [Boot(), w1, w2, w3, w4];
  }

  lemma TouchedWaits(c: Codec, w: World)
    requires AtRest(c, w) && Lossless(c) && w.s == SwapOn() && w.flat == map[]
    ensures CanStep(w, Write(SA, 1)) && Harmless(c, w, Write(SA, 1))
    ensures var w1 := Step(c, w, Write(SA, 1));
            && CanStep(w1, Serve(None)) && Harmless(c, w1, Serve(None)) && AtMostOne(w1)
            && var w2 := Step(c, w1, Serve(None));
               && AtMostOne(w2) && CanStep(w2, Answer(Good)) && Harmless(c, w2, Answer(Good))
               && var w3 := Step(c, w2, Answer(Good));
                  AtRest(c, w3) && w3.flat == map[] && Alone(w3.s, false)
  {
    hide Harmless, Begin, RamMiss, Reach, Step, CanStep, AtRest, FullEntry, EntryOf, SwapOn, Alone, GoOn, Handled;
    hide Sized, Resident, CanGoOn, StrictWorld, WorldInv, Repair;
    SwapOnShape();
    Places(0);
    ReachOf(w.s, S, Store);
    FaultServed(c, w, Write(SA, 1), Store, UnmapDab);
    BeginOf(c, w.s, S, UnmapDab, None);
    RepairIsMiss(c, w.s, S, None);
    SwapLoaded(c);
    Answered(c, Step(c, Step(c, w, Write(SA, 1)), Serve(None)));
  }

  lemma SwitchedOn(c: Codec)
    requires Lossless(c)
    ensures CanStep(Boot(), SetSwap(true)) && Harmless(c, Boot(), SetSwap(true))
    ensures var w1 := Step(c, Boot(), SetSwap(true)); AtRest(c, w1) && w1.s == SwapOn() && w1.flat == map[]
  {
    hide WorldInv, StrictWorld, Boot, Harmless, WritesVictim, Sized;
    Booted();
    BootAtRest(c);
    BootClean();
    StartedSized(Boot());
    NotWaiting(Boot(), SetSwap(true));
    CalmKeeps(c, Boot(), SetSwap(true));
  }

  lemma StartedSized(w: World)
    requires Started(w)
    ensures Sized(w.s)
  {
  }

  /** The end of a flash operation that succeeds, with no fault in the queue. */
  lemma Answered(c: Codec, w: World)
    requires WorldInv(c, w) && StrictWorld(w) && w.phase != Idle && w.faults == [] && Lossless(c)
    ensures CanStep(w, Answer(Good)) && Harmless(c, w, Answer(Good))
    ensures CanGoOn(w.s, w.phase)
    ensures var w', r := Step(c, w, Answer(Good)), GoOn(c, w.s, w.phase, Good);
            && WorldInv(c, w') && StrictWorld(w') && w'.faults == [] && w'.flat == w.flat && w'.s == r.s && w'.phase == r.phase
            && (r.phase == Idle ==> AtRest(c, w'))
  {
    hide WorldInv, StrictWorld, Harmless, WritesVictim, GoOn, Sized, PhaseOk;
    InvShape(c, w);
    GoOnWaits(c, w.s, w.phase, Good);
    NoWrite(w, Answer(Good));
    CalmKeeps(c, w, Answer(Good));
  }

  lemma NoWrite(w: World, e: Event)
    requires !e.Write?
    ensures !WritesVictim(w, e)
  {
  }

  lemma DirtiedAlone(s: State, s': State)
    requires Alone(s, false) && Sized(s') && Dirtied(s, s', 0, S) && s'.mmu.loc == s.mmu.loc
    ensures Alone(s', true)
  {
    hide FullEntry, EntryOf, MmuTable.Valid, Permutation, Touch;
    Places(0);
    SizedOrder(s);
    TouchTail(s.ram.order, RAM_FRAMES);
  }

  /** The page written to: a fault, its service, and the write itself. */
  lemma NextThree(c: Codec, w: World) returns (ws: seq<World>)
    requires AtRest(c, w) && Lossless(c) && w.flat == map[] && Alone(w.s, false)
    ensures Quiet(c, ws, [Write(SA, 1), Serve(None), Write(SA, 1)])
    ensures Single(ws) && ws[0] == w && AtRest(c, ws[3]) && ws[3].flat == map[SA := 1] && Alone(ws[3].s, true)
  {
    hide Harmless, Begin, Reach, Step, CanStep, AtRest, FullEntry, EntryOf, Alone, Inv, OneToOne, Listed, Dirtied;
    hide Resident, Sized;
    Places(0);
    RestSized(c, w);
    InvSized(c, w.s, w.flat);
    AloneFacts(w.s, false);
    FirstWrite(c, w.s, S, 0);
    FaultServed(c, w, Write(SA, 1), Store, WriteReadOnly);
    var w1 := Step(c, w, Write(SA, 1));
    var w2 := Step(c, w1, Serve(None));
    DirtiedAlone(w.s, w2.s);
    StoredAlone(c, w2);
    var w3 := Step(c, w2, Write(SA, 1));
    RestSingle(c, w);
    RestSingle(c, w3);
    ws := [w, w1, w2, w3];
  }

  lemma StoredAlone(c: Codec, w: World)
    requires AtRest(c, w) && Lossless(c) && w.flat == map[] && Alone(w.s, true)
    ensures CanStep(w, Write(SA, 1)) && Harmless(c, w, Write(SA, 1))
    ensures var w' := Step(c, w, Write(SA, 1)); AtRest(c, w') && w'.flat == map[SA := 1] && Alone(w'.s, true)
  {
    hide Harmless, Step, CanStep, AtRest, FullEntry, EntryOf, Permutation, MmuTable.Valid, Resident, Lossless, Walk;
    Places(0);
    AloneFacts(w.s, true);
    EntryFields(ROM_FRAMES + 0, true);
    EntryNotNull(ROM_FRAMES + 0, true);
    ReachOf(w.s, S, Store);
    hide Reach;
    Stores(c, w, SA, 1);
    StoredShape(w.s, SA, 1);
  }

  // ----- the other frames filled

  /** The page is dirty in frame 0, and frames 1 to k have been taken after it. */
  ghost predicate Filled(s: State, k: nat)
    requires k < RAM_FRAMES
  {
    && Sized(s) && s.link == Fresh && s.swap && s.zram == map[] && s.ram.order == Rolled(k + 1)
    && s.ram.frames[0] == Frame(S, true)
    && (forall j :: 1 <= j <= k ==> !s.ram.frames[j].dirty && s.ram.frames[j].page != S)
    && (forall j :: k < j < RAM_FRAMES ==> s.ram.frames[j] == Frame(0, false))
    && FullEntry(s.mmu, S) == EntryOf(ROM_FRAMES + 0, true)
    && (forall q :: RAM_BASE + k < q <= RAM_BASE + RAM_FRAMES ==> FullEntry(s.mmu, q) == 0)
    && Resident(s.mmu, 32)
  }

  lemma AloneFilled(s: State)
    requires Alone(s, true)
    ensures Filled(s, 0)
  {
    hide FullEntry, EntryOf, Permutation, MmuTable.Valid;
    AloneFacts(s, true);
  }

  lemma NextUntouched(s: State, k: nat)
    requires k + 1 < RAM_FRAMES && Filled(s, k)
    ensures Victim(s) == k + 1 && Untouched(s, RAM_BASE + k + 1) && FullEntry(s.mmu, RAM_BASE + k + 1) == 0 && Resident(s.mmu, 32)
  {
    hide FullEntry, Permutation, MmuTable.Valid, Touch, Rolled;
    RolledOn(k + 1);
    Places(k + 1);
  }

  lemma NextFilled(c: Codec, s: State, k: nat)
    requires k + 1 < RAM_FRAMES && Filled(s, k)
    ensures InRam(RAM_BASE + k + 1) && s.link != Looped
    ensures var r := RamMiss(c, s, RAM_BASE + k + 1, None); r.phase == Idle && Filled(r.s, k + 1)
  {
    hide FullEntry, EntryOf, Permutation, MmuTable.Valid, Touch, Rolled, RamMiss;
    NextUntouched(s, k);
    RolledOn(k + 1);
    Places(k + 1);
    FirstTouch(c, s, RAM_BASE + k + 1);
  }

  /** One more page touched. */
  lemma TouchNext(c: Codec, w: World, k: nat)
    requires k + 1 < RAM_FRAMES && AtRest(c, w) && Lossless(c) && Filled(w.s, k)
    ensures var e := Read(AddressOf(k + 1), Load);
            && CanStep(w, e) && Harmless(c, w, e)
            && var w1 := Step(c, w, e);
               && CanStep(w1, Serve(None)) && Harmless(c, w1, Serve(None)) && AtMostOne(w1)
               && var w2 := Step(c, w1, Serve(None));
                  AtRest(c, w2) && w2.flat == w.flat && Filled(w2.s, k + 1)
  {
    hide Harmless, Begin, RamMiss, Reach, Step, CanStep, AtRest, FullEntry, Untouched, Filled, Inv, Resident, OneToOne, Listed;
    Places(k + 1);
    RestSized(c, w);
    InvSized(c, w.s, w.flat);
    NextUntouched(w.s, k);
    NextFilled(c, w.s, k);
    Touched(c, w, Read(AddressOf(k + 1), Load), Load, RAM_BASE + k + 1);
    FaultServed(c, w, Read(AddressOf(k + 1), Load), Load, UnmapDab);
  }

  function FillWith(k: nat): seq<Event> {
    [Read(AddressOf(k), Load), Serve(None)]
  }

  /** The reads that fill the frames after the k-th. */
  function Fills(k: nat): seq<Event>
    requires k < RAM_FRAMES
    decreases RAM_FRAMES - k
  {
    if k + 1 == RAM_FRAMES then [] else FillWith(k + 1) + Fills(k + 1)
  }

  lemma {:induction false} FillUp(c: Codec, w: World, k: nat) returns (ws: seq<World>)
    requires k < RAM_FRAMES && AtRest(c, w) && Lossless(c) && Filled(w.s, k)
    ensures Quiet(c, ws, Fills(k)) && Single(ws) && ws[0] == w
    ensures var w' := ws[|Fills(k)|]; AtRest(c, w') && w'.flat == w.flat && Filled(w'.s, RAM_FRAMES - 1)
    decreases RAM_FRAMES - k
  {
    hide Harmless, Step, CanStep, AtRest, Filled, Lossless, AtMostOne, Single;
    if k + 1 == RAM_FRAMES {
      RestAlone(c, w);
      ws := [w];
    } else {
      var us := FillOne(c, w, k);
      var vs := FillUp(c, us[2], k + 1);
      SingleThen(c, us, FillWith(k + 1), vs, Fills(k + 1));
      ws := us + vs[1..];
    }
  }

  lemma FillOne(c: Codec, w: World, k: nat) returns (ws: seq<World>)
    requires k + 1 < RAM_FRAMES && AtRest(c, w) && Lossless(c) && Filled(w.s, k)
    ensures Quiet(c, ws, FillWith(k + 1)) && Single(ws) && ws[0] == w
    ensures AtRest(c, ws[2]) && ws[2].flat == w.flat && Filled(ws[2].s, k + 1)
  {
    hide Harmless, Step, CanStep, AtRest, Filled, Lossless, AtMostOne;
    TouchNext(c, w, k);
    var w1 := Step(c, w, Read(AddressOf(k + 1), Load));
    var w2 := Step(c, w1, Serve(None));
    RestSingle(c, w);
    RestSingle(c, w2);
    ws := [w, w1, w2];
  }

  // ----- the write that is lost

  /** The victim's page has gone, with the copy in its sector. */
  ghost predicate Gone(c: Codec, s: State, copy: Page) {
    && Sized(s) && s.link == Fresh && s.swap && FullEntry(s.mmu, S) == 0 && Resident(s.mmu, 32)
    && Backing(c, s, S) == Some(copy) && Victim(s) == 1 && !s.ram.frames[1].dirty && s.ram.frames[1].page != S
  }

  /** What the wait for the sector's being written is about. */
  ghost predicate BeingSaved(s: State, buf: Sector, copy: Page) {
    && Sized(s) && s.link == Fresh && s.swap && s.ram.order == Rolled(1) && s.ram.frames[0] == Frame(S, true)
    && !s.ram.frames[1].dirty && s.ram.frames[1].page != S
    && FullEntry(s.mmu, S) == EntryOf(ROM_FRAMES + 0, true) && FullEntry(s.mmu, L) == 0 && Resident(s.mmu, 32)
    && Carries(s, 0, buf, copy)
  }

  lemma SavedGone(c: Codec, s: State, buf: Sector, copy: Page)
    requires BeingSaved(s, buf, copy)
    ensures CanGoOn(s, SaveWrite(0, L, buf))
    ensures var r := GoOn(c, s, SaveWrite(0, L, buf), Good);
            r.phase == Idle && Gone(c, r.s, copy)
  {
    hide FullEntry, EntryOf, Permutation, MmuTable.Valid, Backing, Taken, Loaded, Shown, WrittenBack, Carries, Resident, Rolled;
    Places(RAM_FRAMES);
    RolledOn(1);
    SizedOrder(s);
    InSwapArea(s);
    var s1 := WrittenBack(s, 0, buf, Good);
    WrittenOrder(s, 0, buf, Good);
    WrittenSame(s, 0, buf, Good);
    WrittenBacking(c, s, 0, buf, Good, S);
    CarriedBacking(c, s, 0, buf, copy);
    TakenIs(s1, 0, L);
    var s2 := Taken(s1, 0, L);
    BackingDependsOn(c, s1, s2, S);
    ShownIs(c, s2, 0, L);
    var p := HadAtOnce(c, s2, 0, L);
    LoadedIs(s2, 0, L, p);
    LoadedReaches(s2, 0, L, p);
    BackingDependsOn(c, s2, Loaded(s2, 0, L, p), S);
  }

  lemma InSwapArea(s: State)
    requires Sized(s) && s.ram.frames[0] == Frame(S, true)
    ensures s.ram.frames[0].page - RAM_BASE >= ZRAM_PAGES && InRam(S) && s.ram.frames[0].dirty
  {
  }

  /** And is read back as it was copied. */
  lemma GoneReadBack(c: Codec, s: State, copy: Page)
    requires Gone(c, s, copy) && Lossless(c)
    ensures Reach(s, S, Load) == Fault(UnmapDab) && InRam(S) && s.link != Looped && Seg(S) != FREE_SEG
    ensures var r := Begin(c, s, S, UnmapDab, None);
            && r.phase == RamLoad(1, S) && Sized(r.s) && CanGoOn(r.s, r.phase)
            && var r' := GoOn(c, r.s, r.phase, Good);
               r'.phase == Idle && Reach(r'.s, S, Load) == Done(ROM_FRAMES + 1) && r'.s.mem[ROM_FRAMES + 1] == copy
  {
    hide FullEntry, EntryOf, Permutation, MmuTable.Valid, Backing, Resident, RamMiss, Reach, Through, GoOn, Begin;
    hide Repair, Handled, CanGoOn, Taken;
    Places(0);
    ReachOf(s, S, Load);
    BeginOf(c, s, S, UnmapDab, None);
    RepairIsMiss(c, s, S, None);
    WaitedFor(c, s, S);
    RamMissWaits(c, s, S, None);
    var xs := [Good, Good, Good];
    MissShows(c, s, S, None, xs);
    var r := RamMiss(c, s, S, None);
    ThroughOne(c, r, xs);
    GoOnWaits(c, r.s, r.phase, Good);
    LoadEnds(c, r.s, 1, S);
    ThroughIdle(c, GoOn(c, r.s, r.phase, Good), xs[1..]);
  }

  lemma LoadEnds(c: Codec, s: State, f: nat, page: nat)
    requires CanGoOn(s, RamLoad(f, page))
    ensures GoOn(c, s, RamLoad(f, page), Good).phase == Idle
  {
    LoadIs(c, s, f, page, Good);
  }

  lemma FilledVictim(s: State)
    requires Filled(s, RAM_FRAMES - 1)
    ensures Sized(s) && Victim(s) == 0 && VictimPage(s) == S && SaveWaits(s, 0) && s.link == Fresh
    ensures FullEntry(s.mmu, L) == 0 && Resident(s.mmu, 32)
  {
  }

  lemma FrameByte(c: Codec, s: State, flat: Flat, b: byte)
    requires Inv(c, s, flat) && s.ram.frames[0] == Frame(S, true) && FullEntry(s.mmu, S) == EntryOf(ROM_FRAMES + 0, true)
    requires SA in flat && flat[SA] == b
    ensures |s.mem| == ROM_FRAMES + RAM_FRAMES && s.mem[ROM_FRAMES + 0][0] == b
  {
    hide FullEntry, EntryOf, Named, Imaged, Kept;
    Places(0);
    FrameShows(c, s, flat, 0);
  }

  lemma RotatedBeing(s: State)
    requires Filled(s, RAM_FRAMES - 1)
    ensures Sized(s) && s.link != Looped && InRam(L)
    ensures var s' := Rotated(s);
            && s'.link == Fresh && s'.swap && s'.ram.order == Rolled(1) && s'.ram.frames[0] == Frame(S, true)
            && !s'.ram.frames[1].dirty && s'.ram.frames[1].page != S
            && FullEntry(s'.mmu, S) == EntryOf(ROM_FRAMES + 0, true) && FullEntry(s'.mmu, L) == 0 && Resident(s'.mmu, 32)
            && s'.ram.frames[0].dirty
  {
    hide FullEntry, EntryOf, Permutation, MmuTable.Valid, Touch, Resident;
    RolledAll();
    RolledOn(0);
    Places(RAM_FRAMES);
    FilledVictim(s);
  }

  lemma WaitsForSector(c: Codec, s: State)
    requires Filled(s, RAM_FRAMES - 1)
    ensures Sized(s) && s.link != Looped && InRam(L)
    ensures RamMiss(c, s, L, None) == Progress(Rotated(s), SaveRead(0, L), None)
  {
    hide FullEntry, EntryOf, Permutation, MmuTable.Valid, Touch, Give, Resident, Filled, Rotated;
    Places(RAM_FRAMES);
    FilledVictim(s);
    RotatedSame(s);
  }

  /** The page is on its way to flash. */
  ghost predicate OnItsWay(c: Codec, w: World, copy: Page) {
    && WorldInv(c, w) && w.phase.SaveWrite? && w.phase == SaveWrite(0, L, w.phase.buf) && w.faults == []
    && BeingSaved(w.s, w.phase.buf, copy)
  }

  lemma EvictedToFlash(c: Codec, w: World)
    requires AtRest(c, w) && Lossless(c) && w.flat == map[SA := 1] && Filled(w.s, RAM_FRAMES - 1)
    ensures var e := Read(AddressOf(RAM_FRAMES), Load);
            && CanStep(w, e) && Harmless(c, w, e)
            && var w1 := Step(c, w, e);
               && CanStep(w1, Serve(None)) && Harmless(c, w1, Serve(None)) && AtMostOne(w1)
               && var w2 := Step(c, w1, Serve(None));
                  && AtMostOne(w2) && CanStep(w2, Answer(Good)) && Harmless(c, w2, Answer(Good))
                  && var w3 := Step(c, w2, Answer(Good));
                     && |w3.s.mem| == ROM_FRAMES + RAM_FRAMES && w3.flat == w.flat
                     && OnItsWay(c, w3, w3.s.mem[ROM_FRAMES + 0]) && w3.s.mem[ROM_FRAMES + 0][0] == 1
  {
    hide Harmless, Begin, RamMiss, Reach, Step, CanStep, AtRest, FullEntry, EntryOf, Filled, Inv, Resident, OneToOne, Listed;
    hide WorldInv, StrictWorld, Rotated, Rolled, CopiedIn, Carries, GoOn, CanGoOn, Handled, Repair, Sized;
    Places(RAM_FRAMES);
    FilledVictim(w.s);
    RotatedBeing(w.s);
    WaitsForSector(c, w.s);
    ReachOf(w.s, L, Load);
    FaultServed(c, w, Read(AddressOf(RAM_FRAMES), Load), Load, UnmapDab);
    BeginOf(c, w.s, L, UnmapDab, None);
    RepairIsMiss(c, w.s, L, None);
    var w2 := Step(c, Step(c, w, Read(AddressOf(RAM_FRAMES), Load)), Serve(None));
    Answered(c, w2);
    CopyMade(c, w2);
    WaitingInv(c, w2);
    FrameByte(c, w2.s, w2.flat, 1);
  }

  lemma WaitingInv(c: Codec, w: World)
    requires WorldInv(c, w) && (w.phase.SaveRead? || w.phase.SaveWrite?)
    ensures Inv(c, w.s, w.flat)
  {
  }

  /** The sector's being written ends, and the page goes as it was copied. */
  lemma LostThen(c: Codec, w: World, copy: Page)
    requires OnItsWay(c, w, copy) && Lossless(c) && copy[0] == 1 && w.flat == map[SA := 2]
    ensures CanStep(w, Answer(Good)) && !Harmless(c, w, Answer(Good))
    ensures var w2 := Step(c, w, Answer(Good));
            w2.phase == Idle && w2.faults == [] && w2.flat == map[SA := 2] && Gone(c, w2.s, copy)
  {
    hide Harmless, Step, CanStep, FullEntry, EntryOf, Inv, WorldInv, Rolled, GoOn, Sized, Gone, Carries, Outdated, Needs;
    Places(0);
    var buf := w.phase.buf;
    SavedGone(c, w.s, buf, copy);
    WaitingInv(c, w);
    FrameByte(c, w.s, w.flat, 2);
    AwaitedNeeded(w.s);
    CopyWritten(c, w, 0, L, copy, buf);
    ChangedSince(w.s, copy);
    AnswerStep(c, w);
  }

  lemma AnswerStep(c: Codec, w: World)
    requires CanGoOn(w.s, w.phase) && Sized(w.s)
    ensures CanStep(w, Answer(Good))
    ensures var w', r := Step(c, w, Answer(Good)), GoOn(c, w.s, w.phase, Good);
            w'.s == r.s && w'.phase == r.phase && w'.faults == w.faults && w'.flat == w.flat
  {
    hide GoOn, CanGoOn, Sized;
  }

  lemma AwaitedNeeded(s: State)
    requires Sized(s) && FullEntry(s.mmu, L) == 0
    ensures Needs(s, L)
  {
  }

  lemma ChangedSince(s: State, copy: Page)
    requires Sized(s) && s.ram.frames[0] == Frame(S, true) && s.mem[ROM_FRAMES + 0][0] == 2 && copy[0] == 1
    ensures Outdated(s, map[SA := 2], 0, copy)
  {
    Places(0);
    assert SA in map[SA := 2];
  }

  lemma WrittenTo(c: Codec, w: World, copy: Page)
    requires OnItsWay(c, w, copy) && Lossless(c) && w.flat == map[SA := 1]
    ensures CanStep(w, Write(SA, 2)) && Harmless(c, w, Write(SA, 2))
    ensures var w1 := Step(c, w, Write(SA, 2)); OnItsWay(c, w1, copy) && w1.flat == map[SA := 2] && w1.phase == w.phase
  {
    hide Harmless, FullEntry, EntryOf, Inv, WorldInv, Rolled, Carries, Resident, Permutation, MmuTable.Valid;
    hide Harmful, StoreByte;
    Places(0);
    EntryFields(ROM_FRAMES + 0, true);
    EntryNotNull(ROM_FRAMES + 0, true);
    ReachOf(w.s, S, Store);
    hide Reach;
    InvShape(c, w);
    AccessHarmless(c, w, Write(SA, 2));
    StoredShape(w.s, SA, 2);
    var w1 := Step(c, w, Write(SA, 2));
    CarriesDependsOn(w.s, w1.s, 0, w.phase.buf, copy);
    HarmlessAccess(c, w, Write(SA, 2));
    StepKeepsIff(c, w, Write(SA, 2));
  }

  lemma HarmlessAccess(c: Codec, w: World, e: Event)
    requires Sized(w.s) && PhaseOk(w.s, w.phase) && (e.Read? || e.Write?)
    ensures !Harmful(c, w, e)
  {
  }

  /** The page is read again. */
  lemma OldByteRead(c: Codec, w: World, copy: Page)
    requires Gone(c, w.s, copy) && Lossless(c) && w.phase == Idle && w.faults == [] && copy[0] == 1
    ensures var e := Read(SA, Load);
            && CanStep(w, e) && AtMostOne(w)
            && var w1 := Step(c, w, e);
               && CanStep(w1, Serve(None)) && AtMostOne(w1)
               && var w2 := Step(c, w1, Serve(None));
                  && CanStep(w2, Answer(Good)) && AtMostOne(w2)
                  && var w3 := Step(c, w2, Answer(Good));
                     && CanStep(w3, e) && AtMostOne(w3)
                     && var w4 := Step(c, w3, e);
                        w4.seen == Some(1) && w4.flat == w.flat && AtMostOne(w4)
  {
    hide Begin, Reach, FullEntry, Resident, GoOn, CanGoOn, Sized, Backing, Step, CanStep;
    Places(0);
    GoneReadBack(c, w.s, copy);
    Faults(c, w, Read(SA, Load), Load, UnmapDab);
    var w1 := Step(c, w, Read(SA, Load));
    Serves(c, w1, None);
    var w2 := Step(c, w1, Serve(None));
    AnswerStep(c, w2);
    var w3 := Step(c, w2, Answer(Good));
    MemSize(w3.s);
    Reads(c, w3, SA, ROM_FRAMES + 1);
  }

  lemma MemSize(s: State)
    requires Sized(s)
    ensures |s.mem| == ROM_FRAMES + RAM_FRAMES
  {
  }

  /** The page evicted, and written to while it is on its way. */
  lemma Overtakes(c: Codec, w: World) returns (ws: seq<World>, copy: Page)
    requires AtRest(c, w) && Lossless(c) && w.flat == map[SA := 1] && Filled(w.s, RAM_FRAMES - 1)
    ensures Quiet(c, ws, Overtaking()) && Single(ws) && ws[0] == w
    ensures OnItsWay(c, ws[4], copy) && ws[4].flat == map[SA := 2] && copy[0] == 1
  {
    hide Harmless, Step, CanStep, AtRest, Filled, Lossless, OnItsWay, AtMostOne;
    EvictedToFlash(c, w);
    var w1 := Step(c, w, Read(AddressOf(RAM_FRAMES), Load));
    var w2 := Step(c, w1, Serve(None));
    var w3 := Step(c, w2, Answer(Good));
    copy := w3.s.mem[ROM_FRAMES + 0];
    WrittenTo(c, w3, copy);
    var w4 := Step(c, w3, Write(SA, 2));
    RestSingle(c, w);
    WaySingle(c, w3, copy);
    WaySingle(c, w4, copy);
    ws := [w, w1, w2, w3, w4];
  }

  lemma WaySingle(c: Codec, w: World, copy: Page)
    requires OnItsWay(c, w, copy)
    ensures AtMostOne(w)
  {
  }

  /** The write-back ends, and the page is read. */
  lemma ReadsOld(c: Codec, w: World, copy: Page) returns (ws: seq<World>)
    requires OnItsWay(c, w, copy) && Lossless(c) && w.flat == map[SA := 2] && copy[0] == 1
    ensures Played(c, ws, Rereading()) && Single(ws) && ws[0] == w && !Harmless(c, w, Rereading()[0])
    ensures ws[5].flat == map[SA := 2] && ws[5].seen == Some(1)
  {
    hide Harmless, Step, CanStep, Lossless, OnItsWay, AtMostOne, Gone;
    LostThen(c, w, copy);
    var w1 := Step(c, w, Answer(Good));
    OldByteRead(c, w1, copy);
    var w2 := Step(c, w1, Read(SA, Load));
    var w3 := Step(c, w2, Serve(None));
    var w4 := Step(c, w3, Answer(Good));
    WaySingle(c, w, copy);
    ws := [w, w1, w2, w3, w4, Step(c, w4, Read(SA, Load))];
  }

  /** The swap area is switched on, and a page above the compressed store is touched, loaded and written to;
      every other frame is taken by a page of its own. */
  ghost function Preparing(): seq<Event> {
    [SetSwap(true), Write(SA, 1), Serve(None), Answer(Good)] + [Write(SA, 1), Serve(None), Write(SA, 1)] + Fills(0)
  }

  /** One page more is touched, which evicts the page; while its sector is being written, it is written to
      again. */
  ghost function Overtaking(): seq<Event> {
    [Read(AddressOf(RAM_FRAMES), Load), Serve(None), Answer(Good), Write(SA, 2)]
  }

  /** Its being written ends; then the page is read. */
  ghost function Rereading(): seq<Event> {
    [Answer(Good), Read(SA, Load), Serve(None), Answer(Good), Read(SA, Load)]
  }

  /** Two quiet runs with one fault at a time, one after the other. */
  lemma SingleThen(c: Codec, ws: seq<World>, es: seq<Event>, vs: seq<World>, fs: seq<Event>)
    requires Quiet(c, ws, es) && Quiet(c, vs, fs) && ws[|es|] == vs[0] && Single(ws) && Single(vs)
    ensures Quiet(c, ws + vs[1..], es + fs) && Single(ws + vs[1..]) && (ws + vs[1..])[0] == ws[0]
    ensures (ws + vs[1..])[|es + fs|] == vs[|fs|]
  {
    hide Step, CanStep, Harmless, AtMostOne;
    QuietThen(c, ws, es, vs, fs, |fs|);
  }

  lemma Prepares(c: Codec) returns (ws: seq<World>)
    requires Lossless(c)
    ensures Quiet(c, ws, Preparing()) && Single(ws) && ws[0] == Boot()
    ensures var w := ws[|Preparing()|]; AtRest(c, w) && w.flat == map[SA := 1] && Filled(w.s, RAM_FRAMES - 1)
  {
    hide Harmless, Step, CanStep, AtRest, Filled, Alone, Lossless, AtMostOne, Boot, Single;
    var us := FirstFour(c);
    var vs := NextThree(c, us[4]);
    var fs, gs := [SetSwap(true), Write(SA, 1), Serve(None), Answer(Good)], [Write(SA, 1), Serve(None), Write(SA, 1)];
    SingleThen(c, us, fs, vs, gs);
    AloneFilled(vs[3].s);
    var xs := FillUp(c, vs[3], 0);
    SingleThen(c, us + vs[1..], fs + gs, xs, Fills(0));
    ws := us + vs[1..] + xs[1..];
  }

  /** In this run from start-up there is never more than one fault, and the flash memory never fails; a write
      is lost all the same, because it completes while its page is being written to flash. */
  lemma OvertakenWriteLost(c: Codec)
    requires Lossless(c)
    ensures var es, n := Preparing() + Overtaking() + Rereading(), |Preparing()| + 4;
            var ws := Play(c, Boot(), es);
            && PagerRuns.Run(c, ws, es) && Single(ws) && |es| == n + 5
            && HarmlessTo(c, ws, es, n) && !Harmless(c, ws[n], es[n])
            && ws[n + 5].flat == map[SA := 2] && ws[n + 5].seen == Some(1)
  {
    hide Step, CanStep, AtRest, Filled, Lossless, AtMostOne, Boot, Started, Preparing, OnItsWay, Harmless;
    Booted();
    var us := Prepares(c);
    var vs, copy := Overtakes(c, us[|Preparing()|]);
    SingleThen(c, us, Preparing(), vs, Overtaking());
    var ps, hs := us + vs[1..], Preparing() + Overtaking();
    var zs := ReadsOld(c, ps[|hs|], copy);
    QuietThen(c, ps, hs, zs, Rereading(), 0);
    PlayedIsPlay(c, ps + zs[1..], hs + Rereading());
  }
}
