/** A service that nothing interrupts, whatever the flash memory answers: when it resumes its task, what it
    leaves in the store, and what the task then reads. */
module PagerService {
  import opened Basics
  import opened MmuTable
  import opened LruList
  import opened Pager
  import opened PagerTheory
  import opened PagerSteps
  import opened PagerAccess
  import opened PagerRuns

  /** The service carried on with the answers of the flash memory, as long as it waits for them. */
  ghost function Through(c: Codec, r: Progress, xs: seq<Flash>): (r': Progress)
    requires Sized(r.s) && PhaseOk(r.s, r.phase)
    ensures Sized(r'.s) && PhaseOk(r'.s, r'.phase)
    decreases |xs|
  {
    if r.phase == Idle || xs == [] then r
    else
      GoOnWaits(c, r.s, r.phase, xs[0]);
      Through(c, GoOn(c, r.s, r.phase, xs[0]), xs[1..])
  }

  /** How many answers it may still wait for. */
  function WaitsLeft(phase: Phase): (n: nat)
    ensures n <= 3
  {
    match phase
    case Idle => 0
    case SaveRead(_, _) => 3
    case SaveWrite(_, _, _) => 2
    case RamLoad(_, _) => 1
    case RomLoad(_, _) => 1
  }

  lemma WaitsLess(c: Codec, s: State, phase: Phase, x: Flash)
    requires Sized(s) && PhaseOk(s, phase) && phase != Idle && CanGoOn(s, phase)
    ensures WaitsLeft(GoOn(c, s, phase, x).phase) < WaitsLeft(phase)
  {
    hide Shown, SetPage, EntryOf, Taken, WrittenBack, CopiedIn, Half, PutMem, Permutation, MmuTable.Valid, FramesInAreas;
  }

  lemma {:induction false} ThroughEnds(c: Codec, r: Progress, xs: seq<Flash>)
    requires Sized(r.s) && PhaseOk(r.s, r.phase) && |xs| >= WaitsLeft(r.phase)
    ensures var r' := Through(c, r, xs);
            r'.phase == Idle && r'.verdict == if r.phase == Idle then r.verdict else Some(Resume)
    decreases |xs|
  {
    hide GoOn, PhaseOk, Sized, CanGoOn;
    if r.phase != Idle {
      GoOnWaits(c, r.s, r.phase, xs[0]);
      WaitsLess(c, r.s, r.phase, xs[0]);
      ThroughEnds(c, GoOn(c, r.s, r.phase, xs[0]), xs[1..]);
    }
  }

  /** A RAM miss resumes its task iff its victim's page is not refused, whatever the flash memory answers: a
      failed read or write is not noticed. */
  lemma ResumesIff(c: Codec, s: State, page: nat, grant: Option<seq<byte>>, xs: seq<Flash>)
    requires Sized(s) && InRam(page) && s.link != Looped && |xs| >= 3
    ensures var r := RamMiss(c, s, page, grant);
            && PhaseOk(r.s, r.phase)
            && var r' := Through(c, r, xs);
               && r'.phase == Idle
               && (SaveRefused(s, Victim(s), grant) ==> r'.verdict in {Some(Kill(ZramOom)), Some(Kill(SwapNotEnabled))})
               && (!SaveRefused(s, Victim(s), grant) ==> r'.verdict == Some(Resume))
  {
    hide RamMiss, Through, PhaseOk, Sized, SaveWaits, SaveRefused;
    RamMissWaits(c, s, page, grant);
    ThroughEnds(c, RamMiss(c, s, page, grant), xs);
    SavedOrNot(s, grant);
  }

  lemma SavedOrNot(s: State, grant: Option<seq<byte>>)
    requires Sized(s)
    ensures !(SaveRefused(s, Victim(s), grant) && SaveWaits(s, Victim(s)))
  {
  }

  // ----- what a write-back leaves in the store

  /** The store after a sector has been read, changed and written back with nothing in between. The victim's
      page is there as its frame has it, unless the write failed; the page that shares the sector is as
      before, unless the write of a sector that could not be read succeeded; every other page is as
      before. */
  lemma SaveOutcome(c: Codec, s: State, f: nat, x1: Flash, x2: Flash, q: nat)
    requires Sized(s) && f < RAM_FRAMES && s.ram.frames[f].dirty && s.swap && InRam(q)
    requires s.ram.frames[f].page - RAM_BASE >= ZRAM_PAGES
    ensures var was := s.ram.frames[f].page;
            Backing(c, WrittenBack(s, f, CopiedIn(s, f, x1), x2), q) ==
            if x2.Bad? then Backing(c, s, q)
            else if q == was then Some(s.mem[ROM_FRAMES + f])
            else if q == Mate(was) && x1.Bad? then Some(Half(x1.left, HalfOf(q - RAM_BASE)))
            else Backing(c, s, q)
  {
    hide Half, SetHalf, Permutation, MmuTable.Valid;
    var was := s.ram.frames[f].page;
    MateInRam(was);
    OnlyMate(was, q);
    WrittenBacking(c, s, f, CopiedIn(s, f, x1), x2, q);
  }

  /** When the written bytes survive that: the victim's iff they were in the frame and the write succeeded, or
      were in the store before; those of the page that shares the sector iff they were read, or the write
      failed, or they do not depend on the store, or what was taken for the sector has them. */
  lemma SaveSurvivesIff(c: Codec, s: State, flat: Flat, f: nat, page: nat, x1: Flash, x2: Flash)
    requires Inv(c, s, flat) && f < RAM_FRAMES && s.ram.frames[f].dirty && s.swap && InRam(page)
    requires s.ram.frames[f].page - RAM_BASE >= ZRAM_PAGES
    ensures var was := s.ram.frames[f].page;
            var r := GoOn(c, s, SaveWrite(f, page, CopiedIn(s, f, x1)), x2);
            InRam(Mate(was)) &&
            (Inv(c, Settled(r.s, r.phase), flat) <==>
               && Right(if x2.Good? then Some(s.mem[ROM_FRAMES + f]) else Backing(c, s, was), flat, was)
               && (x2.Good? && x1.Bad? && Needs(s, Mate(was)) ==>
                     Right(Some(Half(x1.left, HalfOf(Mate(was) - RAM_BASE))), flat, Mate(was)))
               && (AtOnce(s, page) ==> Right(Backing(c, s, page), flat, page)))
  {
    hide Half, FullEntry, Backing, Shows, Written, Named, Imaged, Kept, WrittenBack, CopiedIn, Right, Needs, Settled, GoOn;
    var was, buf := s.ram.frames[f].page, CopiedIn(s, f, x1);
    MateInRam(was);
    WriteBackIff(c, s, flat, f, page, buf, x2);
    SaveOutcome(c, s, f, x1, x2, was);
    SaveOutcome(c, s, f, x1, x2, Mate(was));
    WrittenBacking(c, s, f, buf, x2, was);
    WrittenBacking(c, s, f, buf, x2, Mate(was));
    if Needs(s, Mate(was)) {
      NeededRight(c, s, flat, Mate(was));
    }
  }

  // ----- what the task then reads

  ghost predicate AllGood(xs: seq<Flash>) {
    forall i :: 0 <= i < |xs| ==> xs[i] == Good
  }

  lemma LoadedReaches(s: State, f: nat, page: nat, p: Page)
    requires Sized(s) && f < RAM_FRAMES && InRam(page)
    ensures var s' := Loaded(s, f, page, p);
            && Reach(s', page, Load) == Done(ROM_FRAMES + f) && s'.mem[ROM_FRAMES + f] == p && Resident(s'.mmu, Seg(page))
            && FullEntry(s'.mmu, page) == EntryOf(ROM_FRAMES + f, false)
  {
    hide FullEntry, EntryOf, Registered, PutEntry, Walk, Permutation, FramesInAreas, MmuTable.Valid;
    AreasRegistered(page);
    EntryFields(ROM_FRAMES + f, false);
    EntryNotNull(ROM_FRAMES + f, false);
    LoadedIs(s, f, page, p);
    PutEntryRefines(s.mmu, page, EntryOf(ROM_FRAMES + f, false));
    WalkRefines(Loaded(s, f, page, p).mmu, page);
  }

  /** What the store has of the page, or, if it has nothing, what the frame held. */
  ghost function Brought(b: Option<Page>, held: Page): Page {
    match b case Some(p) => p case None => held
  }

  /** The frame shows what has been brought for the page. */
  ghost predicate ShowsBrought(r: Progress, f: nat, page: nat, p: Page)
    requires Sized(r.s) && f < RAM_FRAMES
  {
    && r.phase == Idle && r.verdict == Some(Resume) && Reach(r.s, page, Load) == Done(ROM_FRAMES + f)
    && r.s.mem[ROM_FRAMES + f] == p && Resident(r.s.mmu, Seg(page)) && FullEntry(r.s.mmu, page) == EntryOf(ROM_FRAMES + f, false)
  }

  lemma ThroughIdle(c: Codec, r: Progress, xs: seq<Flash>)
    requires Sized(r.s) && r.phase == Idle
    ensures PhaseOk(r.s, r.phase) && Through(c, r, xs) == r
  {
  }

  lemma ThroughOne(c: Codec, r: Progress, xs: seq<Flash>)
    requires Sized(r.s) && PhaseOk(r.s, r.phase) && r.phase != Idle && xs != []
    ensures CanGoOn(r.s, r.phase)
    ensures var r1 := GoOn(c, r.s, r.phase, xs[0]);
            PhaseOk(r1.s, r1.phase) && Through(c, r, xs) == Through(c, r1, xs[1..])
  {
    GoOnWaits(c, r.s, r.phase, xs[0]);
  }

  /** What the frame ends up with. */
  ghost function FrameGiven(c: Codec, s: State, f: nat, page: nat, x: Flash): Page
    requires Sized(s) && f < RAM_FRAMES && InRam(page)
  {
    var s1 := Taken(s, f, page);
    if AtOnce(s1, page) then HadAtOnce(c, s1, f, page) else LoadedHalf(s1, page, x)
  }

  /** The second half of a miss, carried through. */
  lemma GiveEnds(c: Codec, s: State, f: nat, page: nat, xs: seq<Flash>)
    requires Sized(s) && f < RAM_FRAMES && InRam(page) && |xs| >= 1
    ensures var r := Give(c, s, f, page);
            && PhaseOk(r.s, r.phase)
            && Through(c, r, xs) == Over(Loaded(Taken(s, f, page), f, page, FrameGiven(c, s, f, page, xs[0])), Resume)
  {
    hide Taken, Loaded, Shown, HadAtOnce, LoadedHalf, FullEntry, GoOn;
    GiveWaits(c, s, f, page);
    TakenIs(s, f, page);
    var s1 := Taken(s, f, page);
    if AtOnce(s, page) {
      ShownIs(c, s1, f, page);
    } else {
      LoadIs(c, s1, f, page, xs[0]);
      ThroughOne(c, Give(c, s, f, page), xs);
    }
  }

  lemma GivenGood(c: Codec, s: State, f: nat, page: nat)
    requires Sized(s) && f < RAM_FRAMES && InRam(page)
    ensures FrameGiven(c, s, f, page, Good) == Brought(Backing(c, s, page), s.mem[ROM_FRAMES + f])
  {
    hide Taken, Half, FullEntry, Permutation, MmuTable.Valid;
    TakenIs(s, f, page);
    BackingDependsOn(c, s, Taken(s, f, page), page);
  }

  lemma GiveShows(c: Codec, s: State, f: nat, page: nat, xs: seq<Flash>)
    requires Sized(s) && f < RAM_FRAMES && InRam(page) && AllGood(xs) && |xs| >= 1
    ensures var r := Give(c, s, f, page);
            && PhaseOk(r.s, r.phase)
            && ShowsBrought(Through(c, r, xs), f, page, Brought(Backing(c, s, page), s.mem[ROM_FRAMES + f]))
  {
    hide FullEntry, EntryOf, Taken, Loaded, Reach, Backing, Resident, Give, Through, PhaseOk, FrameGiven, Brought;
    GivenGood(c, s, f, page);
    GiveEnds(c, s, f, page, xs);
    LoadedReaches(Taken(s, f, page), f, page, FrameGiven(c, s, f, page, xs[0]));
  }

  /** After a RAM miss whose victim's page could be saved, the task reads what was stored of its page, or, if
      nothing was, what the victim's frame held. For a page that was still in another frame, and dirty
      there, that need not be what was written last. */
  lemma MissShows(c: Codec, s: State, page: nat, grant: Option<seq<byte>>, xs: seq<Flash>)
    requires Sized(s) && InRam(page) && s.link != Looped && Lossless(c) && AllGood(xs) && |xs| >= 3
    requires !SaveRefused(s, Victim(s), grant)
    ensures var r, f := RamMiss(c, s, page, grant), Victim(s);
            && PhaseOk(r.s, r.phase)
            && ShowsBrought(Through(c, r, xs), f, page, Brought(BackingAfter(c, s, f, page), s.mem[ROM_FRAMES + f]))
  {
    hide Give, Through, Backing, ShowsBrought, PhaseOk, Compressed, Touch, Permutation, MmuTable.Valid;
    RamMissWaits(c, s, page, grant);
    RotatedSame(s);
    var f, s0 := Victim(s), Rotated(s);
    if SaveWaits(s, f) {
      SavedShows(c, s0, f, page, xs);
      BackingDependsOn(c, s, s0, page);
    } else {
      var s1 := if s.ram.frames[f].dirty then Compressed(c, s0, f, grant.value) else s0;
      SavedSame(c, s, grant);
      assert RamMiss(c, s, page, grant) == Give(c, s1, f, page);
      GiveShows(c, s1, f, page, xs);
    }
  }

  lemma SavedShows(c: Codec, s: State, f: nat, page: nat, xs: seq<Flash>)
    requires Sized(s) && f < RAM_FRAMES && InRam(page) && AllGood(xs) && |xs| >= 3 && SaveWaits(s, f)
    ensures var r := Progress(s, SaveRead(f, page), None);
            && PhaseOk(r.s, r.phase)
            && ShowsBrought(Through(c, r, xs), f, page, Brought(BackingAfter(c, s, f, page), s.mem[ROM_FRAMES + f]))
  {
    hide Give, Through, Backing, ShowsBrought, WrittenBack, CopiedIn, Permutation, MmuTable.Valid;
    var r := Progress(s, SaveRead(f, page), None);
    ThroughOne(c, r, xs);
    var buf := CopiedIn(s, f, Good);
    var s1 := WrittenBack(s, f, buf, Good);
    ThroughOne(c, Progress(s, SaveWrite(f, page, buf), None), xs[1..]);
    SaveOutcome(c, s, f, Good, Good, page);
    WrittenSame(s, f, buf, Good);
    assert AllGood(xs[1..][1..]);
    GiveShows(c, s1, f, page, xs[1..][1..]);
  }

  /** So a written byte that is wrong in the store, and not mapped, is read wrong as soon as its page is
      brought in. */
  lemma LossIsRead(c: Codec, s: State, flat: Flat, page: nat, grant: Option<seq<byte>>, xs: seq<Flash>)
    requires Sized(s) && InRam(page) && s.link != Looped && Lossless(c) && AllGood(xs) && |xs| >= 3
    requires !SaveRefused(s, Victim(s), grant)
    requires var b := BackingAfter(c, s, Victim(s), page); !Shows(Brought(b, s.mem[ROM_FRAMES + Victim(s)]), flat, page)
    ensures var r := RamMiss(c, s, page, grant);
            && PhaseOk(r.s, r.phase)
            && var r' := Through(c, r, xs);
               exists a :: a in flat && a / PAGE_SIZE == page && Reach(r'.s, page, Load) == Done(ROM_FRAMES + Victim(s))
                           && r'.s.mem[ROM_FRAMES + Victim(s)][a % PAGE_SIZE] != flat[a]
  {
    hide RamMiss, Through, Backing, PhaseOk, Reach, FullEntry, SaveRefused;
    MissShows(c, s, page, grant, xs);
  }

  /** A page that has come wrong is read wrong at once. */
  lemma WrongLoadIsRead(c: Codec, w: World, x: Flash)
    requires WorldInv(c, w) && w.phase.RamLoad? && CanStep(w, Answer(x))
    requires !Shows(LoadedHalf(w.s, w.phase.page, x), w.flat, w.phase.page)
    ensures var w' := Step(c, w, Answer(x));
            exists a :: a in w'.flat && a / PAGE_SIZE == w.phase.page && CanStep(w', Read(a, Load))
                        && Step(c, w', Read(a, Load)).seen.Some? && Step(c, w', Read(a, Load)).seen != Some(w'.flat[a])
  {
    hide Inv, Reach, Half, LoadedHalf, Loaded, FullEntry, Resident, GoOn, Settled;
    var f, page := w.phase.f, w.phase.page;
    var p, w' := LoadedHalf(w.s, page, x), Step(c, w, Answer(x));
    LoadIs(c, w.s, f, page, x);
    LoadedReaches(w.s, f, page, p);
    var a :| a in w.flat && a / PAGE_SIZE == page && p[a % PAGE_SIZE] != w.flat[a];
    assert Step(c, w', Read(a, Load)).seen == Some(p[a % PAGE_SIZE]);
  }

  /** So is a page of the image. */
  lemma WrongImageIsRead(c: Codec, w: World, x: Flash)
    requires WorldInv(c, w) && w.phase.RomLoad? && CanStep(w, Answer(x)) && AnswerHarms(c, w.s, w.flat, w.phase, x)
    ensures var w' := Step(c, w, Answer(x));
            exists k :: 0 <= k < PAGE_SIZE
                        && var a := w.phase.page * PAGE_SIZE + k;
                           && CanStep(w', Read(a, Load)) && Step(c, w', Read(a, Load)).seen.Some?
                           && Step(c, w', Read(a, Load)).seen != Some(RomPage(w.s, w.phase.page)[k])
  {
    hide Inv, Reach, Half, LoadedRomHalf, RomLoaded, FullEntry, Resident, GoOn, RomPage, Settled;
    var f, page := w.phase.f, w.phase.page;
    var p, w' := LoadedRomHalf(w.s, page, x), Step(c, w, Answer(x));
    RomLoadIs(c, w.s, f, page, x);
    RomLoadedReaches(w.s, f, page, p);
    var k := Differs(p, RomPage(w.s, page));
    var a := page * PAGE_SIZE + k;
    assert a / PAGE_SIZE == page && a % PAGE_SIZE == k;
    assert Step(c, w', Read(a, Load)).seen == Some(p[k]);
  }

  lemma Differs(p: Page, q: Page) returns (k: nat)
    requires p != q
    ensures k < PAGE_SIZE && p[k] != q[k]
  {
    k :| k < PAGE_SIZE && p[k] != q[k];
  }

  lemma RomLoadedReaches(s: State, f: nat, page: nat, p: Page)
    requires Sized(s) && f < ROM_FRAMES && InRom(page)
    ensures var s' := RomLoaded(s, f, page, p);
            && Reach(s', page, Load) == Done(f) && s'.mem[f] == p && Resident(s'.mmu, Seg(page))
            && FullEntry(s'.mmu, page) == EntryOf(f, false)
  {
    hide FullEntry, EntryOf, Registered, PutEntry, Walk, Permutation, FramesInAreas, MmuTable.Valid;
    AreasRegistered(page);
    EntryFields(f, false);
    EntryNotNull(f, false);
    RomLoadedIs(s, f, page, p);
    PutEntryRefines(s.mmu, page, EntryOf(f, false));
    WalkRefines(RomLoaded(s, f, page, p).mmu, page);
  }

  /** A page that has been written back wrong is not mapped any more, so that it is read as the store has
      it. */
  lemma VictimGone(c: Codec, s: State, f: nat, page: nat, buf: Sector, x: Flash)
    requires Sized(s) && PhaseOk(s, SaveWrite(f, page, buf)) && s.ram.frames[f].page != page
    ensures CanGoOn(s, SaveWrite(f, page, buf))
    ensures var was, r := s.ram.frames[f].page, GoOn(c, s, SaveWrite(f, page, buf), x);
            FullEntry(r.s.mmu, was) == 0 && Backing(c, r.s, was) == BackingWritten(c, s, f, buf, x, was)
  {
    hide FullEntry, EntryOf, Backing, BackingWritten, Taken, Loaded, Shown, HadAtOnce, WrittenBack, Permutation, MmuTable.Valid;
    var was, s1 := s.ram.frames[f].page, WrittenBack(s, f, buf, x);
    WrittenSame(s, f, buf, x);
    WrittenBacking(c, s, f, buf, x, was);
    TakenIs(s1, f, page);
    var s2 := Taken(s1, f, page);
    BackingDependsOn(c, s1, s2, was);
    if AtOnce(s1, page) {
      var p := HadAtOnce(c, s2, f, page);
      ShownIs(c, s2, f, page);
      LoadedIs(s2, f, page, p);
      BackingDependsOn(c, s2, Loaded(s2, f, page, p), was);
    }
  }

  // ----- the whole service of a fault

  lemma ReloadedLink(s: State, page: nat)
    requires Sized(s) && Seg(page) != FREE_SEG
    ensures Reloaded(s, page).link == s.link
  {
  }

  lemma BeginWaits(c: Codec, s: State, page: nat, kind: Kind, grant: Option<seq<byte>>)
    requires Sized(s) && s.link != Looped && Seg(page) != FREE_SEG
    ensures var r := Begin(c, s, page, kind, grant); PhaseOk(r.s, r.phase)
  {
    hide RamMiss, RomMiss, WriteFault, ReloadCode, Reloaded, Sized, SaveRefused, SaveWaits, Found, Touch;
    ReloadedLink(s, page);
    if InRam(page) {
      RamOnly(page);
      RamMissWaits(c, Reloaded(s, page), page, grant);
      WriteFaultWaits(Reloaded(s, page), page);
    } else if InRom(page) {
      RomMissWaits(Reloaded(s, page), page);
    }
  }

  /** The service of a fault, with nothing in between. */
  ghost function Served(c: Codec, s: State, page: nat, kind: Kind, grant: Option<seq<byte>>, xs: seq<Flash>): (r: Progress)
    requires Sized(s) && s.link != Looped && Seg(page) != FREE_SEG
    ensures Sized(r.s)
  {
    BeginWaits(c, s, page, kind, grant);
    Through(c, Begin(c, s, page, kind, grant), xs)
  }
}
