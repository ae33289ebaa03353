/** A write to a page that is on its way to flash is lost; and with one fault outstanding at a time, no such
    write and no failure of the flash memory, nothing is. */
module PagerCalm {
  import opened Basics
  import opened MmuTable
  import opened LruList
  import opened Pager
  import opened PagerTheory
  import opened PagerSteps
  import opened PagerAccess
  import opened PagerRuns
  import opened PagerService
  import opened PagerProgress
  import opened PagerCorrespondence

  // ----- the lost write

  /** A written byte of the frame is not what the copy has. */
  ghost predicate Outdated(s: State, flat: Flat, f: nat, copy: Page)
    requires Sized(s) && f < RAM_FRAMES
  {
    exists a :: a in flat && a / PAGE_SIZE == s.ram.frames[f].page && copy[a % PAGE_SIZE] != s.mem[ROM_FRAMES + f][a % PAGE_SIZE]
  }

  /** The buffer with that copy of the victim's page in it, and the other page of its sector as stored. */
  ghost predicate Carries(s: State, f: nat, buf: Sector, copy: Page)
    requires Sized(s) && f < RAM_FRAMES && s.ram.frames[f].dirty
  {
    var ind := s.ram.frames[f].page - RAM_BASE;
    buf == SetHalf(s.ftl[SectorOf(ind)], HalfOf(ind), copy)
  }

  /** The end of a successful write-back of a page that is mapped writable in its frame does harm iff a
      written byte of it is not what the copy has: iff a write has changed it since the copy was made. */
  lemma LostWriteIff(c: Codec, s: State, flat: Flat, f: nat, page: nat, buf: Sector, copy: Page)
    requires Inv(c, s, flat) && f < RAM_FRAMES && s.ram.frames[f].dirty && s.swap && InRam(page)
    requires s.ram.frames[f].page - RAM_BASE >= ZRAM_PAGES && Carries(s, f, buf, copy)
    requires FullEntry(s.mmu, s.ram.frames[f].page) == EntryOf(ROM_FRAMES + f, true) && (AtOnce(s, page) ==> Needs(s, page))
    ensures var r := GoOn(c, s, SaveWrite(f, page, buf), Good);
            Inv(c, Settled(r.s, r.phase), flat) <==> !Outdated(s, flat, f, copy)
  {
    hide Half, SetHalf, FullEntry, EntryOf, Backing, Shows, Written, Named, Imaged, Kept, WrittenBack, Needs, Settled, GoOn;
    hide Outdated, Right, BackingWritten, Carries;
    WriteBackIff(c, s, flat, f, page, buf, Good);
    MateInRam(s.ram.frames[f].page);
    CarriedRight(c, s, flat, f, buf, copy);
    if AtOnce(s, page) {
      NeededRight(c, s, flat, page);
    }
  }

  lemma CarriedBacking(c: Codec, s: State, f: nat, buf: Sector, copy: Page)
    requires Sized(s) && f < RAM_FRAMES && s.ram.frames[f].dirty && s.swap && Carries(s, f, buf, copy)
    requires s.ram.frames[f].page - RAM_BASE >= ZRAM_PAGES
    ensures var was := s.ram.frames[f].page;
            && InRam(Mate(was))
            && BackingWritten(c, s, f, buf, Good, was) == Some(copy)
            && BackingWritten(c, s, f, buf, Good, Mate(was)) == Backing(c, s, Mate(was))
  {
    hide Half, SetHalf, Permutation, MmuTable.Valid;
    MateInRam(s.ram.frames[f].page);
  }

  lemma CarriedRight(c: Codec, s: State, flat: Flat, f: nat, buf: Sector, copy: Page)
    requires Inv(c, s, flat) && f < RAM_FRAMES && s.ram.frames[f].dirty && s.swap && Carries(s, f, buf, copy)
    requires s.ram.frames[f].page - RAM_BASE >= ZRAM_PAGES
    requires FullEntry(s.mmu, s.ram.frames[f].page) == EntryOf(ROM_FRAMES + f, true)
    ensures var was := s.ram.frames[f].page;
            && InRam(Mate(was))
            && (Right(BackingWritten(c, s, f, buf, Good, was), flat, was) <==> !Outdated(s, flat, f, copy))
            && (Needs(s, Mate(was)) ==> Right(BackingWritten(c, s, f, buf, Good, Mate(was)), flat, Mate(was)))
  {
    hide FullEntry, EntryOf, Backing, Named, Imaged, Kept, Needs, BackingWritten, Carries;
    var was := s.ram.frames[f].page;
    CarriedBacking(c, s, f, buf, copy);
    if Needs(s, Mate(was)) {
      NeededRight(c, s, flat, Mate(was));
    }
    FrameShows(c, s, flat, f);
  }

  /** A page mapped writable in its frame is right there. */
  lemma FrameShows(c: Codec, s: State, flat: Flat, f: nat)
    requires Inv(c, s, flat) && f < RAM_FRAMES && s.ram.frames[f].dirty
    requires FullEntry(s.mmu, s.ram.frames[f].page) == EntryOf(ROM_FRAMES + f, true)
    ensures Shows(s.mem[ROM_FRAMES + f], flat, s.ram.frames[f].page)
  {
    hide FullEntry, EntryOf, Backing, Named, Imaged;
    var was := s.ram.frames[f].page;
    EntryFields(ROM_FRAMES + f, true);
    EntryNotNull(ROM_FRAMES + f, true);
    if Written(flat, was) {
      assert PageKept(c, s, flat, was);
    }
  }

  // ----- and over a run

  /** While a sector is being written, nothing but the frames' contents, the queue and the swap area's switch
      changes. */
  lemma WaitStays(c: Codec, w: World, e: Event)
    requires CanStep(w, e) && w.phase.SaveWrite? && !e.Answer?
    ensures var w' := Step(c, w, e);
            && w'.phase == w.phase
            && w'.s == w.s.(mem := w'.s.mem, swap := w'.s.swap)
  {
    hide Reach, Begin, GoOn, Sized;
    if e.Write? && Reach(w.s, e.a / PAGE_SIZE, Store).Done? {
      StoredShape(w.s, e.a, e.b);
    }
  }

  lemma StoredShape(s: State, a: nat, b: byte)
    requires Sized(s) && Reach(s, a / PAGE_SIZE, Store).Done?
    ensures StoreByte(s, a, b) == s.(mem := StoreByte(s, a, b).mem)
  {
  }

  lemma {:induction false} WaitsOver(c: Codec, ws: seq<World>, es: seq<Event>, i: nat, j: nat)
    requires PagerRuns.Run(c, ws, es) && i <= j <= |es| && ws[i].phase.SaveWrite?
    requires forall m :: i <= m < j ==> !es[m].Answer?
    ensures ws[j].phase == ws[i].phase && ws[j].s == ws[i].s.(mem := ws[j].s.mem, swap := ws[j].s.swap)
    decreases j
  {
    hide Step, CanStep, Started;
    if i < j {
      WaitsOver(c, ws, es, i, j - 1);
      assert CanStep(ws[j - 1], es[j - 1]) && ws[j - 1 + 1] == Step(c, ws[j - 1], es[j - 1]);
      WaitStays(c, ws[j - 1], es[j - 1]);
    }
  }

  /** In any run: event i copies the victim's page into its sector, and event j ends the sector's being
      written. All is well after that iff the frame still has, wherever the page was ever written, what it had
      when it was copied. */
  lemma LostInRun(c: Codec, ws: seq<World>, es: seq<Event>, i: nat, j: nat)
    requires PagerRuns.Run(c, ws, es) && Lossless(c) && i < j < |es| && HarmlessTo(c, ws, es, j)
    requires es[i] == Answer(Good) && ws[i].phase.SaveRead? && es[j] == Answer(Good) && ws[j].s.swap
    requires forall m :: i < m < j ==> !es[m].Answer?
    requires var s, phase := ws[j].s, ws[i].phase;
             && Sized(s) && Sized(ws[i].s) && phase.f < RAM_FRAMES && (AtOnce(s, phase.page) ==> Needs(s, phase.page))
             && FullEntry(s.mmu, s.ram.frames[phase.f].page) == EntryOf(ROM_FRAMES + phase.f, true)
    ensures var f := ws[i].phase.f;
            WorldInv(c, ws[j + 1]) <==> !Outdated(ws[j].s, ws[j].flat, f, ws[i].s.mem[ROM_FRAMES + f])
  {
    hide Step, CanStep, Started, Harmless, Inv, Outdated, FullEntry, EntryOf, Needs, CopiedIn, SetHalf, Lossless, Sized;
    var f, page := ws[i].phase.f, ws[i].phase.page;
    RunInv(c, ws, es, i) by {
      assert HarmlessTo(c, ws, es, i);
    }
    RunInv(c, ws, es, j);
    CopyMade(c, ws[i]);
    assert CanStep(ws[i], es[i]) && ws[i + 1] == Step(c, ws[i], es[i]);
    WaitsOver(c, ws, es, i + 1, j);
    FirstHarm(c, ws, es, j);
    CopyWritten(c, ws[j], f, page, ws[i].s.mem[ROM_FRAMES + f], ws[i + 1].phase.buf);
  }

  /** The copy is made. */
  lemma CopyMade(c: Codec, w: World)
    requires WorldInv(c, w) && w.phase.SaveRead?
    ensures CanStep(w, Answer(Good))
    ensures var w', f, page := Step(c, w, Answer(Good)), w.phase.f, w.phase.page;
            && f < RAM_FRAMES && |w.s.mem| == ROM_FRAMES + RAM_FRAMES
            && w.s.ram.frames[f].dirty && InRam(page) && w'.s == w.s
            && w'.phase == SaveWrite(f, page, CopiedIn(w.s, f, Good))
            && Carries(w.s, f, CopiedIn(w.s, f, Good), w.s.mem[ROM_FRAMES + f])
  {
    hide Inv, SetHalf, Settled, GoOn;
    InvShape(c, w);
    GoOnWaits(c, w.s, w.phase, Good);
    CopyIs(c, w.s, w.phase.f, w.phase.page, Good);
    CopyCarried(w.s, w.phase.f);
  }

  lemma CopyCarried(s: State, f: nat)
    requires Sized(s) && f < RAM_FRAMES && s.ram.frames[f].dirty
    ensures Carries(s, f, CopiedIn(s, f, Good), s.mem[ROM_FRAMES + f])
  {
  }

  lemma CopyWritten(c: Codec, w: World, f: nat, page: nat, copy: Page, buf: Sector)
    requires WorldInv(c, w) && w.phase == SaveWrite(f, page, buf) && w.s.swap && f < RAM_FRAMES && w.s.ram.frames[f].dirty
    requires Carries(w.s, f, buf, copy) && (AtOnce(w.s, page) ==> Needs(w.s, page))
    requires FullEntry(w.s.mmu, w.s.ram.frames[f].page) == EntryOf(ROM_FRAMES + f, true)
    ensures Harmless(c, w, Answer(Good)) <==> !Outdated(w.s, w.flat, f, copy)
  {
    hide Inv, SetHalf, Settled, GoOn, Outdated, FullEntry, EntryOf, Needs, Carries, WriteBackFine;
    SettledWriting(w.s, f, page, buf);
    LostWriteIff(c, w.s, w.flat, f, page, buf, copy);
    WriteBackIff(c, w.s, w.flat, f, page, buf, Good);
  }

  /** A write that completes on the victim's page. */
  ghost predicate WritesVictim(w: World, e: Event) {
    && Sized(w.s) && w.phase.SaveWrite? && w.phase.f < RAM_FRAMES
    && e.Write? && e.a / PAGE_SIZE == w.s.ram.frames[w.phase.f].page && Reach(w.s, e.a / PAGE_SIZE, Store).Done?
  }

  /** No other event changes the victim's frame. */
  lemma VictimStays(c: Codec, w: World, e: Event)
    requires WorldInv(c, w) && CanStep(w, e) && w.phase.SaveWrite? && !e.Answer? && !WritesVictim(w, e)
    ensures w.phase.f < RAM_FRAMES && |w.s.mem| == ROM_FRAMES + RAM_FRAMES
    ensures Step(c, w, e).s.mem[ROM_FRAMES + w.phase.f] == w.s.mem[ROM_FRAMES + w.phase.f]
  {
    hide Reach, Begin, GoOn, Imaged, Kept, FullEntry;
    SettledWriting(w.s, w.phase.f, w.phase.page, w.phase.buf);
    if e.Write? && Reach(w.s, e.a / PAGE_SIZE, Store).Done? {
      VirtualSeg(e.a);
      StoreShape(w.s, e.a, e.b);
    }
  }

  lemma {:induction false} VictimKept(c: Codec, ws: seq<World>, es: seq<Event>, i: nat, j: nat)
    requires PagerRuns.Run(c, ws, es) && Lossless(c) && i <= j <= |es| && HarmlessTo(c, ws, es, j) && ws[i].phase.SaveWrite?
    requires forall m :: i <= m < j ==> !es[m].Answer? && !WritesVictim(ws[m], es[m])
    ensures ws[j].phase == ws[i].phase && ws[i].phase.f < RAM_FRAMES
    ensures |ws[i].s.mem| == |ws[j].s.mem| == ROM_FRAMES + RAM_FRAMES
    ensures ws[j].s.mem[ROM_FRAMES + ws[i].phase.f] == ws[i].s.mem[ROM_FRAMES + ws[i].phase.f]
    decreases j
  {
    hide Step, CanStep, Started, WorldInv, WritesVictim, Harmless, Lossless, Sized;
    WaitsOver(c, ws, es, i, j);
    RunInv(c, ws, es, i) by {
      assert HarmlessTo(c, ws, es, i);
    }
    WaitingFrame(c, ws[i]);
    if i < j {
      assert HarmlessTo(c, ws, es, j - 1);
      VictimKept(c, ws, es, i, j - 1);
      RunInv(c, ws, es, j - 1);
      assert CanStep(ws[j - 1], es[j - 1]) && ws[j - 1 + 1] == Step(c, ws[j - 1], es[j - 1]);
      VictimStays(c, ws[j - 1], es[j - 1]);
      RunInv(c, ws, es, j);
      WaitingFrame(c, ws[j]);
    }
  }

  lemma WaitingFrame(c: Codec, w: World)
    requires WorldInv(c, w) && w.phase.SaveWrite?
    ensures w.phase.f < RAM_FRAMES && |w.s.mem| == ROM_FRAMES + RAM_FRAMES
  {
  }

  /** So nothing is lost if no write to the victim's page completes between its copying and the end of its
      write-back. */
  lemma UnwrittenIsSaved(c: Codec, ws: seq<World>, es: seq<Event>, i: nat, j: nat)
    requires PagerRuns.Run(c, ws, es) && Lossless(c) && i < j < |es| && HarmlessTo(c, ws, es, j)
    requires es[i] == Answer(Good) && ws[i].phase.SaveRead? && es[j] == Answer(Good) && ws[j].s.swap
    requires forall m :: i < m < j ==> !es[m].Answer? && !WritesVictim(ws[m], es[m])
    requires var s, phase := ws[j].s, ws[i].phase;
             && Sized(s) && Sized(ws[i].s) && phase.f < RAM_FRAMES && (AtOnce(s, phase.page) ==> Needs(s, phase.page))
             && FullEntry(s.mmu, s.ram.frames[phase.f].page) == EntryOf(ROM_FRAMES + phase.f, true)
    ensures WorldInv(c, ws[j + 1])
  {
    hide Step, CanStep, Started, WorldInv, WritesVictim, Harmless, Lossless, Sized, FullEntry, EntryOf, Needs, CopiedIn;
    LostInRun(c, ws, es, i, j);
    RunInv(c, ws, es, i) by {
      assert HarmlessTo(c, ws, es, i);
    }
    CopyMade(c, ws[i]);
    assert CanStep(ws[i], es[i]) && ws[i + 1] == Step(c, ws[i], es[i]);
    VictimKept(c, ws, es, i + 1, j);
  }

  // ----- one fault at a time

  /** A tail with a stale forward link is dirty: mapped writable, it can raise no write fault before it is
      evicted. */
  ghost predicate Listed(s: State)
    requires Sized(s)
  {
    s.link == Stale ==> s.ram.frames[s.ram.order[RAM_FRAMES - 1]].dirty
  }

  /** The page that a service is for is not mapped meanwhile; the buffer that is being written has the
      victim's page as it is. */
  ghost predicate Awaited(s: State, phase: Phase)
    requires Sized(s) && PhaseOk(s, phase)
  {
    match phase
    case Idle => true
    case SaveRead(_, page) => FullEntry(s.mmu, page) == 0 && s.swap && s.link == Fresh
    case SaveWrite(f, page, buf) =>
      FullEntry(s.mmu, page) == 0 && s.swap && s.link == Fresh && Carries(s, f, buf, s.mem[ROM_FRAMES + f])
    case RamLoad(_, page) => FullEntry(s.mmu, page) == 0 && s.swap && s.link == Fresh && page - RAM_BASE >= ZRAM_PAGES
    case RomLoad(_, page) => FullEntry(s.mmu, page) == 0
  }

  ghost predicate Strict(s: State, phase: Phase) {
    Sized(s) && PhaseOk(s, phase) && OneToOne(Settled(s, phase)) && Listed(s) && Awaited(s, phase)
  }

  lemma StrictIdle(s: State)
    requires Sized(s)
    ensures Strict(s, Idle) <==> OneToOne(s) && Listed(s)
  {
  }

  // ----- the beginning of a service that is up to date

  lemma NeededWhenUnmapped(s: State, page: nat)
    requires Sized(s) && (FullEntry(s.mmu, page) == 0 || !Writable(FullEntry(s.mmu, page)))
    ensures Needs(s, page)
  {
  }

  lemma StrictMissFine(c: Codec, s: State, flat: Flat, page: nat, grant: Option<seq<byte>>)
    requires Inv(c, s, flat) && OneToOne(s) && InRam(page) && FullEntry(s.mmu, page) == 0
    ensures MissFine(c, s, flat, page, grant)
  {
    hide FullEntry, Named, Imaged, Kept, OneToOne, Backing, Right, Needs;
    var f, was := Victim(s), VictimPage(s);
    NeededWhenUnmapped(s, page);
    NeededRight(c, s, flat, page);
    if was != 0 {
      MappedAt(s, f);
      if s.ram.frames[f].dirty {
        VictimRight(c, s, flat);
      } else {
        NeededWhenUnmapped(s, was);
        NeededRight(c, s, flat, was);
      }
    }
  }

  lemma WritableNotNeeded(s: State, page: nat)
    requires Sized(s) && FullEntry(s.mmu, page) != 0 && Writable(FullEntry(s.mmu, page))
    ensures !Needs(s, page)
  {
  }

  lemma VictimRight(c: Codec, s: State, flat: Flat)
    requires Inv(c, s, flat) && OneToOne(s) && s.ram.frames[Victim(s)].dirty
    ensures var f, was := Victim(s), VictimPage(s);
            was != 0 && !Needs(s, was) && Right(Some(s.mem[ROM_FRAMES + f]), flat, was)
  {
    hide FullEntry, Named, Imaged, Kept, EntryOf;
    MappedAt(s, Victim(s));
    WritableNotNeeded(s, VictimPage(s));
    FrameShows(c, s, flat, Victim(s));
  }

  lemma GiveStrict(c: Codec, s: State, s1: State, f: nat, page: nat)
    requires Sized(s) && Sized(s1) && OneToOne(s) && f < RAM_FRAMES && InRam(page) && SameButStores(s, s1, f)
    requires FullEntry(s.mmu, page) == 0 && s1.link == Fresh
    ensures var r := Give(c, s1, f, page); Strict(r.s, r.phase)
  {
    hide FullEntry, EntryOf, Taken, Loaded, Shown, OneToOne, HadAtOnce, SetFrame, SameButStores, Permutation, MmuTable.Valid;
    GiveWaits(c, s1, f, page);
    TakenOneToOne(s, s1, f, page);
    TakenIs(s1, f, page);
    var s2 := Taken(s1, f, page);
    if AtOnce(s1, page) {
      ShownIs(c, s2, f, page);
      LoadedOneToOneIff(s2, f, page, HadAtOnce(c, s2, f, page));
      LoadedIs(s2, f, page, HadAtOnce(c, s2, f, page));
    }
  }

  lemma StrictMiss(c: Codec, s: State, page: nat, grant: Option<seq<byte>>)
    requires Sized(s) && OneToOne(s) && s.link != Looped && InRam(page) && FullEntry(s.mmu, page) == 0
    ensures var r := RamMiss(c, s, page, grant); Strict(r.s, r.phase)
  {
    hide FullEntry, OneToOne, Give, Compressed, Touch, Permutation, MmuTable.Valid;
    var f, s0 := Victim(s), Rotated(s);
    RamMissWaits(c, s, page, grant);
    RotatedSame(s);
    OneToOneDependsOn(s, s0);
    if SaveRefused(s, f, grant) {
      OneToOneDependsOn(s, RamMiss(c, s, page, grant).s);
    } else if !SaveWaits(s, f) {
      var s1 := if s.ram.frames[f].dirty then Compressed(c, s0, f, grant.value) else s0;
      if s.ram.frames[f].dirty {
        CompressedSame(c, s, grant.value);
      }
      assert RamMiss(c, s, page, grant) == Give(c, s1, f, page);
      GiveStrict(c, s, s1, f, page);
    }
  }

  lemma StrictRomMiss(s: State, page: nat)
    requires Sized(s) && OneToOne(s) && Listed(s) && InRom(page) && FullEntry(s.mmu, page) == 0
    ensures var r := RomMiss(s, page); Strict(r.s, r.phase)
  {
    hide FullEntry, OneToOne, RomTaken, SetRomFrame, Touch, Permutation, MmuTable.Valid;
    RomOrder(s);
    RomMissWaits(s, page);
    OneToOneDependsOn(s, RomRotated(s));
    RomTakenOneToOne(RomRotated(s), s.rom.order[0], page);
  }

  lemma StrictWriteFine(c: Codec, s: State, flat: Flat, page: nat)
    requires Inv(c, s, flat) && OneToOne(s) && Listed(s) && InRam(page) && !Writable(FullEntry(s.mmu, page))
    ensures WriteFine(s, flat, page)
  {
    hide FullEntry, Named, Imaged, OneToOne, Found, MmuTable.Valid, Shows, Backing;
    FoundAtTail(s, page);
    if Relinks(s, page) {
      MappedAt(s, s.ram.order[RAM_FRAMES - 1]);
    }
    if Found(s, page) >= 0 && Written(flat, page) {
      MappedAt(s, s.ram.order[Found(s, page)]);
      assert PageKept(c, s, flat, page);
    }
  }

  lemma StrictWrite(c: Codec, s: State, page: nat)
    requires Sized(s) && OneToOne(s) && Listed(s) && s.link != Looped && InRam(page)
    ensures Strict(WriteFault(s, page).s, Idle)
  {
    hide FullEntry, OneToOne, WriteFault, Found, EntryOf, Dirtied;
    WriteFaultDirties(s, page);
    StrictIdle(WriteFault(s, page).s);
    if Found(s, page) >= 0 {
      DirtiedOneToOne(s, WriteFault(s, page).s, s.ram.order[Found(s, page)], page);
      DirtiedListed(s, WriteFault(s, page).s, s.ram.order[Found(s, page)], page);
    }
  }

  lemma DirtiedListed(s: State, s': State, f: nat, page: nat)
    requires Sized(s) && Sized(s') && f < RAM_FRAMES && Dirtied(s, s', f, page)
    ensures Listed(s')
  {
    TouchPermutes(s.ram.order, RAM_FRAMES, f);
  }

  // ----- the end of a flash operation that succeeds

  lemma StrictAnswer(c: Codec, s: State, phase: Phase, flat: Flat)
    requires StateInv(c, s, phase, flat) && Strict(s, phase) && phase != Idle
    ensures CanGoOn(s, phase) && !AnswerHarms(c, s, flat, phase, Good)
    ensures var r := GoOn(c, s, phase, Good); Strict(r.s, r.phase)
  {
    hide GoOn, Inv, OneToOne, WriteBackFine, LoadFine, RomLoadFine, CopiedIn, Settled, Carries, FullEntry, Strict;
    GoOnWaits(c, s, phase, Good);
    match phase
    case SaveRead(f, page) => StrictRead(c, s, f, page);
    case SaveWrite(f, page, buf) => StrictWritten(c, s, flat, f, page, buf);
    case RamLoad(f, page) => StrictLoad(c, s, flat, f, page);
    case RomLoad(f, page) => StrictRomLoad(c, s, flat, f, page);
  }

  lemma StrictRead(c: Codec, s: State, f: nat, page: nat)
    requires Strict(s, SaveRead(f, page)) && CanGoOn(s, SaveRead(f, page))
    ensures var r := GoOn(c, s, SaveRead(f, page), Good); Strict(r.s, r.phase)
  {
    hide OneToOne, CopiedIn, Carries, FullEntry, GoOn;
    CopyIs(c, s, f, page, Good);
    CopyCarried(s, f);
  }

  lemma StrictWritten(c: Codec, s: State, flat: Flat, f: nat, page: nat, buf: Sector)
    requires StateInv(c, s, SaveWrite(f, page, buf), flat) && Strict(s, SaveWrite(f, page, buf))
    ensures WriteBackFine(c, s, flat, f, page, buf, Good)
    ensures var r := GoOn(c, s, SaveWrite(f, page, buf), Good); Strict(r.s, r.phase)
  {
    hide Inv, WriteBackFine, WrittenBack, Carries, FullEntry, EntryOf, Named, Give;
    SettledWriting(s, f, page, buf);
    NeededWhenUnmapped(s, page);
    LostWriteIff(c, s, flat, f, page, buf, s.mem[ROM_FRAMES + f]);
    WriteBackIff(c, s, flat, f, page, buf, Good);
    WrittenSame(s, f, buf, Good);
    hide OneToOne;
    GiveStrict(c, s, WrittenBack(s, f, buf, Good), f, page);
  }

  lemma StrictLoad(c: Codec, s: State, flat: Flat, f: nat, page: nat)
    requires StateInv(c, s, RamLoad(f, page), flat) && Strict(s, RamLoad(f, page)) && CanGoOn(s, RamLoad(f, page))
    ensures LoadFine(c, s, flat, page, Good)
    ensures var r := GoOn(c, s, RamLoad(f, page), Good); Strict(r.s, r.phase)
  {
    hide Inv, FullEntry, OneToOne, GoOn, Loaded, Half, Permutation, MmuTable.Valid, Shows, Written;
    var s0 := Settled(s, RamLoad(f, page));
    NeededWhenUnmapped(s0, page);
    NeededRight(c, s0, flat, page);
    BackingDependsOn(c, s, s0, page);
    LoadIs(c, s, f, page, Good);
    LoadedOneToOneIff(s, f, page, LoadedHalf(s, page, Good));
    LoadedIs(s, f, page, LoadedHalf(s, page, Good));
  }

  lemma StrictRomLoad(c: Codec, s: State, flat: Flat, f: nat, page: nat)
    requires StateInv(c, s, RomLoad(f, page), flat) && Strict(s, RomLoad(f, page)) && CanGoOn(s, RomLoad(f, page))
    ensures RomLoadFine(s, page, Good)
    ensures var r := GoOn(c, s, RomLoad(f, page), Good); Strict(r.s, r.phase)
  {
    hide Inv, FullEntry, OneToOne, GoOn, RomLoaded, Half, Permutation, MmuTable.Valid;
    RomLoadIs(c, s, f, page, Good);
    RomLoadedOneToOneIff(s, f, page, LoadedRomHalf(s, page, Good));
    RomLoadedIs(s, f, page, LoadedRomHalf(s, page, Good));
  }

  // ----- calm runs

  /** One fault at most, counting the one that is being served. */
  predicate AtMostOne(w: World) {
    |w.faults| + (if w.phase == Idle then 0 else 1) <= 1
  }

  /** The flash memory does not fail, the swap area is not switched off, and no write completes on a page
      that is being written to flash. */
  ghost predicate Calm(w: World, e: Event) {
    (e.Answer? ==> e.x == Good) && (e.SetSwap? ==> e.on) && !WritesVictim(w, e)
  }

  /** A fault that the present page table would raise, or one that is none of the pager's business. */
  ghost predicate UpToDate(s: State, o: Outstanding)
    requires Sized(s)
  {
    Genuine(s, o) || o.kind == Other || (!InRam(o.page) && !InRom(o.page))
  }

  ghost predicate StrictWorld(w: World) {
    Strict(w.s, w.phase) && (w.faults != [] ==> UpToDate(w.s, w.faults[0]))
  }

  lemma TableSame(s: State, s': State, o: Outstanding)
    requires Sized(s) && Sized(s') && s'.mmu == s.mmu && UpToDate(s, o)
    ensures UpToDate(s', o)
  {
    if Genuine(s, o) {
      var mode :| Reach(s, o.page, mode) == Fault(o.kind);
      assert Reach(s', o.page, mode) == Fault(o.kind);
    }
  }

  lemma StrictBegin(c: Codec, s: State, flat: Flat, o: Outstanding, grant: Option<seq<byte>>)
    requires Inv(c, s, flat) && Strict(s, Idle) && UpToDate(s, o) && Posted(o) && Lossless(c)
    ensures Seg(o.page) != FREE_SEG && s.link != Looped
    ensures !ServeHarms(c, s, flat, o, grant)
    ensures var r := Begin(c, s, o.page, o.kind, grant); Strict(r.s, r.phase)
  {
    hide RamMiss, RomMiss, WriteFault, MissFine, WriteFine, ReloadCode, BringIn, FullEntry, OneToOne, Genuine, Named, Imaged;
    hide Kept, Listed, Strict;
    StrictIdle(s);
    NamedOf(s);
    if Handled(s, o) {
      NoReload(s, o);
      hide Reloaded, Handled;
      if InRam(o.page) {
        RamOnly(o.page);
      }
      if o.kind != Other && (InRam(o.page) || InRom(o.page)) {
        GenuineEntry(s, o);
        StrictHandled(c, s, flat, o, grant);
      }
    } else {
      StrictReload(s, o.page);
    }
  }

  lemma StrictReload(s: State, page: nat)
    requires Sized(s) && OneToOne(s) && Listed(s) && Seg(page) != FREE_SEG
    ensures Strict(Reloaded(s, page), Idle)
  {
    hide OneToOne, BringIn, MmuTable.Valid, Permutation;
    BringInRefines(s.mmu, Seg(page));
    OneToOneDependsOn(s, Reloaded(s, page));
  }

  lemma StrictHandled(c: Codec, s: State, flat: Flat, o: Outstanding, grant: Option<seq<byte>>)
    requires Inv(c, s, flat) && OneToOne(s) && Listed(s) && o.kind != Other && (InRam(o.page) || InRom(o.page))
    requires IsMiss(o) ==> FullEntry(s.mmu, o.page) == 0
    requires o.kind == WriteReadOnly ==> !Writable(FullEntry(s.mmu, o.page))
    ensures !ServeHarms(c, s, flat, o, grant)
    ensures var r := Repair(c, s, o.page, o.kind, grant); Strict(r.s, r.phase)
  {
    hide RamMiss, RomMiss, WriteFault, MissFine, WriteFine, FullEntry, OneToOne, Listed, Strict, Named, Imaged, Kept, Handled;
    StrictIdle(s);
    if IsMiss(o) && InRam(o.page) {
      RamOnly(o.page);
      RamMissWaits(c, s, o.page, grant);
      StrictMissFine(c, s, flat, o.page, grant);
      StrictMiss(c, s, o.page, grant);
    } else if IsMiss(o) {
      StrictRomMiss(s, o.page);
    } else if InRam(o.page) {
      WriteFaultWaits(s, o.page);
      StrictWriteFine(c, s, flat, o.page);
      StrictWrite(c, s, o.page);
    }
  }

  lemma StrictMeanwhile(s: State, s': State, phase: Phase)
    requires Strict(s, phase) && Sized(s') && s' == s.(mem := s'.mem, swap := s'.swap) && (s.swap ==> s'.swap)
    requires phase.SaveWrite? ==> s'.mem[ROM_FRAMES + phase.f] == s.mem[ROM_FRAMES + phase.f]
    ensures Strict(s', phase)
  {
    hide FullEntry, OneToOne, Carries, MmuTable.Valid, Permutation;
    OneToOneDependsOn(Settled(s, phase), Settled(s', phase));
    match phase
    case SaveWrite(f, page, buf) => CarriesDependsOn(s, s', f, buf, s.mem[ROM_FRAMES + f]);
    case _ =>
  }

  lemma CarriesDependsOn(s: State, s': State, f: nat, buf: Sector, copy: Page)
    requires Sized(s) && Sized(s') && f < RAM_FRAMES && s.ram.frames[f].dirty && s'.ram == s.ram && s'.ftl == s.ftl
    ensures Carries(s', f, buf, copy) == Carries(s, f, buf, copy)
  {
    hide SetHalf, Half, Permutation, MmuTable.Valid;
    var ind := s.ram.frames[f].page - RAM_BASE;
    assert s'.ftl[SectorOf(ind)] == s.ftl[SectorOf(ind)];
    assert SetHalf(s'.ftl[SectorOf(ind)], HalfOf(ind), copy) == SetHalf(s.ftl[SectorOf(ind)], HalfOf(ind), copy);
  }

  /** A calm event, with one fault at most before and after, does no harm, and the next fault will be up to
      date when it is served. */
  lemma CalmStep(c: Codec, w: World, e: Event)
    requires WorldInv(c, w) && StrictWorld(w) && CanStep(w, e) && Lossless(c) && Calm(w, e)
    requires AtMostOne(w) && AtMostOne(Step(c, w, e))
    ensures Harmless(c, w, e) && StrictWorld(Step(c, w, e))
  {
    hide Inv, Strict, Begin, GoOn, StoreByte, Reach, ServeHarms, AnswerHarms, NoneDepends, UpToDate, Sized, PhaseOk;
    hide WritesVictim, Settled;
    InvShape(c, w);
    match e
    case Serve(grant) =>
      if w.faults != [] {
        IdleInv(c, w);
        StrictBegin(c, w.s, w.flat, w.faults[0], grant);
      }
    case Answer(x) =>
      TurnOf(w, e);
      StrictAnswer(c, w.s, w.phase, w.flat);
    case _ =>
      CalmAccess(c, w, e);
  }

  lemma IdleInv(c: Codec, w: World)
    requires WorldInv(c, w) && w.phase == Idle
    ensures Inv(c, w.s, w.flat) && (w.faults != [] ==> Posted(w.faults[0]))
  {
  }

  lemma CalmAccess(c: Codec, w: World, e: Event)
    requires WorldInv(c, w) && StrictWorld(w) && CanStep(w, e) && Calm(w, e) && !e.Serve? && !e.Answer?
    requires AtMostOne(w) && AtMostOne(Step(c, w, e))
    ensures StrictWorld(Step(c, w, e))
  {
    hide WorldInv, Strict, Reach, UpToDate, PhaseOk, StoreByte;
    var w' := Step(c, w, e);
    if w.phase.SaveWrite? {
      WaitingFrame(c, w);
      VictimStays(c, w, e);
    }
    AccessShape(c, w, e);
    StrictMeanwhile(w.s, w'.s, w.phase);
    if w'.faults != [] {
      PostedUpToDate(c, w, e);
      TableSame(w.s, w'.s, w'.faults[0]);
    }
  }

  lemma AccessShape(c: Codec, w: World, e: Event)
    requires CanStep(w, e) && !e.Serve? && !e.Answer?
    ensures var w' := Step(c, w, e);
            && w'.phase == w.phase && w'.s == w.s.(mem := w'.s.mem, swap := w'.s.swap)
            && w'.s.swap == if e.SetSwap? then e.on else w.s.swap
  {
    hide Reach, Begin, GoOn, Sized;
    if e.Write? && Reach(w.s, e.a / PAGE_SIZE, Store).Done? {
      StoredShape(w.s, e.a, e.b);
    }
  }

  lemma PostedUpToDate(c: Codec, w: World, e: Event)
    requires CanStep(w, e) && !e.Serve? && !e.Answer? && AtMostOne(w) && AtMostOne(Step(c, w, e))
    requires w.faults != [] ==> UpToDate(w.s, w.faults[0])
    ensures var w' := Step(c, w, e); w'.faults != [] ==> UpToDate(w.s, w'.faults[0])
  {
    hide Reach, Begin, GoOn, Sized, StoreByte;
    if e.Read? || e.Write? {
      VirtualSeg(e.a);
    }
  }

  lemma StartedStrict(w: World)
    requires Started(w)
    ensures StrictWorld(w) && AtMostOne(w)
  {
  }

  /** With one fault outstanding at most at any time, a flash memory that does not fail, the swap area left
      on, and no write to a page on its way to flash, nothing does harm: every fault is up to date when it
      is served. */
  lemma {:induction false} OneAtATime(c: Codec, ws: seq<World>, es: seq<Event>, k: nat)
    requires PagerRuns.Run(c, ws, es) && Lossless(c) && k <= |es|
    requires forall i :: 0 <= i <= k ==> AtMostOne(ws[i])
    requires forall i :: 0 <= i < k ==> Calm(ws[i], es[i])
    ensures HarmlessTo(c, ws, es, k) && StrictWorld(ws[k])
  {
    hide WorldInv, Started, Step, CanStep, Lossless, Harmless, Calm, StrictWorld, AtMostOne;
    if k == 0 {
      StartedStrict(ws[0]);
    } else {
      OneAtATime(c, ws, es, k - 1);
      RunInv(c, ws, es, k - 1);
      assert CanStep(ws[k - 1], es[k - 1]) && ws[k - 1 + 1] == Step(c, ws[k - 1], es[k - 1]);
      CalmStep(c, ws[k - 1], es[k - 1]);
    }
  }
}
