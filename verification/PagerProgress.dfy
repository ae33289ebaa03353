/** What a service makes of a fault, however old, and how much nearer it brings the access to completion,
    without undoing what was done for another. */
module PagerProgress {
  import opened Basics
  import opened MmuTable
  import opened MmuAges
  import opened LruList
  import opened Pager
  import opened PagerTheory
  import opened PagerSteps
  import opened PagerAccess
  import opened PagerRuns
  import opened PagerService

  /** How many services an access still needs. */
  ghost function Needed(s: State, page: nat, mode: Mode): (n: nat)
    requires Sized(s)
    ensures n <= 3
  {
    var v := FullEntry(s.mmu, page);
    (if Resident(s.mmu, Seg(page)) then 0 else 1)
    + (if v == 0 then (if mode == Store then 2 else 1)
       else if mode == Store && !Writable(v) then 1 else 0)
  }

  /** An access completes as soon as it needs no service. */
  lemma CompletesIff(s: State, page: nat, mode: Mode)
    requires Sized(s) && (InRam(page) || InRom(page))
    ensures Reach(s, page, mode).Done? <==> Needed(s, page, mode) == 0
  {
    hide Registered, FullEntry, Sized;
    AreasRegistered(page);
    WalkOf(s, page);
  }

  lemma WalkOf(s: State, page: nat)
    requires Sized(s) && Registered(Seg(page))
    ensures Walk(s.mmu, page) == if Resident(s.mmu, Seg(page)) then Entry(FullEntry(s.mmu, page)) else SegmentFault
  {
    WalkRefines(s.mmu, page);
  }

  /** What the page table says where a fault was raised and no reload helps. */
  lemma GenuineEntry(s: State, o: Outstanding)
    requires Sized(s) && Named(s) && Genuine(s, o) && Handled(s, o)
    ensures Reloaded(s, o.page) == s
    ensures IsMiss(o) ==> FullEntry(s.mmu, o.page) == 0
    ensures o.kind == WriteReadOnly ==>
              FullEntry(s.mmu, o.page) != 0 && !Writable(FullEntry(s.mmu, o.page)) && (InRam(o.page) || InRom(o.page))
    ensures o.kind != Other
  {
    hide Registered, MmuTable.Valid, Permutation, FullEntry, Walk;
    TableSays(s, o.page);
    if FullEntry(s.mmu, o.page) != 0 {
      assert MappedFrom(s, o.page);
    }
  }

  /** Where no reload helps, the walk gives the full table's entry; or the page is of no area. */
  lemma TableSays(s: State, page: nat)
    requires Sized(s) && ReloadCode(s.mmu, Seg(page)) != 2 && 0 < Seg(page) < FREE_SEG
    ensures if Registered(Seg(page)) then Walk(s.mmu, page) == Entry(FullEntry(s.mmu, page))
            else Walk(s.mmu, page) == SegmentFault && !InRam(page) && !InRom(page)
    ensures BringIn(s.mmu, Seg(page)) == s.mmu
  {
    if InRam(page) || InRom(page) {
      AreasRegistered(page);
    }
    if Registered(Seg(page)) {
      FindSegOfRegistered(s.mmu, Seg(page));
      WalkRefines(s.mmu, page);
    } else {
      WalkUnregistered(s.mmu, page);
    }
  }

  /** A mapped page is in some frame. */
  lemma MappedIsFound(s: State, page: nat)
    requires Sized(s) && Named(s) && InRam(page) && FullEntry(s.mmu, page) != 0
    ensures Found(s, page) >= 0
  {
    hide FullEntry, Found;
    assert MappedFrom(s, page);
    assert Holds(s.ram.frames, FrameOf(FullEntry(s.mmu, page)) - ROM_FRAMES, page);
    FoundIff(s, page);
  }

  ghost predicate Mapped(s: State, page: nat)
    requires Sized(s)
  {
    FullEntry(s.mmu, page) != 0 && Resident(s.mmu, Seg(page))
  }

  /** The service is for the page, or it is over and the page is mapped. */
  ghost predicate ServesPage(r: Progress, page: nat)
    requires Sized(r.s)
  {
    match r.phase
    case Idle => Mapped(r.s, page)
    case SaveRead(_, q) => q == page
    case SaveWrite(_, q, _) => q == page
    case RamLoad(_, q) => q == page
    case RomLoad(_, _) => false
  }

  lemma GiveServes(c: Codec, s: State, f: nat, page: nat)
    requires Sized(s) && f < RAM_FRAMES && InRam(page)
    ensures ServesPage(Give(c, s, f, page), page)
  {
    hide FullEntry, EntryOf, Taken, Loaded, Shown, Reach, Resident, HadAtOnce;
    if AtOnce(s, page) {
      TakenIs(s, f, page);
      var s1 := Taken(s, f, page);
      ShownIs(c, s1, f, page);
      LoadedReaches(s1, f, page, HadAtOnce(c, s1, f, page));
      EntryNotNull(ROM_FRAMES + f, false);
    }
  }

  lemma GoOnServes(c: Codec, s: State, phase: Phase, page: nat, x: Flash)
    requires Sized(s) && PhaseOk(s, phase) && phase != Idle && InRam(page) && ServesPage(Progress(s, phase, None), page)
    ensures CanGoOn(s, phase) && ServesPage(GoOn(c, s, phase, x), page)
  {
    hide FullEntry, EntryOf, Give, Loaded, Reach, Resident, WrittenBack, CopiedIn;
    GoOnWaits(c, s, phase, x);
    match phase
    case SaveRead(f, _) => CopyIs(c, s, f, page, x);
    case SaveWrite(f, _, buf) => GiveServes(c, WrittenBack(s, f, buf, x), f, page);
    case RamLoad(f, _) =>
      LoadIs(c, s, f, page, x);
      LoadedReaches(s, f, page, LoadedHalf(s, page, x));
      EntryNotNull(ROM_FRAMES + f, false);
  }

  lemma {:induction false} ThroughServes(c: Codec, r: Progress, page: nat, xs: seq<Flash>)
    requires Sized(r.s) && PhaseOk(r.s, r.phase) && InRam(page) && ServesPage(r, page)
    ensures ServesPage(Through(c, r, xs), page)
    decreases |xs|
  {
    hide GoOn, PhaseOk, Sized, CanGoOn, Mapped;
    if r.phase != Idle && xs != [] {
      GoOnWaits(c, r.s, r.phase, xs[0]);
      GoOnServes(c, r.s, r.phase, page, xs[0]);
      ThroughServes(c, GoOn(c, r.s, r.phase, xs[0]), page, xs[1..]);
    }
  }

  lemma MissServes(c: Codec, s: State, page: nat, grant: Option<seq<byte>>)
    requires Sized(s) && InRam(page) && s.link != Looped && !SaveRefused(s, Victim(s), grant)
    ensures ServesPage(RamMiss(c, s, page, grant), page)
  {
    hide Give, Compressed, Touch, Mapped, Permutation, MmuTable.Valid;
    var f, s0 := Victim(s), Rotated(s);
    RotatedSame(s);
    if !SaveWaits(s, f) {
      var s1 := if s.ram.frames[f].dirty then Compressed(c, s0, f, grant.value) else s0;
      assert RamMiss(c, s, page, grant) == Give(c, s1, f, page);
      GiveServes(c, s1, f, page);
    }
  }

  lemma MappedWhenServed(r: Progress, page: nat)
    requires Sized(r.s) && ServesPage(r, page) && r.phase == Idle
    ensures Mapped(r.s, page)
  {
  }

  /** A miss that is not refused ends with the page mapped. */
  lemma MissMaps(c: Codec, s: State, page: nat, grant: Option<seq<byte>>, xs: seq<Flash>)
    requires Sized(s) && InRam(page) && s.link != Looped && |xs| >= 3 && !SaveRefused(s, Victim(s), grant)
    ensures var r := RamMiss(c, s, page, grant); PhaseOk(r.s, r.phase) && Mapped(Through(c, r, xs).s, page)
  {
    hide Through, PhaseOk, Mapped, RamMiss, Sized, SaveWaits, SaveRefused, ServesPage;
    RamMissWaits(c, s, page, grant);
    MissServes(c, s, page, grant);
    ThroughServes(c, RamMiss(c, s, page, grant), page, xs);
    ResumesIff(c, s, page, grant, xs);
    MappedWhenServed(Through(c, RamMiss(c, s, page, grant), xs), page);
  }

  lemma WriteFaultMaps(s: State, page: nat)
    requires Sized(s) && InRam(page) && s.link != Looped && Found(s, page) >= 0
    ensures var s' := WriteFault(s, page).s; Mapped(s', page) && Writable(FullEntry(s'.mmu, page))
  {
    hide FullEntry, EntryOf, Found, WriteAt;
    var f := s.ram.order[Found(s, page)];
    WriteFaultDirties(s, page);
    EntryFields(ROM_FRAMES + f, true);
    EntryNotNull(ROM_FRAMES + f, true);
    WriteAtResident(s, page, f);
  }

  lemma WriteAtResident(s: State, page: nat, f: nat)
    requires Sized(s) && InRam(page) && Holds(s.ram.frames, f, page)
    ensures Resident(WriteAt(s, page, f).mmu, Seg(page))
  {
    hide WriteMark, PutEntry;
    AreasRegistered(page);
    var s1 := SetPage(WriteMark(s, page, f), page, 0);
    PutEntryRefines(s1.mmu, page, EntryOf(ROM_FRAMES + f, true));
  }

  /** A ROM miss always ends with the page mapped, and resumes its task. */
  lemma RomMissMaps(c: Codec, s: State, page: nat, xs: seq<Flash>)
    requires Sized(s) && InRom(page) && xs != []
    ensures var r := RomMiss(s, page);
            && PhaseOk(r.s, r.phase)
            && var r' := Through(c, r, xs);
               r'.phase == Idle && r'.verdict == Some(Resume) && Mapped(r'.s, page) && !Writable(FullEntry(r'.s.mmu, page))
  {
    hide RomTaken, FullEntry, EntryOf, Through, GoOn, RomLoaded, Reach, Resident, Sized;
    RomMissWaits(s, page);
    RomMissPhase(s, page);
    var r := RomMiss(s, page);
    var f := r.phase.f;
    ThroughOne(c, r, xs);
    RomLoadIs(c, r.s, f, page, xs[0]);
    var p := LoadedRomHalf(r.s, page, xs[0]);
    RomLoadedReaches(r.s, f, page, p);
    EntryNotNull(f, false);
    EntryFields(f, false);
    ThroughIdle(c, Over(RomLoaded(r.s, f, page, p), Resume), xs[1..]);
  }

  lemma RomMissPhase(s: State, page: nat)
    requires Sized(s) && InRom(page)
    ensures RomMiss(s, page).phase == RomLoad(s.rom.order[0], page) && s.rom.order[0] < ROM_FRAMES
  {
    hide RomTaken, RomRotated;
  }

  /** Each service that resumes the task brings its access nearer to completion, whatever the flash memory
      answers: at most three services. A task accessing its memory is never left without a verdict. It is
      reported if a page could not be saved, or for a store to a page of ROM once that is mapped. */
  lemma ServiceHelps(c: Codec, s: State, page: nat, mode: Mode, kind: Kind, grant: Option<seq<byte>>, xs: seq<Flash>)
    requires Sized(s) && Named(s) && s.link != Looped && (InRam(page) || InRom(page))
    requires Reach(s, page, mode) == Fault(kind) && |xs| >= 3
    ensures Seg(page) != FREE_SEG
    ensures var r := Served(c, s, page, kind, grant, xs);
            && r.phase == Idle
            && (r.verdict == Some(Resume) ==> Needed(r.s, page, mode) < Needed(s, page, mode))
            && (InRam(page) ==> r.verdict in {Some(Resume), Some(Kill(ZramOom)), Some(Kill(SwapNotEnabled))})
            && (InRom(page) ==> r.verdict == Some(if mode == Store && Mapped(s, page) then Kill(NotWritable) else Resume))
  {
    hide Named, FullEntry, EntryOf, Reach, Through, Begin, Mapped, Needed, Sized, ReloadCode;
    AreasRegistered(page);
    SizedShaped(s);
    BeginWaits(c, s, page, kind, grant);
    ThroughEnds(c, Begin(c, s, page, kind, grant), xs);
    if InRom(page) {
      RomOnly(page);
    }
    if ReloadCode(s.mmu, Seg(page)) == 2 {
      ReloadHelps(c, s, page, mode, kind, grant);
      ThroughIdle(c, Begin(c, s, page, kind, grant), xs);
    } else if InRam(page) {
      RepairHelps(c, s, page, mode, kind, grant, xs);
    } else {
      RomRepairHelps(c, s, page, mode, kind, grant, xs);
    }
  }

  lemma RomRepairHelps(c: Codec, s: State, page: nat, mode: Mode, kind: Kind, grant: Option<seq<byte>>, xs: seq<Flash>)
    requires Sized(s) && Named(s) && s.link != Looped && InRom(page) && Reach(s, page, mode) == Fault(kind) && |xs| >= 3
    requires 0 < Seg(page) < FREE_SEG && ReloadCode(s.mmu, Seg(page)) != 2
    ensures var r := Begin(c, s, page, kind, grant);
            && PhaseOk(r.s, r.phase)
            && var r' := Through(c, r, xs);
               && r'.verdict == Some(if mode == Store && Mapped(s, page) then Kill(NotWritable) else Resume)
               && (r'.verdict == Some(Resume) ==> Needed(r'.s, page, mode) < Needed(s, page, mode))
  {
    hide Named, FullEntry, EntryOf, ReloadCode, Reach, RamMiss, RomMiss, WriteFault, BringIn, Through, PhaseOk, Found;
    hide Begin, Needed, Writable, Sized, Resident;
    var o := Outstanding(page, kind);
    assert Genuine(s, o);
    GenuineEntry(s, o);
    ReachKind(s, page, mode);
    RomBegins(c, s, page, kind, grant);
    NeededAtLeast(s, page, mode);
    NotReloaded(s, page);
    if kind == WriteReadOnly {
      ThroughIdle(c, Over(s, Kill(NotWritable)), xs);
    } else {
      RomMissMaps(c, s, page, xs);
      NeededWhenMapped(Through(c, RomMiss(s, page), xs).s, page, mode);
    }
  }

  /** Where no reload helps, the segment is resident. */
  lemma NotReloaded(s: State, page: nat)
    requires Sized(s) && (InRam(page) || InRom(page)) && ReloadCode(s.mmu, Seg(page)) != 2
    ensures Resident(s.mmu, Seg(page))
  {
    AreasRegistered(page);
    FindSegOfRegistered(s.mmu, Seg(page));
  }

  lemma RomBegins(c: Codec, s: State, page: nat, kind: Kind, grant: Option<seq<byte>>)
    requires Sized(s) && s.link != Looped && InRom(page) && Seg(page) != FREE_SEG && ReloadCode(s.mmu, Seg(page)) != 2
    ensures kind == UnmapDab || kind == UnmapPab ==> Begin(c, s, page, kind, grant) == RomMiss(s, page)
    ensures kind == WriteReadOnly ==> Begin(c, s, page, kind, grant) == Over(s, Kill(NotWritable))
  {
    hide RamMiss, RomMiss, WriteFault, Sized;
    RomOnly(page);
  }

  lemma SizedShaped(s: State)
    requires Sized(s)
    ensures Shaped(s.mmu)
  {
  }

  lemma RomOnly(page: nat)
    requires InRom(page)
    ensures !InRam(page)
  {
  }

  lemma ReloadHelps(c: Codec, s: State, page: nat, mode: Mode, kind: Kind, grant: Option<seq<byte>>)
    requires Sized(s) && (InRam(page) || InRom(page)) && Seg(page) != FREE_SEG && s.link != Looped
    requires ReloadCode(s.mmu, Seg(page)) == 2
    ensures var r := Begin(c, s, page, kind, grant);
            r.phase == Idle && r.verdict == Some(Resume) && Needed(r.s, page, mode) < Needed(s, page, mode)
    ensures !Mapped(s, page)
  {
    hide FullEntry, Resident, BringIn, Repair, Permutation, MmuTable.Valid, Writable, Reloaded;
    AbsentBefore(s, page);
    ReloadedState(s, page);
  }

  lemma AbsentBefore(s: State, page: nat)
    requires Sized(s) && ReloadCode(s.mmu, Seg(page)) == 2
    ensures !Resident(s.mmu, Seg(page))
  {
  }

  lemma ReloadedState(s: State, page: nat)
    requires Sized(s) && (InRam(page) || InRom(page))
    ensures Seg(page) != FREE_SEG
    ensures var s' := Reloaded(s, page);
            && Sized(s') && s' == s.(mmu := s'.mmu) && Resident(s'.mmu, Seg(page))
            && forall q :: FullEntry(s'.mmu, q) == FullEntry(s.mmu, q)
  {
    AreasRegistered(page);
    BringInRefines(s.mmu, Seg(page));
  }

  lemma BeginHandled(c: Codec, s: State, page: nat, kind: Kind, grant: Option<seq<byte>>)
    requires Sized(s) && s.link != Looped && InRam(page) && Seg(page) != FREE_SEG && ReloadCode(s.mmu, Seg(page)) != 2
    ensures kind == UnmapDab || kind == UnmapPab ==> Begin(c, s, page, kind, grant) == RamMiss(c, s, page, grant)
    ensures kind == WriteReadOnly ==> Begin(c, s, page, kind, grant) == WriteFault(s, page)
  {
    hide RamMiss, RomMiss, WriteFault, Sized;
    RamOnly(page);
  }

  lemma NeededWhenMapped(s: State, page: nat, mode: Mode)
    requires Sized(s) && Mapped(s, page)
    ensures Needed(s, page, mode) == if mode == Store && !Writable(FullEntry(s.mmu, page)) then 1 else 0
  {
    hide FullEntry, Resident, Writable, Sized;
  }

  lemma NeededAtLeast(s: State, page: nat, mode: Mode)
    requires Sized(s)
    ensures FullEntry(s.mmu, page) == 0 ==> Needed(s, page, mode) >= if mode == Store then 2 else 1
    ensures mode == Store && !Writable(FullEntry(s.mmu, page)) ==> Needed(s, page, mode) >= 1
  {
    hide FullEntry, Resident, Writable, Sized;
  }

  lemma RepairHelps(c: Codec, s: State, page: nat, mode: Mode, kind: Kind, grant: Option<seq<byte>>, xs: seq<Flash>)
    requires Sized(s) && Named(s) && s.link != Looped && InRam(page) && Reach(s, page, mode) == Fault(kind) && |xs| >= 3
    requires 0 < Seg(page) < FREE_SEG && ReloadCode(s.mmu, Seg(page)) != 2
    ensures var r := Begin(c, s, page, kind, grant);
            && PhaseOk(r.s, r.phase)
            && (r.phase == Idle ==> r.verdict in {Some(Resume), Some(Kill(ZramOom)), Some(Kill(SwapNotEnabled))})
            && var r' := Through(c, r, xs);
               (r'.verdict == Some(Resume) ==> Needed(r'.s, page, mode) < Needed(s, page, mode))
  {
    hide Named, FullEntry, EntryOf, ReloadCode, Reach, RamMiss, RomMiss, WriteFault, BringIn, Through, PhaseOk, Found;
    hide Begin, Needed, Mapped, Writable, Sized, SaveRefused, SaveWaits;
    var o := Outstanding(page, kind);
    assert Genuine(s, o);
    GenuineEntry(s, o);
    ReachKind(s, page, mode);
    BeginHandled(c, s, page, kind, grant);
    NeededAtLeast(s, page, mode);
    if kind == WriteReadOnly {
      MappedIsFound(s, page);
      WriteFaultWaits(s, page);
      WriteFaultMaps(s, page);
      ThroughIdle(c, WriteFault(s, page), xs);
      NeededWhenMapped(WriteFault(s, page).s, page, mode);
    } else {
      RamMissWaits(c, s, page, grant);
      SavedOrNot(s, grant);
      ResumesIff(c, s, page, grant, xs);
      if !SaveRefused(s, Victim(s), grant) {
        MissMaps(c, s, page, grant, xs);
        NeededWhenMapped(Through(c, RamMiss(c, s, page, grant), xs).s, page, mode);
      }
    }
  }

  lemma ReachKind(s: State, page: nat, mode: Mode)
    requires Sized(s)
    ensures Reach(s, page, mode) != Fault(Other)
    ensures mode != Store ==> Reach(s, page, mode) != Fault(WriteReadOnly)
    ensures mode == Store ==> Reach(s, page, mode) != Fault(UnmapPab)
  {
  }

  // ----- every fault, however old

  /** Its segment is one of the registered ones and not resident. */
  ghost predicate Reloads(s: State, page: nat)
    requires Sized(s)
  {
    Registered(Seg(page)) && !Resident(s.mmu, Seg(page))
  }

  lemma ReloadsIff(s: State, page: nat)
    requires Sized(s) && Seg(page) != FREE_SEG
    ensures ReloadCode(s.mmu, Seg(page)) == 2 <==> Reloads(s, page)
    ensures !Reloads(s, page) ==> Reloaded(s, page) == s
  {
    FindSegOfRegistered(s.mmu, Seg(page));
    if !Reloads(s, page) {
      NoReload(s, Outstanding(page, Other));
    }
  }

  lemma ReloadServed(c: Codec, s: State, page: nat, kind: Kind, grant: Option<seq<byte>>, xs: seq<Flash>)
    requires Sized(s) && s.link != Looped && Seg(page) != FREE_SEG && Reloads(s, page)
    ensures var r := Served(c, s, page, kind, grant, xs);
            && r == Over(s.(mmu := r.s.mmu), Resume) && Resident(r.s.mmu, Seg(page))
            && forall q :: FullEntry(r.s.mmu, q) == FullEntry(s.mmu, q)
  {
    hide Repair, FullEntry, Permutation, FramesInAreas, MmuTable.Valid, BringIn;
    SizedShaped(s);
    ReloadsIff(s, page);
    BringInRefines(s.mmu, Seg(page));
    ThroughIdle(c, Begin(c, s, page, kind, grant), xs);
    SameTables(s.mmu, BringIn(s.mmu, Seg(page)));
  }

  lemma SameTables(m: MmuState, m': MmuState)
    requires MmuTable.Valid(m) && MmuTable.Valid(m') && m'.l2 == m.l2
    ensures forall q :: FullEntry(m', q) == FullEntry(m, q)
  {
  }

  /** What the service of a fault comes to, whatever the page table says by then. A registered segment that is
      not resident is brought in, with nothing else changed, and the task resumes. Otherwise a page of no
      area is reported, and so is a write to ROM, with nothing changed; a task resumes iff its page could be
      had, or the page it writes to is in some frame, and then its access completes. */
  lemma Verdicts(c: Codec, s: State, page: nat, kind: Kind, grant: Option<seq<byte>>, xs: seq<Flash>)
    requires Sized(s) && s.link != Looped && Seg(page) != FREE_SEG && |xs| >= 3
    ensures var r, miss := Served(c, s, page, kind, grant, xs), kind == UnmapDab || kind == UnmapPab;
            && r.phase == Idle
            && (Reloads(s, page) ==> r == Over(s.(mmu := r.s.mmu), Resume) && Resident(r.s.mmu, Seg(page)))
            && (!Reloads(s, page) ==>
                  && (!InRam(page) && !InRom(page) <==> r.verdict == Some(Kill(NotMapped)))
                  && (InRom(page) && kind == WriteReadOnly <==> r.verdict == Some(Kill(NotWritable)))
                  && (miss && InRam(page) && SaveRefused(s, Victim(s), grant) <==>
                        r.verdict in {Some(Kill(ZramOom)), Some(Kill(SwapNotEnabled))})
                  && (r.verdict == Some(Resume) <==>
                        || (miss && (InRom(page) || (InRam(page) && !SaveRefused(s, Victim(s), grant))))
                        || (kind == WriteReadOnly && InRam(page) && Found(s, page) >= 0))
                  && (r.verdict == Some(Resume) ==> Needed(r.s, page, if miss then Load else Store) == 0)
                  && (r.verdict in {Some(Kill(NotMapped)), Some(Kill(NotWritable)), Some(Hang)} ==> r.s == s))
  {
    hide Served, Reloads, Found, SaveRefused, Needed, Sized;
    if Reloads(s, page) {
      ReloadServed(c, s, page, kind, grant, xs);
    } else if !InRam(page) && !InRom(page) {
      NothingServed(c, s, page, kind, grant, xs);
    } else if kind == Other {
      NothingServed(c, s, page, kind, grant, xs);
    } else if InRom(page) {
      RomOnly(page);
      RomServed(c, s, page, kind, grant, xs);
    } else {
      RamOnly(page);
      RamServed(c, s, page, kind, grant, xs);
    }
  }

  lemma NothingServed(c: Codec, s: State, page: nat, kind: Kind, grant: Option<seq<byte>>, xs: seq<Flash>)
    requires Sized(s) && s.link != Looped && Seg(page) != FREE_SEG && !Reloads(s, page)
    requires (!InRam(page) && !InRom(page)) || kind == Other
    ensures Served(c, s, page, kind, grant, xs) == Over(s, if !InRam(page) && !InRom(page) then Kill(NotMapped) else Hang)
  {
    hide RamMiss, RomMiss, WriteFault, Sized, Reloads, Reloaded;
    ReloadsIff(s, page);
    ThroughIdle(c, Begin(c, s, page, kind, grant), xs);
  }

  lemma RomServed(c: Codec, s: State, page: nat, kind: Kind, grant: Option<seq<byte>>, xs: seq<Flash>)
    requires Sized(s) && s.link != Looped && Seg(page) != FREE_SEG && !Reloads(s, page) && InRom(page) && kind != Other
    requires |xs| >= 3
    ensures var r := Served(c, s, page, kind, grant, xs);
            if kind == WriteReadOnly then r == Over(s, Kill(NotWritable))
            else r.phase == Idle && r.verdict == Some(Resume) && Needed(r.s, page, Load) == 0
  {
    hide RamMiss, RomMiss, WriteFault, Sized, Reloads, Reloaded, Begin, Through, Needed, Mapped, Writable;
    ReloadsIff(s, page);
    RomBegins(c, s, page, kind, grant);
    BeginWaits(c, s, page, kind, grant);
    if kind == WriteReadOnly {
      ThroughIdle(c, Over(s, Kill(NotWritable)), xs);
    } else {
      RomMissMaps(c, s, page, xs);
      NeededWhenMapped(Through(c, RomMiss(s, page), xs).s, page, Load);
    }
  }

  lemma RamServed(c: Codec, s: State, page: nat, kind: Kind, grant: Option<seq<byte>>, xs: seq<Flash>)
    requires Sized(s) && s.link != Looped && Seg(page) != FREE_SEG && !Reloads(s, page) && InRam(page) && kind != Other
    requires |xs| >= 3
    ensures var r := Served(c, s, page, kind, grant, xs);
            && r.phase == Idle
            && if kind == WriteReadOnly then
                 if Found(s, page) >= 0 then r.verdict == Some(Resume) && Needed(r.s, page, Store) == 0 else r == Over(s, Hang)
               else if SaveRefused(s, Victim(s), grant) then r.verdict in {Some(Kill(ZramOom)), Some(Kill(SwapNotEnabled))}
               else r.verdict == Some(Resume) && Needed(r.s, page, Load) == 0
  {
    hide RamMiss, RomMiss, WriteFault, Sized, Reloads, Reloaded, Begin, Through, Needed, Mapped, Writable, Found;
    hide SaveRefused, SaveWaits;
    ReloadsIff(s, page);
    BeginHandled(c, s, page, kind, grant);
    BeginWaits(c, s, page, kind, grant);
    ThroughEnds(c, Begin(c, s, page, kind, grant), xs);
    if kind == WriteReadOnly {
      WriteServed(c, s, page, xs);
    } else {
      RamMissWaits(c, s, page, grant);
      ResumesIff(c, s, page, grant, xs);
      SavedOrNot(s, grant);
      if !SaveRefused(s, Victim(s), grant) {
        MissMaps(c, s, page, grant, xs);
        NeededWhenMapped(Through(c, RamMiss(c, s, page, grant), xs).s, page, Load);
      } else {
        ThroughIdle(c, RamMiss(c, s, page, grant), xs);
      }
    }
  }

  lemma WriteServed(c: Codec, s: State, page: nat, xs: seq<Flash>)
    requires Sized(s) && InRam(page) && s.link != Looped
    ensures var r := WriteFault(s, page);
            && PhaseOk(r.s, r.phase) && Through(c, r, xs) == r
            && if Found(s, page) >= 0 then r.verdict == Some(Resume) && Needed(r.s, page, Store) == 0 else r == Over(s, Hang)
  {
    hide Found, WriteFault, Needed, Sized, FullEntry, Mapped, Writable;
    WriteFaultDirties(s, page);
    ThroughIdle(c, WriteFault(s, page), xs);
    if Found(s, page) >= 0 {
      WriteFaultMaps(s, page);
      NeededWhenMapped(WriteFault(s, page).s, page, Store);
    }
  }
}
