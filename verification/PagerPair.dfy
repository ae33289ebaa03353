/** An instruction that needs two pages: what was done for the first is not undone by what the second
    needs. */
module PagerPair {
  import opened Basics
  import opened MmuTable
  import opened MmuAges
  import opened LruList
  import opened Pager
  import opened PagerTheory
  import opened PagerSteps
  import opened PagerAccess
  import opened PagerRuns
  import opened PagerService
  import opened PagerProgress

  // ----- one page, while another is served

  /** If the segment was among the last brought in, it is still resident, and grew older by at most n. */
  ghost predicate AgesBy(m: MmuState, m': MmuState, seg: nat, n: nat)
    requires MmuTable.Valid(m) && MmuTable.Valid(m')
  {
    Resident(m, seg) && Age(m, seg) + n <= 6 ==> Resident(m', seg) && Age(m', seg) <= Age(m, seg) + n
  }

  /** The page's entry is as it was, and its segment no older than that. */
  ghost predicate Spares(s: State, s': State, a: nat, n: nat)
    requires Sized(s) && Sized(s')
  {
    FullEntry(s'.mmu, a) == FullEntry(s.mmu, a) && AgesBy(s.mmu, s'.mmu, Seg(a), n)
  }

  lemma SparesThen(s: State, s1: State, s2: State, a: nat, n1: nat, n2: nat)
    requires Sized(s) && Sized(s1) && Sized(s2) && Spares(s, s1, a, n1) && Spares(s1, s2, a, n2)
    ensures Spares(s, s2, a, n1 + n2)
  {
    hide FullEntry, Resident, Age, Sized;
  }

  lemma SameMmuSpares(s: State, s': State, a: nat, n: nat)
    requires Sized(s) && Sized(s') && s'.mmu == s.mmu
    ensures Spares(s, s', a, n)
  {
    hide FullEntry, Resident, Age, Sized;
  }

  lemma SparesMore(s: State, s': State, a: nat, n: nat, n': nat)
    requires Sized(s) && Sized(s') && Spares(s, s', a, n) && n <= n'
    ensures Spares(s, s', a, n')
  {
    hide FullEntry, Resident, Age, Sized;
  }

  lemma OpAgesBy(m: MmuState, op: Op, seg: nat)
    requires MmuTable.Valid(m) && OpOk(op)
    ensures MmuTable.Valid(Apply(m, op)) && AgesBy(m, Apply(m, op), seg, 1)
  {
    hide Resident, Age, Apply, Brings, Registered, MmuTable.Valid;
    OpValid(m, op);
    OpAges(m, op, seg);
  }

  lemma SetPageSpares(s: State, q: nat, v: nat, a: nat)
    requires Sized(s) && (InRam(q) || InRom(q)) && q != a
    ensures Spares(s, SetPage(s, q, v), a, 1)
  {
    hide FullEntry, Resident, Age, PutEntry, Registered, Permutation, FramesInAreas, MmuTable.Valid, AgesBy;
    AreasRegistered(q);
    SetPageIs(s, q, v);
    OpAgesBy(s.mmu, Map(q, v), Seg(a));
  }

  lemma ReloadSpares(s: State, page: nat, a: nat)
    requires Sized(s) && Seg(page) != FREE_SEG
    ensures Spares(s, Reloaded(s, page), a, 1)
  {
    hide Resident, Age, BringIn, Permutation, FramesInAreas, MmuTable.Valid, AgesBy, FullEntry;
    SizedShaped(s);
    BringInRefines(s.mmu, Seg(page));
    OpAgesBy(s.mmu, Reload(Seg(page)), Seg(a));
    SameTables(s.mmu, BringIn(s.mmu, Seg(page)));
  }

  lemma UnmappedSpares(s: State, was: nat, a: nat)
    requires Sized(s) && (was != 0 ==> InRam(was) || InRom(was)) && was != a
    ensures Spares(s, Unmapped(s, was), a, 1)
  {
    hide Spares, SetPage, Sized;
    if was != 0 {
      SetPageSpares(s, was, 0, a);
    } else {
      SameMmuSpares(s, s, a, 1);
    }
  }

  lemma TakenSpares(s: State, f: nat, page: nat, a: nat)
    requires Sized(s) && f < RAM_FRAMES && InRam(page) && s.ram.frames[f].page != a
    ensures Spares(s, Taken(s, f, page), a, 1)
  {
    hide Spares, Unmapped, Permutation, MmuTable.Valid;
    var s1 := Unmapped(s, s.ram.frames[f].page);
    UnmappedSpares(s, s.ram.frames[f].page, a);
    SameMmuSpares(s1, Taken(s, f, page), a, 0);
    SparesThen(s, s1, Taken(s, f, page), a, 1, 0);
  }

  lemma RomTakenSpares(s: State, f: nat, page: nat, a: nat)
    requires Sized(s) && f < ROM_FRAMES && InRom(page) && s.rom.frames[f].page != a
    ensures Spares(s, RomTaken(s, f, page), a, 1)
  {
    hide Spares, Unmapped, Permutation, MmuTable.Valid;
    var s1 := Unmapped(s, s.rom.frames[f].page);
    UnmappedSpares(s, s.rom.frames[f].page, a);
    SameMmuSpares(s1, RomTaken(s, f, page), a, 0);
    SparesThen(s, s1, RomTaken(s, f, page), a, 1, 0);
  }

  lemma LoadedSpares(s: State, f: nat, page: nat, p: Page, a: nat)
    requires Sized(s) && f < RAM_FRAMES && InRam(page) && page != a
    ensures Spares(s, Loaded(s, f, page, p), a, 1)
  {
    hide Spares, SetPage, EntryOf, Sized;
    var s1 := PutMem(s, ROM_FRAMES + f, p);
    SameMmuSpares(s, s1, a, 0);
    SetPageSpares(s1, page, EntryOf(ROM_FRAMES + f, false), a);
    SparesThen(s, s1, Loaded(s, f, page, p), a, 0, 1);
  }

  lemma RomLoadedSpares(s: State, f: nat, page: nat, p: Page, a: nat)
    requires Sized(s) && f < ROM_FRAMES && InRom(page) && page != a
    ensures Spares(s, RomLoaded(s, f, page, p), a, 1)
  {
    hide Spares, SetPage, EntryOf, Sized;
    var s1 := PutMem(s, f, p);
    SameMmuSpares(s, s1, a, 0);
    SetPageSpares(s1, page, EntryOf(f, false), a);
    SparesThen(s, s1, RomLoaded(s, f, page, p), a, 0, 1);
  }

  // ----- a whole service

  /** How many segments the rest of a service may still bring in. */
  function StillBrings(phase: Phase): (n: nat)
    ensures n <= 2
  {
    match phase
    case Idle => 0
    case SaveRead(_, _) => 2
    case SaveWrite(_, _, _) => 2
    case RamLoad(_, _) => 1
    case RomLoad(_, _) => 1
  }

  /** The service is for another page and takes another page's frame. */
  ghost predicate PassesBy(s: State, phase: Phase, a: nat)
    requires Sized(s) && PhaseOk(s, phase)
  {
    match phase
    case Idle => true
    case SaveRead(f, page) => page != a && s.ram.frames[f].page != a
    case SaveWrite(f, page, _) => page != a && s.ram.frames[f].page != a
    case RamLoad(_, page) => page != a
    case RomLoad(_, page) => page != a
  }

  lemma GiveSpares(c: Codec, s: State, f: nat, page: nat, a: nat)
    requires Sized(s) && f < RAM_FRAMES && InRam(page) && page != a && s.ram.frames[f].page != a
    ensures var r := Give(c, s, f, page);
            && PhaseOk(r.s, r.phase) && PassesBy(r.s, r.phase, a) && Spares(s, r.s, a, 2 - StillBrings(r.phase))
  {
    hide Spares, Taken, Shown, Loaded, HadAtOnce, Sized;
    GiveWaits(c, s, f, page);
    TakenSpares(s, f, page, a);
    var s1 := Taken(s, f, page);
    TakenIs(s, f, page);
    if AtOnce(s, page) {
      ShownIs(c, s1, f, page);
      LoadedSpares(s1, f, page, HadAtOnce(c, s1, f, page), a);
      SparesThen(s, s1, Shown(c, s1, f, page), a, 1, 1);
    }
  }

  lemma GoOnSpares(c: Codec, s: State, phase: Phase, x: Flash, a: nat)
    requires Sized(s) && PhaseOk(s, phase) && phase != Idle && PassesBy(s, phase, a)
    ensures CanGoOn(s, phase)
    ensures var r := GoOn(c, s, phase, x);
            && PhaseOk(r.s, r.phase) && PassesBy(r.s, r.phase, a)
            && StillBrings(r.phase) <= StillBrings(phase) && Spares(s, r.s, a, StillBrings(phase) - StillBrings(r.phase))
  {
    hide Spares, Give, Loaded, RomLoaded, CopiedIn, Half;
    GoOnWaits(c, s, phase, x);
    match phase
    case SaveRead(f, page) =>
      CopyIs(c, s, f, page, x);
      SameMmuSpares(s, s, a, 0);
    case SaveWrite(f, page, buf) =>
      var s1 := WrittenBack(s, f, buf, x);
      SameMmuSpares(s, s1, a, 0);
      GiveSpares(c, s1, f, page, a);
      SparesThen(s, s1, Give(c, s1, f, page).s, a, 0, 2 - StillBrings(Give(c, s1, f, page).phase));
    case RamLoad(f, page) =>
      LoadIs(c, s, f, page, x);
      LoadedSpares(s, f, page, LoadedHalf(s, page, x), a);
    case RomLoad(f, page) =>
      RomLoadIs(c, s, f, page, x);
      RomLoadedSpares(s, f, page, LoadedRomHalf(s, page, x), a);
  }

  lemma {:induction false} ThroughSpares(c: Codec, r: Progress, xs: seq<Flash>, a: nat)
    requires Sized(r.s) && PhaseOk(r.s, r.phase) && PassesBy(r.s, r.phase, a)
    ensures Spares(r.s, Through(c, r, xs).s, a, StillBrings(r.phase))
    decreases |xs|
  {
    hide GoOn, PhaseOk, Sized, CanGoOn, Spares, PassesBy;
    if r.phase == Idle || xs == [] {
      SameMmuSpares(r.s, r.s, a, StillBrings(r.phase));
    } else {
      GoOnWaits(c, r.s, r.phase, xs[0]);
      GoOnSpares(c, r.s, r.phase, xs[0], a);
      var r1 := GoOn(c, r.s, r.phase, xs[0]);
      ThroughSpares(c, r1, xs[1..], a);
      SparesThen(r.s, r1.s, Through(c, r, xs).s, a, StillBrings(r.phase) - StillBrings(r1.phase), StillBrings(r1.phase));
    }
  }

  /** The frame that a miss of the page would take holds page a. */
  ghost predicate TakesFrom(s: State, page: nat, a: nat)
    requires Sized(s)
  {
    || (InRam(page) && VictimPage(s) == a)
    || (InRom(page) && s.rom.frames[s.rom.order[0]].page == a)
  }

  lemma MissSpares(c: Codec, s: State, page: nat, grant: Option<seq<byte>>, a: nat)
    requires Sized(s) && InRam(page) && s.link != Looped && page != a && VictimPage(s) != a
    ensures var r := RamMiss(c, s, page, grant);
            && PhaseOk(r.s, r.phase) && PassesBy(r.s, r.phase, a) && Spares(s, r.s, a, 2 - StillBrings(r.phase))
  {
    hide Spares, Give, Compressed, Touch, Permutation, MmuTable.Valid;
    var f, s0 := Victim(s), Rotated(s);
    RotatedSame(s);
    RamMissWaits(c, s, page, grant);
    SameMmuSpares(s, s0, a, 0);
    if SaveRefused(s, f, grant) || SaveWaits(s, f) {
      SameMmuSpares(s, RamMiss(c, s, page, grant).s, a, 2 - StillBrings(RamMiss(c, s, page, grant).phase));
    } else {
      var s1 := if s.ram.frames[f].dirty then Compressed(c, s0, f, grant.value) else s0;
      assert RamMiss(c, s, page, grant) == Give(c, s1, f, page);
      CompressedFrames(c, s, s1, grant);
      SameMmuSpares(s, s1, a, 0);
      GiveSpares(c, s1, f, page, a);
      SparesThen(s, s1, Give(c, s1, f, page).s, a, 0, 2 - StillBrings(Give(c, s1, f, page).phase));
    }
  }

  lemma CompressedFrames(c: Codec, s: State, s1: State, grant: Option<seq<byte>>)
    requires Sized(s) && s.link != Looped && !SaveRefused(s, Victim(s), grant) && !SaveWaits(s, Victim(s))
    requires s1 == if s.ram.frames[Victim(s)].dirty then Compressed(c, Rotated(s), Victim(s), grant.value) else Rotated(s)
    ensures Sized(s1) && s1.mmu == s.mmu && s1.ram.frames[Victim(s)].page == VictimPage(s)
  {
    hide Touch, Permutation;
    RotatedSame(s);
  }

  lemma RomMissSpares(s: State, page: nat, a: nat)
    requires Sized(s) && InRom(page) && page != a && s.rom.frames[s.rom.order[0]].page != a
    ensures var r := RomMiss(s, page);
            && PhaseOk(r.s, r.phase) && PassesBy(r.s, r.phase, a) && Spares(s, r.s, a, 2 - StillBrings(r.phase))
  {
    hide Spares, RomTaken, Touch, MmuTable.Valid, FramesInAreas;
    RomMissWaits(s, page);
    var f, s0 := s.rom.order[0], RomRotated(s);
    SameMmuSpares(s, s0, a, 0);
    RomTakenSpares(s0, f, page, a);
    SparesThen(s, s0, RomTaken(s0, f, page), a, 0, 1);
  }

  lemma WriteFaultSpares(s: State, page: nat, a: nat)
    requires Sized(s) && InRam(page) && s.link != Looped && page != a
    ensures Spares(s, WriteFault(s, page).s, a, 2)
  {
    hide Spares, SetPage, EntryOf, Found, WriteMark, FramesInAreas, MmuTable.Valid;
    if Found(s, page) >= 0 {
      var f := s.ram.order[Found(s, page)];
      var s0 := WriteMark(s, page, f);
      MarkedMmu(s, page, f);
      SameMmuSpares(s, s0, a, 0);
      var s1 := SetPage(s0, page, 0);
      SetPageSpares(s0, page, 0, a);
      SetPageSpares(s1, page, EntryOf(ROM_FRAMES + f, true), a);
      SparesThen(s, s0, s1, a, 0, 1);
      SparesThen(s, s1, SetPage(s1, page, EntryOf(ROM_FRAMES + f, true)), a, 1, 1);
    } else {
      SameMmuSpares(s, s, a, 2);
    }
  }

  lemma MarkedMmu(s: State, page: nat, f: nat)
    requires Sized(s) && InRam(page) && Holds(s.ram.frames, f, page)
    ensures WriteMark(s, page, f).mmu == s.mmu
  {
  }

  lemma BeginSpares(c: Codec, s: State, page: nat, kind: Kind, grant: Option<seq<byte>>, a: nat)
    requires Sized(s) && s.link != Looped && Seg(page) != FREE_SEG && page != a && !TakesFrom(s, page, a)
    ensures var r := Begin(c, s, page, kind, grant);
            && PhaseOk(r.s, r.phase) && PassesBy(r.s, r.phase, a) && Spares(s, r.s, a, 2 - StillBrings(r.phase))
  {
    hide Spares, RamMiss, RomMiss, WriteFault, Reloaded, ReloadCode, Sized, Reloads;
    BeginWaits(c, s, page, kind, grant);
    ReloadsIff(s, page);
    if Reloads(s, page) {
      ReloadSpares(s, page, a);
      SparesMore(s, Reloaded(s, page), a, 1, 2);
    } else if InRam(page) && (kind == UnmapDab || kind == UnmapPab) {
      RamOnly(page);
      MissSpares(c, s, page, grant, a);
    } else if InRom(page) && (kind == UnmapDab || kind == UnmapPab) {
      RomMissSpares(s, page, a);
    } else if InRam(page) && kind == WriteReadOnly {
      WriteFaultSpares(s, page, a);
      WriteFaultWaits(s, page);
    } else {
      SameMmuSpares(s, s, a, 2);
    }
  }

  /** The service of a fault of one page leaves every other page's entry as it was, but that of the page whose
      frame it takes, and brings at most two segments in. */
  lemma ServedSpares(c: Codec, s: State, page: nat, kind: Kind, grant: Option<seq<byte>>, xs: seq<Flash>, a: nat)
    requires Sized(s) && s.link != Looped && Seg(page) != FREE_SEG && page != a && !TakesFrom(s, page, a)
    ensures Spares(s, Served(c, s, page, kind, grant, xs).s, a, 2)
  {
    hide Spares, Begin, Through, Sized, PassesBy, TakesFrom;
    BeginSpares(c, s, page, kind, grant, a);
    var r := Begin(c, s, page, kind, grant);
    ThroughSpares(c, r, xs, a);
    SparesThen(s, r.s, Through(c, r, xs).s, a, 2 - StillBrings(r.phase), StillBrings(r.phase));
  }

  // ----- several services

  datatype Request = Request(page: nat, kind: Kind, grant: Option<seq<byte>>, xs: seq<Flash>)

  ghost predicate Servable(s: State, q: Request) {
    Sized(s) && s.link != Looped && Seg(q.page) != FREE_SEG
  }

  /** One service after the other. */
  ghost predicate InTurns(c: Codec, ss: seq<State>, qs: seq<Request>) {
    && |ss| == |qs| + 1 && Sized(ss[0])
    && forall i :: 0 <= i < |qs| ==> Servable(ss[i], qs[i]) && ss[i + 1] == ServedBy(c, ss[i], qs[i]).s
  }

  ghost function ServedBy(c: Codec, s: State, q: Request): (r: Progress)
    requires Servable(s, q)
    ensures Sized(r.s)
  {
    Served(c, s, q.page, q.kind, q.grant, q.xs)
  }

  /** Page a is neither served nor loses its frame to a service. */
  ghost predicate LeftAlone(s: State, q: Request, a: nat)
    requires Servable(s, q)
  {
    q.page != a && !TakesFrom(s, q.page, a)
  }

  lemma TurnIs(c: Codec, ss: seq<State>, qs: seq<Request>, i: nat)
    requires InTurns(c, ss, qs) && i < |qs|
    ensures |ss| == |qs| + 1 && Servable(ss[i], qs[i]) && ss[i + 1] == ServedBy(c, ss[i], qs[i]).s && Sized(ss[i + 1])
  {
  }

  lemma {:induction false} OthersSpare(c: Codec, ss: seq<State>, qs: seq<Request>, a: nat, k: nat)
    requires InTurns(c, ss, qs) && k <= |qs|
    requires forall i :: 0 <= i < k && Servable(ss[i], qs[i]) ==> LeftAlone(ss[i], qs[i], a)
    ensures Sized(ss[k]) && Spares(ss[0], ss[k], a, 2 * k)
  {
    hide Spares, Served, Sized, TakesFrom;
    if k == 0 {
      SameMmuSpares(ss[0], ss[0], a, 0);
    } else {
      OthersSpare(c, ss, qs, a, k - 1);
      TurnIs(c, ss, qs, k - 1);
      var q := qs[k - 1];
      assert LeftAlone(ss[k - 1], q, a);
      ServedSpares(c, ss[k - 1], q.page, q.kind, q.grant, q.xs, a);
      SparesThen(ss[0], ss[k - 1], ss[k], a, 2 * (k - 1), 2);
    }
  }

  /** Three services for other pages, however they end, undo nothing of what was done for a page whose segment
      has just been brought in, as long as none of them takes its frame. */
  lemma KeepsProgress(c: Codec, ss: seq<State>, qs: seq<Request>, a: nat, mode: Mode, k: nat)
    requires InTurns(c, ss, qs) && k <= |qs| && k <= 3
    requires forall i :: 0 <= i < k && Servable(ss[i], qs[i]) ==> LeftAlone(ss[i], qs[i], a)
    requires Resident(ss[0].mmu, Seg(a)) ==> Age(ss[0].mmu, Seg(a)) == 0
    ensures Sized(ss[k]) && Needed(ss[k], a, mode) <= Needed(ss[0], a, mode)
  {
    hide InTurns, FullEntry, Resident, Age, Writable, Servable;
    OthersSpare(c, ss, qs, a, k);
  }

  /** A reload leaves the segment the youngest. */
  lemma ReloadIsYoungest(c: Codec, s: State, page: nat, kind: Kind, grant: Option<seq<byte>>, xs: seq<Flash>)
    requires Sized(s) && s.link != Looped && Seg(page) != FREE_SEG && Reloads(s, page)
    ensures var m := Served(c, s, page, kind, grant, xs).s.mmu; Resident(m, Seg(page)) && Age(m, Seg(page)) == 0
  {
    hide Repair, FullEntry, Permutation, FramesInAreas, MmuTable.Valid, BringIn, Age, Resident;
    SizedShaped(s);
    ReloadsIff(s, page);
    ThroughIdle(c, Begin(c, s, page, kind, grant), xs);
    OpValid(s.mmu, Reload(Seg(page)));
    OpAges(s.mmu, Reload(Seg(page)), Seg(page));
  }

  /** Not so for a segment brought in longer ago: the reload of another evicts it iff it is the oldest. */
  lemma ReloadEvictsIff(c: Codec, s: State, page: nat, kind: Kind, grant: Option<seq<byte>>, xs: seq<Flash>, a: nat)
    requires Sized(s) && s.link != Looped && Seg(page) != FREE_SEG && Reloads(s, page)
    requires Resident(s.mmu, Seg(a)) && Seg(a) != Seg(page)
    ensures !Resident(Served(c, s, page, kind, grant, xs).s.mmu, Seg(a)) <==> Age(s.mmu, Seg(a)) == 6
  {
    hide Repair, FullEntry, Permutation, FramesInAreas, MmuTable.Valid, BringIn, Age, Resident;
    SizedShaped(s);
    ReloadsIff(s, page);
    ThroughIdle(c, Begin(c, s, page, kind, grant), xs);
    OpValid(s.mmu, Reload(Seg(page)));
    OpAges(s.mmu, Reload(Seg(page)), Seg(a));
  }

  /** An instruction that needs page b as well as page a, whose segment has just been brought in. The services
      that b's access needs come to an end, with nothing undone for a: if both needed nothing else, the
      instruction completes. */
  lemma SecondCompletes(c: Codec, ss: seq<State>, qs: seq<Request>, a: nat, mode: Mode, b: nat, modeB: Mode)
    requires InTurns(c, ss, qs) && (InRam(b) || InRom(b))
    requires forall i :: 0 <= i < |qs| && Servable(ss[i], qs[i]) ==>
               LeftAlone(ss[i], qs[i], a) && Asked(c, ss[i], qs[i], b, modeB)
    requires Resident(ss[0].mmu, Seg(a)) && Age(ss[0].mmu, Seg(a)) == 0
    ensures Sized(ss[|qs|]) && |qs| + Needed(ss[|qs|], b, modeB) <= Needed(ss[0], b, modeB) <= 3
    ensures Needed(ss[|qs|], a, mode) <= Needed(ss[0], a, mode)
  {
    hide InTurns, FullEntry, Resident, Age, Servable, Needed, LeftAlone, Asked;
    NearerEach(c, ss, qs, b, modeB, |qs|);
    KeepsProgress(c, ss, qs, a, mode, |qs|);
  }

  /** The service is for a fault that the access to b raises, and resumes its task. */
  ghost predicate Asked(c: Codec, s: State, q: Request, b: nat, mode: Mode)
    requires Servable(s, q)
  {
    && q.page == b && |q.xs| >= 3 && Named(s) && Reach(s, b, mode) == Fault(q.kind)
    && ServedBy(c, s, q).verdict == Some(Resume)
  }

  lemma {:induction false} NearerEach(c: Codec, ss: seq<State>, qs: seq<Request>, b: nat, mode: Mode, k: nat)
    requires InTurns(c, ss, qs) && (InRam(b) || InRom(b)) && k <= |qs|
    requires forall i :: 0 <= i < k && Servable(ss[i], qs[i]) ==> Asked(c, ss[i], qs[i], b, mode)
    ensures Sized(ss[0]) && Sized(ss[k]) && k + Needed(ss[k], b, mode) <= Needed(ss[0], b, mode)
  {
    hide Served, Sized, Needed, Reach, Named;
    if k > 0 {
      NearerEach(c, ss, qs, b, mode, k - 1);
      TurnIs(c, ss, qs, k - 1);
      var q := qs[k - 1];
      assert Asked(c, ss[k - 1], q, b, mode);
      ServiceHelps(c, ss[k - 1], b, mode, q.kind, q.grant, q.xs);
    }
  }
}
