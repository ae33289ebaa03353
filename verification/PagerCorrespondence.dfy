/** The correspondence of frames and mappings: no page in two frames. A miss that is served when it is out of
    date breaks it; with one fault at a time nothing does, and then nothing does harm either, but for a
    write to a page on its way to flash. */
module PagerCorrespondence {
  import opened Basics
  import opened MmuTable
  import opened LruList
  import opened Pager
  import opened PagerTheory
  import opened PagerSteps
  import opened PagerAccess
  import opened PagerRuns
  import opened PagerService
  import opened PagerProgress

  ghost predicate RamMapped(s: State)
    requires Sized(s)
  {
    forall f :: 0 <= f < RAM_FRAMES && s.ram.frames[f].page != 0 ==>
      FullEntry(s.mmu, s.ram.frames[f].page) == EntryOf(ROM_FRAMES + f, s.ram.frames[f].dirty)
  }

  ghost predicate RomMapped(s: State)
    requires Sized(s)
  {
    forall f :: 0 <= f < ROM_FRAMES && s.rom.frames[f].page != 0 ==> FullEntry(s.mmu, s.rom.frames[f].page) == EntryOf(f, false)
  }

  /** A frame's page is mapped to it and to no other, and a RAM page is mapped writable exactly when its frame
      is dirty. */
  ghost predicate OneToOne(s: State)
    requires Sized(s)
  {
    RamMapped(s) && RomMapped(s) && Named(s)
  }

  // ----- what it means

  lemma MappedAt(s: State, f: nat)
    requires Sized(s) && OneToOne(s) && f < RAM_FRAMES && s.ram.frames[f].page != 0
    ensures var v := FullEntry(s.mmu, s.ram.frames[f].page);
            v != 0 && FrameOf(v) == ROM_FRAMES + f && Writable(v) == s.ram.frames[f].dirty
  {
    EntryFields(ROM_FRAMES + f, s.ram.frames[f].dirty);
  }

  lemma RomMappedAt(s: State, f: nat)
    requires Sized(s) && OneToOne(s) && f < ROM_FRAMES && s.rom.frames[f].page != 0
    ensures var v := FullEntry(s.mmu, s.rom.frames[f].page);
            v != 0 && FrameOf(v) == f && !Writable(v)
  {
    EntryFields(f, false);
  }

  /** No page is in two frames. */
  lemma NoPageTwice(s: State, f: nat, g: nat)
    requires Sized(s) && OneToOne(s) && f < RAM_FRAMES && g < RAM_FRAMES
    requires s.ram.frames[f].page == s.ram.frames[g].page != 0
    ensures f == g
  {
    hide OneToOne, FullEntry;
    MappedAt(s, f);
    MappedAt(s, g);
  }

  lemma NoRomPageTwice(s: State, f: nat, g: nat)
    requires Sized(s) && OneToOne(s) && f < ROM_FRAMES && g < ROM_FRAMES
    requires s.rom.frames[f].page == s.rom.frames[g].page != 0
    ensures f == g
  {
    hide OneToOne, FullEntry;
    RomMappedAt(s, f);
    RomMappedAt(s, g);
  }

  /** A page is in some frame iff it is mapped. */
  lemma HeldIffMapped(s: State, page: nat)
    requires Sized(s) && OneToOne(s) && InRam(page)
    ensures FullEntry(s.mmu, page) != 0 <==> exists f: nat :: Holds(s.ram.frames, f, page)
  {
    hide FullEntry;
    if FullEntry(s.mmu, page) != 0 {
      assert MappedFrom(s, page);
      assert Holds(s.ram.frames, FrameOf(FullEntry(s.mmu, page)) - ROM_FRAMES, page);
    }
    if exists f: nat :: Holds(s.ram.frames, f, page) {
      var f: nat :| Holds(s.ram.frames, f, page);
      MappedAt(s, f);
    }
  }

  /** A miss reaches frame allocation only when no frame holds the page. */
  lemma MissMeansAbsent(s: State, page: nat, kind: Kind, f: nat)
    requires Sized(s) && OneToOne(s) && InRam(page) && f < RAM_FRAMES && (kind == UnmapDab || kind == UnmapPab)
    requires var o := Outstanding(page, kind); Genuine(s, o) && Handled(s, o)
    ensures FullEntry(s.mmu, page) == 0 && s.ram.frames[f].page != page
  {
    hide OneToOne, FullEntry, Genuine, Handled;
    NamedOf(s);
    GenuineEntry(s, Outstanding(page, kind));
    if s.ram.frames[f].page == page {
      MappedAt(s, f);
    }
  }

  lemma NamedOf(s: State)
    requires Sized(s) && OneToOne(s)
    ensures Named(s)
  {
  }

  /** The task that raised a write fault is answered iff its page still has a frame; otherwise it stays
      suspended. */
  lemma WriteFaultAnswered(s: State, page: nat)
    requires Sized(s) && OneToOne(s) && InRam(page) && s.link != Looped
    ensures WriteFault(s, page).verdict == Some(if FullEntry(s.mmu, page) != 0 then Resume else Hang)
  {
    hide OneToOne, FullEntry, WriteFault, Found;
    HeldIffMapped(s, page);
    FoundIff(s, page);
    WriteFaultWaits(s, page);
  }

  // ----- what keeps it

  lemma OneToOneDependsOn(s: State, s': State)
    requires Sized(s) && Sized(s') && s'.ram.frames == s.ram.frames && s'.rom.frames == s.rom.frames
    requires forall q :: FullEntry(s'.mmu, q) == FullEntry(s.mmu, q)
    ensures OneToOne(s') <==> OneToOne(s)
  {
    hide FullEntry, EntryOf, Permutation, MmuTable.Valid;
    assert forall p :: FullEntry(s.mmu, p) != 0 ==> (MappedFrom(s', p) <==> MappedFrom(s, p));
  }

  /** Taking a frame keeps it, as long as the frame counts as out of use. */
  lemma TakenOneToOne(s: State, s1: State, f: nat, page: nat)
    requires Sized(s) && Sized(s1) && OneToOne(s) && f < RAM_FRAMES && InRam(page) && SameButStores(s, s1, f)
    ensures var s2 := Taken(s1, f, page);
            && OneToOne(SetFrame(s2, f, Frame(0, false))) && s2.ram.frames[f] == Frame(page, false)
            && (FullEntry(s2.mmu, page) == 0 <==> FullEntry(s.mmu, page) == 0 || s.ram.frames[f].page == page)
  {
    hide Taken, FullEntry, EntryOf, Permutation, MmuTable.Valid;
    TakenIs(s1, f, page);
    TakenNamed(s, s1, f, page);
    var v := SetFrame(Taken(s1, f, page), f, Frame(0, false));
    VacatedNamed(Taken(s1, f, page), f);
    forall g | 0 <= g < RAM_FRAMES && v.ram.frames[g].page != 0
      ensures FullEntry(v.mmu, v.ram.frames[g].page) == EntryOf(ROM_FRAMES + g, v.ram.frames[g].dirty)
    {
      if s.ram.frames[g].page == s.ram.frames[f].page {
        NoPageTwice(s, f, g);
      }
    }
    assert s.ram.frames[f].page != 0 ==> InRam(s.ram.frames[f].page);
    assert RomMapped(v);
  }

  lemma VacatedNamed(s: State, f: nat)
    requires Sized(s) && Named(s) && f < RAM_FRAMES && Unnamed(s, ROM_FRAMES + f)
    ensures Named(SetFrame(s, f, Frame(0, false)))
  {
    hide FullEntry, Permutation, MmuTable.Valid;
    var s' := SetFrame(s, f, Frame(0, false));
    forall p | FullEntry(s'.mmu, p) != 0
      ensures MappedFrom(s', p)
    {
      assert MappedFrom(s, p);
    }
  }

  /** Loading a page into a frame keeps it iff the page was not mapped. */
  lemma LoadedOneToOneIff(s: State, f: nat, page: nat, p: Page)
    requires Sized(s) && f < RAM_FRAMES && InRam(page) && s.ram.frames[f] == Frame(page, false)
    requires OneToOne(SetFrame(s, f, Frame(0, false)))
    ensures OneToOne(Loaded(s, f, page, p)) <==> FullEntry(s.mmu, page) == 0
  {
    hide Loaded, FullEntry, EntryOf, Permutation, MmuTable.Valid;
    LoadedIs(s, f, page, p);
    var v, s' := SetFrame(s, f, Frame(0, false)), Loaded(s, f, page, p);
    if FullEntry(s.mmu, page) == 0 {
      LoadedStays(s, f, page, p);
    } else {
      assert MappedFrom(v, page);
      var g := FrameOf(FullEntry(s.mmu, page)) - ROM_FRAMES;
      assert v.ram.frames[g].page == page && g != f && s'.ram.frames[g].page == page;
      if OneToOne(s') {
        NoPageTwice(s', f, g);
      }
    }
  }

  lemma LoadedStays(s: State, f: nat, page: nat, p: Page)
    requires Sized(s) && f < RAM_FRAMES && InRam(page) && s.ram.frames[f] == Frame(page, false)
    requires OneToOne(SetFrame(s, f, Frame(0, false))) && FullEntry(s.mmu, page) == 0
    ensures OneToOne(Loaded(s, f, page, p))
  {
    hide Loaded, FullEntry, EntryOf, Permutation, MmuTable.Valid;
    LoadedIs(s, f, page, p);
    EntryFields(ROM_FRAMES + f, false);
    var v, s' := SetFrame(s, f, Frame(0, false)), Loaded(s, f, page, p);
    forall g | 0 <= g < RAM_FRAMES && s'.ram.frames[g].page != 0
      ensures FullEntry(s'.mmu, s'.ram.frames[g].page) == EntryOf(ROM_FRAMES + g, s'.ram.frames[g].dirty)
    {
      assert g != f ==> v.ram.frames[g] == s.ram.frames[g];
    }
    forall q | FullEntry(s'.mmu, q) != 0
      ensures MappedFrom(s', q)
    {
      assert q != page ==> MappedFrom(v, q);
    }
    assert RomMapped(s') by {
      assert forall g :: 0 <= g < ROM_FRAMES && s.rom.frames[g].page != 0 ==> s.rom.frames[g].page != page;
    }
  }

  lemma RomTakenOneToOne(s: State, f: nat, page: nat)
    requires Sized(s) && OneToOne(s) && f < ROM_FRAMES && InRom(page)
    ensures var s2 := RomTaken(s, f, page);
            && OneToOne(SetRomFrame(s2, f, Frame(0, false))) && s2.rom.frames[f] == Frame(page, false)
            && (FullEntry(s2.mmu, page) == 0 <==> FullEntry(s.mmu, page) == 0 || s.rom.frames[f].page == page)
  {
    hide RomTaken, FullEntry, EntryOf, Permutation, MmuTable.Valid;
    RomTakenIs(s, f, page);
    RomTakenNamed(s, f, page);
    var s2 := RomTaken(s, f, page);
    var v := SetRomFrame(s2, f, Frame(0, false));
    forall g | 0 <= g < ROM_FRAMES && v.rom.frames[g].page != 0
      ensures FullEntry(v.mmu, v.rom.frames[g].page) == EntryOf(g, false)
    {
      if s.rom.frames[g].page == s.rom.frames[f].page {
        NoRomPageTwice(s, f, g);
      }
    }
    forall p | FullEntry(v.mmu, p) != 0
      ensures MappedFrom(v, p)
    {
      assert MappedFrom(s2, p);
    }
    assert s.rom.frames[f].page != 0 ==> InRom(s.rom.frames[f].page);
    assert RamMapped(v);
  }

  lemma RomLoadedOneToOneIff(s: State, f: nat, page: nat, p: Page)
    requires Sized(s) && f < ROM_FRAMES && InRom(page) && s.rom.frames[f] == Frame(page, false)
    requires OneToOne(SetRomFrame(s, f, Frame(0, false)))
    ensures OneToOne(RomLoaded(s, f, page, p)) <==> FullEntry(s.mmu, page) == 0
  {
    hide RomLoaded, FullEntry, EntryOf, Permutation, MmuTable.Valid;
    RomLoadedIs(s, f, page, p);
    var v, s' := SetRomFrame(s, f, Frame(0, false)), RomLoaded(s, f, page, p);
    if FullEntry(s.mmu, page) == 0 {
      RomLoadedStays(s, f, page, p);
    } else {
      assert MappedFrom(v, page);
      var g := FrameOf(FullEntry(s.mmu, page));
      assert v.rom.frames[g].page == page && g != f && s'.rom.frames[g].page == page;
      if OneToOne(s') {
        NoRomPageTwice(s', f, g);
      }
    }
  }

  lemma RomLoadedStays(s: State, f: nat, page: nat, p: Page)
    requires Sized(s) && f < ROM_FRAMES && InRom(page) && s.rom.frames[f] == Frame(page, false)
    requires OneToOne(SetRomFrame(s, f, Frame(0, false))) && FullEntry(s.mmu, page) == 0
    ensures OneToOne(RomLoaded(s, f, page, p))
  {
    hide RomLoaded, FullEntry, EntryOf, Permutation, MmuTable.Valid;
    RomLoadedIs(s, f, page, p);
    EntryFields(f, false);
    var v, s' := SetRomFrame(s, f, Frame(0, false)), RomLoaded(s, f, page, p);
    forall g | 0 <= g < ROM_FRAMES && s'.rom.frames[g].page != 0
      ensures FullEntry(s'.mmu, s'.rom.frames[g].page) == EntryOf(g, false)
    {
      assert g != f ==> v.rom.frames[g] == s.rom.frames[g];
    }
    forall q | FullEntry(s'.mmu, q) != 0
      ensures MappedFrom(s', q)
    {
      assert q != page ==> MappedFrom(v, q);
    }
    assert RamMapped(s') by {
      assert forall g :: 0 <= g < RAM_FRAMES && s.ram.frames[g].page != 0 ==> s.ram.frames[g].page != page;
    }
  }

  lemma DirtiedOneToOne(s: State, s': State, f: nat, page: nat)
    requires Sized(s) && Sized(s') && OneToOne(s) && InRam(page) && Holds(s.ram.frames, f, page) && Dirtied(s, s', f, page)
    ensures OneToOne(s')
  {
    hide EntryOf, FullEntry, Touch, MovedLink, Permutation, MmuTable.Valid;
    EntryFields(ROM_FRAMES + f, true);
    forall g | 0 <= g < RAM_FRAMES && s'.ram.frames[g].page != 0
      ensures FullEntry(s'.mmu, s'.ram.frames[g].page) == EntryOf(ROM_FRAMES + g, s'.ram.frames[g].dirty)
    {
      if s.ram.frames[g].page == page {
        NoPageTwice(s, f, g);
      }
    }
    forall p | FullEntry(s'.mmu, p) != 0
      ensures MappedFrom(s', p)
    {
      assert p != page ==> MappedFrom(s, p);
    }
    assert RomMapped(s');
  }

  // ----- misses that are out of date

  lemma GiveOneToOneIff(c: Codec, s: State, s1: State, f: nat, page: nat, xs: seq<Flash>)
    requires Sized(s) && Sized(s1) && OneToOne(s) && f < RAM_FRAMES && InRam(page) && SameButStores(s, s1, f) && |xs| >= 1
    ensures var r := Give(c, s1, f, page);
            && PhaseOk(r.s, r.phase)
            && (OneToOne(Through(c, r, xs).s) <==> FullEntry(s.mmu, page) == 0 || s.ram.frames[f].page == page)
  {
    hide FullEntry, EntryOf, Taken, Loaded, OneToOne, SetFrame, SameButStores, Give, Through, PhaseOk, FrameGiven;
    TakenOneToOne(s, s1, f, page);
    GiveEnds(c, s1, f, page, xs);
    LoadedOneToOneIff(Taken(s1, f, page), f, page, FrameGiven(c, s1, f, page, xs[0]));
  }

  /** A RAM miss whose victim's page is not refused keeps the correspondence, whatever the flash memory
      answers, iff its page was not mapped, or the victim happens to be the frame it was mapped to.
      Otherwise the page is then in two frames. */
  lemma StaleMissIff(c: Codec, s: State, page: nat, grant: Option<seq<byte>>, xs: seq<Flash>)
    requires Sized(s) && OneToOne(s) && InRam(page) && s.link != Looped && |xs| >= 3 && !SaveRefused(s, Victim(s), grant)
    ensures var r := RamMiss(c, s, page, grant);
            && PhaseOk(r.s, r.phase)
            && (OneToOne(Through(c, r, xs).s) <==> FullEntry(s.mmu, page) == 0 || VictimPage(s) == page)
  {
    hide FullEntry, OneToOne, Give, Through, Compressed, Touch, PhaseOk, Permutation, MmuTable.Valid, FramesInAreas;
    var f, s0 := Victim(s), Rotated(s);
    RamMissWaits(c, s, page, grant);
    RotatedSame(s);
    if SaveWaits(s, f) {
      OneToOneDependsOn(s, s0);
      SavedOneToOneIff(c, s0, f, page, xs);
    } else {
      var s1 := if s.ram.frames[f].dirty then Compressed(c, s0, f, grant.value) else s0;
      if s.ram.frames[f].dirty {
        CompressedSame(c, s, grant.value);
      }
      assert RamMiss(c, s, page, grant) == Give(c, s1, f, page);
      GiveOneToOneIff(c, s, s1, f, page, xs);
    }
  }

  lemma SavedOneToOneIff(c: Codec, s: State, f: nat, page: nat, xs: seq<Flash>)
    requires Sized(s) && OneToOne(s) && f < RAM_FRAMES && InRam(page) && |xs| >= 3 && SaveWaits(s, f)
    ensures var r := Progress(s, SaveRead(f, page), None);
            && PhaseOk(r.s, r.phase)
            && (OneToOne(Through(c, r, xs).s) <==> FullEntry(s.mmu, page) == 0 || s.ram.frames[f].page == page)
  {
    hide FullEntry, OneToOne, Give, Through, WrittenBack, CopiedIn, Permutation, MmuTable.Valid;
    ThroughOne(c, Progress(s, SaveRead(f, page), None), xs);
    var buf := CopiedIn(s, f, xs[0]);
    ThroughOne(c, Progress(s, SaveWrite(f, page, buf), None), xs[1..]);
    WrittenSame(s, f, buf, xs[1]);
    GiveOneToOneIff(c, s, WrittenBack(s, f, buf, xs[1]), f, page, xs[1..][1..]);
  }

  /** And in the ROM area, where that is all that is lost: the flat memory survives such a miss. */
  lemma StaleRomMissIff(c: Codec, s: State, page: nat, xs: seq<Flash>)
    requires Sized(s) && OneToOne(s) && InRom(page) && |xs| >= 1
    ensures |s.rom.order| == ROM_FRAMES && s.rom.order[0] < ROM_FRAMES
    ensures var r := RomMiss(s, page);
            && PhaseOk(r.s, r.phase)
            && (OneToOne(Through(c, r, xs).s) <==> FullEntry(s.mmu, page) == 0 || s.rom.frames[s.rom.order[0]].page == page)
  {
    hide FullEntry, OneToOne, RomTaken, RomLoaded, SetRomFrame, LoadedRomHalf, GoOn, Touch, Permutation, MmuTable.Valid;
    RomOrder(s);
    RomMissWaits(s, page);
    var f, s0 := s.rom.order[0], RomRotated(s);
    OneToOneDependsOn(s, s0);
    RomTakenOneToOne(s0, f, page);
    var s2 := RomTaken(s0, f, page);
    ThroughOne(c, RomMiss(s, page), xs);
    RomLoadIs(c, s2, f, page, xs[0]);
    RomLoadedOneToOneIff(s2, f, page, LoadedRomHalf(s2, page, xs[0]));
  }
}
