/** The pager refines a flat memory: what is kept of a written byte, and what each part of a service makes of
    it. */
module PagerTheory {
  import opened Basics
  import opened MmuTable
  import opened LruList
  import opened Pager

  // ----- the guest

  datatype Mode = Fetch | Load | Store

  datatype Access = Fault(kind: Kind) | Done(g: nat)

  /** What the hardware makes of an access: a fault, or the frame it reaches. */
  ghost function Reach(s: State, page: nat, mode: Mode): Access
    requires Sized(s)
  {
    var unmapped := Fault(if mode == Fetch then UnmapPab else UnmapDab);
    match Walk(s.mmu, page)
    case SegmentFault => unmapped
    case Entry(v) =>
      if v == 0 then unmapped
      else if mode == Store && !Writable(v) then Fault(WriteReadOnly)
      else Done(FrameOf(v))
  }

  // ----- the invariant

  type Flat = map<nat, byte>

  /** The frame that the page's entry names holds the page; it is dirty if the page is mapped writable, and
      ROM pages are mapped read-only. Another frame may hold the same page. */
  ghost predicate MappedFrom(s: State, p: nat)
    requires Sized(s)
  {
    var v := FullEntry(s.mmu, p);
    var g := FrameOf(v);
    || (ROM_FRAMES <= g < ROM_FRAMES + RAM_FRAMES && InRam(p) && s.ram.frames[g - ROM_FRAMES].page == p
        && (Writable(v) ==> s.ram.frames[g - ROM_FRAMES].dirty))
    || (g < ROM_FRAMES && InRom(p) && s.rom.frames[g].page == p && !Writable(v))
  }

  ghost predicate Named(s: State)
    requires Sized(s)
  {
    forall p :: FullEntry(s.mmu, p) != 0 ==> MappedFrom(s, p)
  }

  /** A ROM frame shows its page of the system image. */
  ghost predicate Imaged(s: State)
    requires Sized(s)
  {
    forall f :: 0 <= f < ROM_FRAMES && s.rom.frames[f].page != 0 ==> s.mem[f] == RomPage(s, s.rom.frames[f].page)
  }

  /** The written bytes of a page, as a page's contents show them. */
  ghost predicate Shows(p: Page, flat: Flat, page: nat) {
    forall a :: a in flat && a / PAGE_SIZE == page ==> p[a % PAGE_SIZE] == flat[a]
  }

  ghost predicate Written(flat: Flat, page: nat) {
    exists a :: a in flat && a / PAGE_SIZE == page
  }

  ghost predicate Stored(c: Codec, s: State, flat: Flat, page: nat)
    requires Sized(s) && InRam(page)
  {
    Backing(c, s, page).Some? && Shows(Backing(c, s, page).value, flat, page)
  }

  /** The page is not mapped writable, so that it will be had from the store again. */
  ghost predicate Needs(s: State, page: nat)
    requires Sized(s)
  {
    FullEntry(s.mmu, page) == 0 || !Writable(FullEntry(s.mmu, page))
  }

  /** A page that has been written is right in the frame it is mapped to, if any, and right in the store
      unless it is mapped writable. */
  ghost predicate PageKept(c: Codec, s: State, flat: Flat, page: nat)
    requires Sized(s) && InRam(page)
  {
    var v := FullEntry(s.mmu, page);
    && (v != 0 ==> FrameOf(v) < |s.mem| && Shows(s.mem[FrameOf(v)], flat, page))
    && (Needs(s, page) ==> Stored(c, s, flat, page))
  }

  ghost predicate Kept(c: Codec, s: State, flat: Flat)
    requires Sized(s)
  {
    forall page :: Written(flat, page) ==> InRam(page) && PageKept(c, s, flat, page)
  }

  /** Between services: the pages can be had, the ROM frames show the image, and the RAM frames are on a
      list. */
  ghost predicate Inv(c: Codec, s: State, flat: Flat) {
    Sized(s) && Named(s) && Imaged(s) && s.link != Looped && Kept(c, s, flat)
  }

  // ----- page table entries

  lemma SetPageEntry(s: State, page: nat, v: nat, q: nat)
    requires Sized(s) && (InRam(page) || InRom(page))
    ensures FullEntry(SetPage(s, page, v).mmu, q) == if q == page then v else FullEntry(s.mmu, q)
  {
    AreasRegistered(page);
    PutEntryRefines(s.mmu, page, v);
  }

  lemma SetPageIs(s: State, page: nat, v: nat)
    requires Sized(s) && (InRam(page) || InRom(page))
    ensures SetPage(s, page, v) == s.(mmu := SetPage(s, page, v).mmu)
    ensures forall q :: FullEntry(SetPage(s, page, v).mmu, q) == if q == page then v else FullEntry(s.mmu, q)
  {
    forall q
      ensures FullEntry(SetPage(s, page, v).mmu, q) == if q == page then v else FullEntry(s.mmu, q)
    {
      SetPageEntry(s, page, v, q);
    }
  }

  lemma NullUnmapped(s: State)
    requires Sized(s)
    ensures FullEntry(s.mmu, 0) == 0
  {
    assert Seg(0) == 0 && !Registered(0);
  }

  lemma NullUnwritable()
    ensures !Writable(0)
  {
  }

  lemma UnmappedIs(s: State, was: nat)
    requires Sized(s) && (was != 0 ==> InRam(was) || InRom(was))
    ensures Unmapped(s, was) == s.(mmu := Unmapped(s, was).mmu)
    ensures forall q :: FullEntry(Unmapped(s, was).mmu, q) == if q == was then 0 else FullEntry(s.mmu, q)
  {
    hide SetPage, FullEntry;
    NullUnmapped(s);
    if was != 0 {
      SetPageIs(s, was, 0);
    }
  }

  // ----- taking a frame

  lemma TakenIs(s: State, f: nat, page: nat)
    requires Sized(s) && f < RAM_FRAMES && InRam(page)
    ensures var s', was := Taken(s, f, page), s.ram.frames[f].page;
            && s' == s.(mmu := s'.mmu, ram := s.ram.(frames := s.ram.frames[f := Frame(page, false)]))
            && forall q :: FullEntry(s'.mmu, q) == if q == was then 0 else FullEntry(s.mmu, q)
  {
    hide Unmapped, FullEntry;
    UnmappedIs(s, s.ram.frames[f].page);
  }

  lemma RomTakenIs(s: State, f: nat, page: nat)
    requires Sized(s) && f < ROM_FRAMES && InRom(page)
    ensures var s', was := RomTaken(s, f, page), s.rom.frames[f].page;
            && s' == s.(mmu := s'.mmu, rom := s.rom.(frames := s.rom.frames[f := Frame(page, false)]))
            && forall q :: FullEntry(s'.mmu, q) == if q == was then 0 else FullEntry(s.mmu, q)
  {
    hide Unmapped, FullEntry;
    UnmappedIs(s, s.rom.frames[f].page);
  }

  /** No entry names the frame. */
  ghost predicate Unnamed(s: State, g: nat)
    requires Sized(s)
  {
    forall p :: FullEntry(s.mmu, p) != 0 ==> FrameOf(FullEntry(s.mmu, p)) != g
  }

  /** s1 is s but for the stores, the list, and whether frame f is dirty. */
  ghost predicate SameButStores(s: State, s1: State, f: nat)
    requires Sized(s) && Sized(s1) && f < RAM_FRAMES
  {
    && s1.mmu == s.mmu && s1.mem == s.mem && s1.rom.frames == s.rom.frames && s1.flash == s.flash && s1.swap == s.swap
    && s1.ram.frames[f].page == s.ram.frames[f].page
    && forall g :: 0 <= g < RAM_FRAMES && g != f ==> s1.ram.frames[g] == s.ram.frames[g]
  }

  lemma TakenNamed(s: State, s1: State, f: nat, page: nat)
    requires Sized(s) && Sized(s1) && Named(s) && f < RAM_FRAMES && InRam(page) && SameButStores(s, s1, f)
    ensures var s' := Taken(s1, f, page); Named(s') && Unnamed(s', ROM_FRAMES + f)
  {
    hide Taken, FullEntry;
    TakenIs(s1, f, page);
    var s' := Taken(s1, f, page);
    forall p | FullEntry(s'.mmu, p) != 0
      ensures MappedFrom(s', p) && FrameOf(FullEntry(s'.mmu, p)) != ROM_FRAMES + f
    {
      assert MappedFrom(s, p);
    }
  }

  lemma RomTakenNamed(s: State, f: nat, page: nat)
    requires Sized(s) && Named(s) && f < ROM_FRAMES && InRom(page)
    ensures var s' := RomTaken(s, f, page); Named(s') && Unnamed(s', f)
  {
    hide RomTaken, FullEntry;
    RomTakenIs(s, f, page);
    var s' := RomTaken(s, f, page);
    forall p | FullEntry(s'.mmu, p) != 0
      ensures MappedFrom(s', p) && FrameOf(FullEntry(s'.mmu, p)) != f
    {
      assert MappedFrom(s, p);
    }
  }

  lemma BackingDependsOn(c: Codec, s: State, s': State, q: nat)
    requires Sized(s) && Sized(s') && InRam(q)
    requires s'.zram == s.zram && s'.ftl == s.ftl && s'.swap == s.swap
    ensures Backing(c, s', q) == Backing(c, s, q)
  {
  }

  /** The written pages that depend on the store once the victim is unmapped are right in it. */
  ghost predicate StoreRight(c: Codec, s: State, s1: State, flat: Flat, f: nat)
    requires Sized(s) && Sized(s1) && f < RAM_FRAMES
  {
    forall q :: Written(flat, q) && InRam(q) && (q == s.ram.frames[f].page || Needs(s, q)) ==> Stored(c, s1, flat, q)
  }

  /** Taking the victim's frame keeps the written bytes iff the store has those that depend on it. */
  lemma TakenKeptIff(c: Codec, s: State, s1: State, flat: Flat, f: nat, page: nat)
    requires Inv(c, s, flat) && Sized(s1) && f < RAM_FRAMES && InRam(page) && SameButStores(s, s1, f)
    ensures Kept(c, Taken(s1, f, page), flat) <==> StoreRight(c, s, s1, flat, f)
  {
    hide Taken, FullEntry, Backing, Shows, Written, Named, Imaged;
    TakenIs(s1, f, page);
    var s' := Taken(s1, f, page);
    NullUnwritable();
    forall q | Written(flat, q)
      ensures InRam(q)
      ensures PageKept(c, s', flat, q) <==> (q == s.ram.frames[f].page || Needs(s, q) ==> Stored(c, s1, flat, q))
    {
      assert PageKept(c, s, flat, q);
      BackingDependsOn(c, s1, s', q);
    }
  }

  // ----- loading a page

  /** A page's contents put into a frame that no entry names, and the page mapped to it read-only. */
  ghost function Loaded(s: State, f: nat, page: nat, p: Page): (s': State)
    requires Sized(s) && f < RAM_FRAMES && InRam(page)
    ensures Sized(s')
  {
    SetPage(PutMem(s, ROM_FRAMES + f, p), page, EntryOf(ROM_FRAMES + f, false))
  }

  lemma LoadedIs(s: State, f: nat, page: nat, p: Page)
    requires Sized(s) && f < RAM_FRAMES && InRam(page)
    ensures var s' := Loaded(s, f, page, p);
            && s' == s.(mmu := s'.mmu, mem := s.mem[ROM_FRAMES + f := p])
            && forall q :: FullEntry(s'.mmu, q) == if q == page then EntryOf(ROM_FRAMES + f, false) else FullEntry(s.mmu, q)
  {
    hide SetPage, FullEntry;
    SetPageIs(PutMem(s, ROM_FRAMES + f, p), page, EntryOf(ROM_FRAMES + f, false));
  }

  lemma LoadedNamed(s: State, f: nat, page: nat, p: Page)
    requires Sized(s) && Named(s) && f < RAM_FRAMES && InRam(page) && s.ram.frames[f].page == page
    ensures Named(Loaded(s, f, page, p))
  {
    hide Loaded, FullEntry, EntryOf;
    LoadedIs(s, f, page, p);
    EntryFields(ROM_FRAMES + f, false);
    var s' := Loaded(s, f, page, p);
    forall q | FullEntry(s'.mmu, q) != 0
      ensures MappedFrom(s', q)
    {
      if q != page {
        assert MappedFrom(s, q);
      }
    }
  }

  /** Loading keeps the written bytes iff the page's, if it has any, are in what is loaded and in the
      store. */
  lemma LoadedKeptIff(c: Codec, s: State, flat: Flat, f: nat, page: nat, p: Page)
    requires Sized(s) && Kept(c, s, flat) && Unnamed(s, ROM_FRAMES + f) && f < RAM_FRAMES && InRam(page)
    ensures Kept(c, Loaded(s, f, page, p), flat) <==>
              (Written(flat, page) ==> Shows(p, flat, page) && Stored(c, s, flat, page))
  {
    hide Loaded, FullEntry, EntryOf, Backing, Shows, Written;
    LoadedIs(s, f, page, p);
    EntryFields(ROM_FRAMES + f, false);
    EntryNotNull(ROM_FRAMES + f, false);
    var s' := Loaded(s, f, page, p);
    forall q | Written(flat, q)
      ensures InRam(q)
      ensures PageKept(c, s', flat, q) <==> (q == page ==> Shows(p, flat, page) && Stored(c, s, flat, page))
    {
      assert PageKept(c, s, flat, q);
      BackingDependsOn(c, s, s', q);
    }
  }

  lemma EntryNotNull(g: nat, writable: bool)
    ensures EntryOf(g, writable) != 0
  {
  }

  // ----- the second half of a miss

  /** A service that waits for a page to be loaded has its frame out of use. */
  ghost function Settled(s: State, phase: Phase): (s': State)
    requires Sized(s)
    ensures Sized(s')
  {
    match phase
    case RamLoad(f, _) => if f < RAM_FRAMES then SetFrame(s, f, Frame(0, false)) else s
    case RomLoad(f, _) => if f < ROM_FRAMES then SetRomFrame(s, f, Frame(0, false)) else s
    case _ => s
  }

  /** A frame that no entry names may as well be out of use. */
  lemma VacatedInv(c: Codec, s: State, flat: Flat, f: nat)
    requires Sized(s) && f < RAM_FRAMES && Unnamed(s, ROM_FRAMES + f)
    ensures Inv(c, SetFrame(s, f, Frame(0, false)), flat) <==> Inv(c, s, flat)
  {
    hide FullEntry, Backing, Shows, Written, Permutation, MmuTable.Valid;
    var s' := SetFrame(s, f, Frame(0, false));
    assert forall p :: FullEntry(s.mmu, p) != 0 ==> (MappedFrom(s', p) <==> MappedFrom(s, p));
    SameKept(c, s, s', flat);
  }

  lemma SameKept(c: Codec, s: State, s': State, flat: Flat)
    requires Sized(s) && Sized(s') && s'.mem == s.mem && s'.zram == s.zram && s'.ftl == s.ftl && s'.swap == s.swap
    requires forall q :: FullEntry(s'.mmu, q) == FullEntry(s.mmu, q)
    ensures Kept(c, s', flat) <==> Kept(c, s, flat)
  {
    hide FullEntry, Shows, Written;
    forall q | InRam(q)
      ensures PageKept(c, s', flat, q) <==> PageKept(c, s, flat, q)
    {
      BackingDependsOn(c, s, s', q);
    }
  }

  /** Whether a page is had at once, without waiting for its sector. */
  ghost predicate AtOnce(s: State, page: nat) {
    page - RAM_BASE < ZRAM_PAGES || !s.swap
  }

  /** The page that is had at once. */
  ghost function HadAtOnce(c: Codec, s: State, f: nat, page: nat): Page
    requires Sized(s) && f < RAM_FRAMES && InRam(page)
  {
    match Backing(c, s, page) case Some(p) => p case None => s.mem[ROM_FRAMES + f]
  }

  lemma ShownIs(c: Codec, s: State, f: nat, page: nat)
    requires Sized(s) && f < RAM_FRAMES && InRam(page) && AtOnce(s, page)
    ensures Shown(c, s, f, page) == Loaded(s, f, page, HadAtOnce(c, s, f, page))
  {
    assert s.(mem := s.mem[ROM_FRAMES + f := s.mem[ROM_FRAMES + f]]) == s;
  }

  lemma GivenPage(c: Codec, s: State, s1: State, flat: Flat, f: nat, page: nat, q: nat)
    requires Inv(c, s, flat) && Sized(s1) && f < RAM_FRAMES && InRam(page) && SameButStores(s, s1, f)
    requires Written(flat, q) && Unnamed(Taken(s1, f, page), ROM_FRAMES + f)
    ensures var s2 := Taken(s1, f, page);
            var s3 := Loaded(s2, f, page, HadAtOnce(c, s2, f, page));
            InRam(q) && (PageKept(c, s3, flat, q) <==>
                           (q == s.ram.frames[f].page || Needs(s, q) || q == page ==> Stored(c, s1, flat, q)))
  {
    hide Taken, Loaded, FullEntry, EntryOf, Backing, Shows, Written, Named, Imaged;
    TakenIs(s1, f, page);
    var s2 := Taken(s1, f, page);
    LoadedIs(s2, f, page, HadAtOnce(c, s2, f, page));
    EntryFields(ROM_FRAMES + f, false);
    EntryNotNull(ROM_FRAMES + f, false);
    NullUnwritable();
    assert PageKept(c, s, flat, q);
    var s3 := Loaded(s2, f, page, HadAtOnce(c, s2, f, page));
    BackingDependsOn(c, s1, s2, q);
    BackingDependsOn(c, s2, s3, q);
    if FullEntry(s2.mmu, q) != 0 {
      assert FrameOf(FullEntry(s2.mmu, q)) != ROM_FRAMES + f;
    }
  }

  lemma GivenAtOnceIff(c: Codec, s: State, s1: State, flat: Flat, f: nat, page: nat)
    requires Inv(c, s, flat) && Sized(s1) && f < RAM_FRAMES && InRam(page) && SameButStores(s, s1, f)
    requires Unnamed(Taken(s1, f, page), ROM_FRAMES + f)
    ensures var s2 := Taken(s1, f, page);
            Kept(c, Loaded(s2, f, page, HadAtOnce(c, s2, f, page)), flat) <==>
              StoreRight(c, s, s1, flat, f) && (Written(flat, page) ==> Stored(c, s1, flat, page))
  {
    hide Taken, Loaded, Written, Needs, Stored, PageKept, Unnamed, HadAtOnce, Named, Imaged;
    forall q | Written(flat, q)
      ensures var s2 := Taken(s1, f, page);
              var s3 := Loaded(s2, f, page, HadAtOnce(c, s2, f, page));
              InRam(q) && (PageKept(c, s3, flat, q) <==>
                             (q == s.ram.frames[f].page || Needs(s, q) || q == page ==> Stored(c, s1, flat, q)))
    {
      GivenPage(c, s, s1, flat, f, page, q);
    }
  }

  /** When the victim has been seen to: giving its frame to the page keeps everything iff the store has the
      written bytes that depend on it from then on. */
  lemma GiveIff(c: Codec, s: State, s1: State, flat: Flat, f: nat, page: nat)
    requires Inv(c, s, flat) && Sized(s1) && f < RAM_FRAMES && InRam(page) && SameButStores(s, s1, f) && s1.link != Looped
    ensures var r := Give(c, s1, f, page);
            Inv(c, Settled(r.s, r.phase), flat) <==>
              StoreRight(c, s, s1, flat, f) && (AtOnce(s, page) && Written(flat, page) ==> Stored(c, s1, flat, page))
  {
    hide Taken, Shown, Loaded, FullEntry, Backing, Shows, Written, Kept, Named, StoreRight, Unnamed, Stored, SetFrame, HadAtOnce;
    TakenIs(s1, f, page);
    TakenNamed(s, s1, f, page);
    TakenKeptIff(c, s, s1, flat, f, page);
    var s2 := Taken(s1, f, page);
    TakenImaged(s, s1, f, page);
    if AtOnce(s, page) {
      ShownIs(c, s2, f, page);
      LoadedNamed(s2, f, page, HadAtOnce(c, s2, f, page));
      LoadedImaged(s2, f, page, HadAtOnce(c, s2, f, page));
      GivenAtOnceIff(c, s, s1, flat, f, page);
    } else {
      VacatedInv(c, s2, flat, f);
    }
  }

  lemma TakenImaged(s: State, s1: State, f: nat, page: nat)
    requires Sized(s) && Sized(s1) && Imaged(s) && f < RAM_FRAMES && InRam(page) && SameButStores(s, s1, f)
    ensures Imaged(Taken(s1, f, page)) && Taken(s1, f, page).link == s1.link
    ensures Taken(s1, f, page).swap == s.swap && Taken(s1, f, page).ram.frames[f].page == page
  {
    hide Taken, FullEntry;
    TakenIs(s1, f, page);
  }

  lemma LoadedImaged(s: State, f: nat, page: nat, p: Page)
    requires Sized(s) && Imaged(s) && f < RAM_FRAMES && InRam(page)
    ensures Imaged(Loaded(s, f, page, p)) && Loaded(s, f, page, p).link == s.link
  {
    hide Loaded, FullEntry;
    LoadedIs(s, f, page, p);
  }
}
