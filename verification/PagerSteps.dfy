/** Each step that changes the pager's state keeps the written bytes exactly on a condition that can be seen
    beforehand. */
module PagerSteps {
  import opened Basics
  import opened MmuTable
  import opened LruList
  import opened Pager
  import opened PagerTheory

  /** What is stored of a page shows its written bytes, if it has any. */
  ghost predicate Right(b: Option<Page>, flat: Flat, page: nat) {
    Written(flat, page) ==> b.Some? && Shows(b.value, flat, page)
  }

  lemma RightStored(c: Codec, s: State, flat: Flat, page: nat)
    requires Sized(s) && InRam(page)
    ensures Right(Backing(c, s, page), flat, page) <==> (Written(flat, page) ==> Stored(c, s, flat, page))
  {
  }

  /** What is stored of the pages that depend on the store is right, between services. */
  lemma NeededRight(c: Codec, s: State, flat: Flat, q: nat)
    requires Inv(c, s, flat) && InRam(q) && Needs(s, q)
    ensures Right(Backing(c, s, q), flat, q)
  {
    hide FullEntry, Named, Imaged, Backing, Shows, Needs;
    if Written(flat, q) {
      assert PageKept(c, s, flat, q);
    }
  }

  // ----- a reload

  lemma SameNamed(s: State, s': State)
    requires Sized(s) && Sized(s') && Named(s) && Imaged(s)
    requires s'.ram.frames == s.ram.frames && s'.rom.frames == s.rom.frames && s'.flash == s.flash
    requires forall f :: 0 <= f < ROM_FRAMES ==> s'.mem[f] == s.mem[f]
    requires forall q :: FullEntry(s'.mmu, q) == FullEntry(s.mmu, q)
    ensures Named(s') && Imaged(s')
  {
    hide FullEntry, Half;
    forall p | FullEntry(s'.mmu, p) != 0
      ensures MappedFrom(s', p)
    {
      assert MappedFrom(s, p);
    }
  }

  /** Nothing but the list's order, the resident segments and the swap area's switch may differ. */
  lemma SameInv(c: Codec, s: State, s': State, flat: Flat)
    requires Inv(c, s, flat) && Sized(s') && s'.link != Looped
    requires s'.ram.frames == s.ram.frames && s'.rom.frames == s.rom.frames && s'.flash == s.flash
    requires s'.mem == s.mem && s'.zram == s.zram && s'.ftl == s.ftl && s'.swap == s.swap
    requires forall q :: FullEntry(s'.mmu, q) == FullEntry(s.mmu, q)
    ensures Inv(c, s', flat)
  {
    hide FullEntry, Kept, Named, Imaged;
    SameKept(c, s, s', flat);
    SameNamed(s, s');
  }

  lemma ReloadKeeps(c: Codec, s: State, flat: Flat, page: nat)
    requires Inv(c, s, flat) && Seg(page) != FREE_SEG
    ensures Inv(c, Reloaded(s, page), flat)
  {
    hide Named, Imaged, Kept, BringIn, Permutation, MmuTable.Valid;
    BringInRefines(s.mmu, Seg(page));
    SameInv(c, s, Reloaded(s, page), flat);
  }

  // ----- a RAM miss, up to the first wait

  /** What is stored of a page once the victim's has been compressed, if that is due. */
  ghost function BackingAfter(c: Codec, s: State, f: nat, q: nat): Option<Page>
    requires Sized(s) && f < RAM_FRAMES && InRam(q)
  {
    if s.ram.frames[f].dirty && q == s.ram.frames[f].page then Some(s.mem[ROM_FRAMES + f]) else Backing(c, s, q)
  }

  /** A page compressed can be had again as it was, and every other page as before. */
  lemma CompressedBacking(c: Codec, s: State, f: nat, rest: seq<byte>, q: nat)
    requires Sized(s) && f < RAM_FRAMES && s.ram.frames[f].dirty && InRam(q) && Lossless(c)
    requires s.ram.frames[f].page - RAM_BASE < ZRAM_PAGES
    ensures Backing(c, Compressed(c, s, f, rest), q) == BackingAfter(c, s, f, q)
  {
  }

  /** The victim cannot be saved: no block for it in memory, or no swap area. */
  ghost predicate SaveRefused(s: State, f: nat, grant: Option<seq<byte>>)
    requires Sized(s) && f < RAM_FRAMES
  {
    var fr := s.ram.frames[f];
    fr.dirty && if fr.page - RAM_BASE < ZRAM_PAGES then grant == None else !s.swap
  }

  /** Its sector has to be waited for. */
  ghost predicate SaveWaits(s: State, f: nat)
    requires Sized(s) && f < RAM_FRAMES
  {
    var fr := s.ram.frames[f];
    fr.dirty && fr.page - RAM_BASE >= ZRAM_PAGES && s.swap
  }

  /** The frame that the next RAM miss takes, and its page. */
  ghost function Victim(s: State): (f: nat)
    requires Sized(s)
    ensures f < RAM_FRAMES
  {
    s.ram.order[0]
  }

  ghost function VictimPage(s: State): (page: nat)
    requires Sized(s)
    ensures page != 0 ==> InRam(page)
  {
    s.ram.frames[Victim(s)].page
  }

  /** When the first part of a RAM miss does no harm. If the block of the victim's page is refused, and so
      lost, that page must not have been written or must be mapped writable. If the frame changes hands at
      once, what is then stored of the victim's page must be right, and what is brought at once. */
  ghost predicate MissFine(c: Codec, s: State, flat: Flat, page: nat, grant: Option<seq<byte>>)
    requires Sized(s) && InRam(page)
  {
    var f, was := Victim(s), VictimPage(s);
    if SaveRefused(s, f, grant) then
      was - RAM_BASE < ZRAM_PAGES && Written(flat, was) ==> !Needs(s, was)
    else if SaveWaits(s, f) then true
    else
      && (was != 0 ==> Right(BackingAfter(c, s, f, was), flat, was))
      && (AtOnce(s, page) ==> Right(BackingAfter(c, s, f, page), flat, page))
  }

  lemma RotatedSame(s: State)
    requires Sized(s)
    ensures SameButStores(s, Rotated(s), Victim(s)) && Rotated(s).link == Fresh
    ensures Rotated(s).zram == s.zram && Rotated(s).ftl == s.ftl && Rotated(s).ram.frames == s.ram.frames
  {
    hide Touch, Permutation;
  }

  lemma CompressedSame(c: Codec, s: State, rest: seq<byte>)
    requires Sized(s) && s.ram.frames[Victim(s)].dirty
    ensures SameButStores(s, Compressed(c, Rotated(s), Victim(s), rest), Victim(s))
    ensures Compressed(c, Rotated(s), Victim(s), rest).link == Fresh
  {
    hide Touch, Permutation;
  }

  /** The condition of the second half of a miss, when only the victim's page has a new copy. */
  lemma StoreRightIff(c: Codec, s: State, s1: State, flat: Flat, f: nat)
    requires Inv(c, s, flat) && Sized(s1) && f < RAM_FRAMES
    requires forall q :: InRam(q) && q != s.ram.frames[f].page ==> Backing(c, s1, q) == Backing(c, s, q)
    ensures var was := s.ram.frames[f].page;
            StoreRight(c, s, s1, flat, f) <==> (was != 0 ==> Right(Backing(c, s1, was), flat, was))
  {
    hide FullEntry, Named, Imaged, Backing, Shows, Written, Needs;
    forall q | InRam(q) && Written(flat, q) && q != s.ram.frames[f].page && Needs(s, q)
      ensures Stored(c, s1, flat, q)
    {
      NeededRight(c, s, flat, q);
    }
  }

  /** A RAM miss, up to the first wait, keeps everything iff it is fine. */
  lemma MissIff(c: Codec, s: State, flat: Flat, page: nat, grant: Option<seq<byte>>)
    requires Inv(c, s, flat) && InRam(page) && Lossless(c)
    ensures var r := RamMiss(c, s, page, grant);
            Inv(c, Settled(r.s, r.phase), flat) <==> MissFine(c, s, flat, page, grant)
  {
    hide FullEntry, Backing, Shows, Written, Kept, Named, Imaged, Give, Compressed, StoreRight, Settled, Needs, Touch, Right;
    var f, was, s0 := Victim(s), VictimPage(s), Rotated(s);
    RotatedSame(s);
    SettledIs(s0, f, page);
    if SaveRefused(s, f, grant) {
      RefusedIff(c, s, flat, page, grant);
      SettledIs(RamMiss(c, s, page, grant).s, f, page);
    } else if SaveWaits(s, f) {
      SameInv(c, s, s0, flat);
    } else {
      var s1 := if s.ram.frames[f].dirty then Compressed(c, s0, f, grant.value) else s0;
      SavedSame(c, s, grant);
      assert RamMiss(c, s, page, grant) == Give(c, s1, f, page);
      GiveIff(c, s, s1, flat, f, page);
      StoreRightIff(c, s, s1, flat, f);
      RightStored(c, s1, flat, page);
    }
  }

  lemma SettledIs(s: State, f: nat, page: nat)
    requires Sized(s)
    ensures Settled(s, Idle) == s && Settled(s, SaveRead(f, page)) == s
  {
  }

  /** What saving at once leaves. */
  lemma SavedSame(c: Codec, s: State, grant: Option<seq<byte>>)
    requires Sized(s) && Lossless(c) && !SaveRefused(s, Victim(s), grant) && !SaveWaits(s, Victim(s))
    ensures s.ram.frames[Victim(s)].dirty ==> grant.Some?
    ensures var f, s0 := Victim(s), Rotated(s);
            var s1 := if s.ram.frames[f].dirty then Compressed(c, s0, f, grant.value) else s0;
            && SameButStores(s, s1, f) && s1.link == Fresh
            && forall q :: InRam(q) ==> Backing(c, s1, q) == BackingAfter(c, s, f, q)
  {
    hide Touch, Permutation, Compressed;
    var f, s0 := Victim(s), Rotated(s);
    RotatedSame(s);
    if s.ram.frames[f].dirty {
      CompressedSame(c, s, grant.value);
      forall q | InRam(q)
        ensures Backing(c, Compressed(c, s0, f, grant.value), q) == BackingAfter(c, s, f, q)
      {
        CompressedBacking(c, s0, f, grant.value, q);
        BackingDependsOn(c, s, s0, q);
      }
    } else {
      forall q | InRam(q)
        ensures Backing(c, s0, q) == Backing(c, s, q)
      {
        BackingDependsOn(c, s, s0, q);
      }
    }
  }

  lemma RefusedIff(c: Codec, s: State, flat: Flat, page: nat, grant: Option<seq<byte>>)
    requires Inv(c, s, flat) && InRam(page) && SaveRefused(s, Victim(s), grant)
    ensures var r := RamMiss(c, s, page, grant);
            && r.phase == Idle
            && r.verdict == Some(Kill(if VictimPage(s) - RAM_BASE < ZRAM_PAGES then ZramOom else SwapNotEnabled))
            && r.s.ram.frames == s.ram.frames && r.s.mem == s.mem && r.s.mmu == s.mmu
            && (Inv(c, r.s, flat) <==>
                  (VictimPage(s) - RAM_BASE < ZRAM_PAGES && Written(flat, VictimPage(s)) ==> !Needs(s, VictimPage(s))))
  {
    hide FullEntry, Backing, Shows, Kept, Named, Imaged, Give, Compressed, Touch, Needs;
    var s0 := Rotated(s);
    RotatedSame(s);
    SameInv(c, s, s0, flat);
    if VictimPage(s) - RAM_BASE < ZRAM_PAGES {
      DroppedIff(c, s0, flat, VictimPage(s));
      assert Needs(s0, VictimPage(s)) == Needs(s, VictimPage(s)) by {
        NeedsDependsOn(s, s0, VictimPage(s));
      }
    }
  }

  lemma NeedsDependsOn(s: State, s': State, q: nat)
    requires Sized(s) && Sized(s') && s'.mmu == s.mmu
    ensures Needs(s', q) == Needs(s, q)
  {
  }

  /** Losing the stored block of a page does harm iff a written page depends on it. */
  lemma DroppedIff(c: Codec, s: State, flat: Flat, was: nat)
    requires Inv(c, s, flat) && InRam(was) && was - RAM_BASE < ZRAM_PAGES
    ensures var s' := s.(zram := s.zram - {was - RAM_BASE});
            Inv(c, s', flat) <==> (Written(flat, was) ==> !Needs(s, was))
  {
    hide Shows, FullEntry, Written, MmuTable.Valid, Permutation, Named, Imaged;
    var s' := s.(zram := s.zram - {was - RAM_BASE});
    SameNamed(s, s');
    forall q | Written(flat, q)
      ensures InRam(q) && (PageKept(c, s', flat, q) <==> (q == was ==> !Needs(s, was)))
    {
      assert PageKept(c, s, flat, q);
      assert q != was ==> Backing(c, s', q) == Backing(c, s, q);
    }
  }

  // ----- the wait for the victim's sector

  /** The page that has the other half of the sector. */
  function Mate(page: nat): nat
    requires page >= RAM_BASE
  {
    var ind := page - RAM_BASE;
    if HalfOf(ind) == 0 then page + 1 else page - 1
  }

  lemma MateInRam(page: nat)
    requires InRam(page) && page - RAM_BASE >= ZRAM_PAGES
    ensures InRam(Mate(page)) && Mate(page) - RAM_BASE >= ZRAM_PAGES
    ensures SectorOf(Mate(page) - RAM_BASE) == SectorOf(page - RAM_BASE)
    ensures HalfOf(Mate(page) - RAM_BASE) == 1 - HalfOf(page - RAM_BASE)
  {
  }

  lemma OnlyMate(page: nat, q: nat)
    requires InRam(page) && InRam(q)
    ensures SectorOf(q - RAM_BASE) == SectorOf(page - RAM_BASE) ==> q == page || q == Mate(page)
  {
  }

  /** What is stored of a page once the buffer has been written back, or not. */
  ghost function BackingWritten(c: Codec, s: State, f: nat, buf: Sector, x: Flash, q: nat): Option<Page>
    requires Sized(s) && f < RAM_FRAMES && s.ram.frames[f].dirty && InRam(q)
  {
    var was := s.ram.frames[f].page;
    if x.Good? && s.swap && q - RAM_BASE >= ZRAM_PAGES && SectorOf(q - RAM_BASE) == SectorOf(was - RAM_BASE)
    then Some(Half(buf, HalfOf(q - RAM_BASE)))
    else Backing(c, s, q)
  }

  lemma WrittenBacking(c: Codec, s: State, f: nat, buf: Sector, x: Flash, q: nat)
    requires Sized(s) && f < RAM_FRAMES && s.ram.frames[f].dirty && InRam(q)
    requires s.ram.frames[f].page - RAM_BASE >= ZRAM_PAGES
    ensures Backing(c, WrittenBack(s, f, buf, x), q) == BackingWritten(c, s, f, buf, x, q)
  {
    hide Half;
  }

  lemma WrittenSame(s: State, f: nat, buf: Sector, x: Flash)
    requires Sized(s) && f < RAM_FRAMES && s.ram.frames[f].dirty
    ensures SameButStores(s, WrittenBack(s, f, buf, x), f) && WrittenBack(s, f, buf, x).link == s.link
  {
  }

  /** When the end of a write-back does no harm: what is then stored of the victim's page is right, though the
      page may have been written to while the buffer was on its way, or the write may have failed; so is what
      is stored of the page that shares its sector, if that depends on the store; and so is what is
      brought at once. */
  ghost predicate WriteBackFine(c: Codec, s: State, flat: Flat, f: nat, page: nat, buf: Sector, x: Flash)
    requires Sized(s) && f < RAM_FRAMES && s.ram.frames[f].dirty && InRam(page)
    requires s.ram.frames[f].page - RAM_BASE >= ZRAM_PAGES
  {
    var was := s.ram.frames[f].page;
    MateInRam(was);
    && Right(BackingWritten(c, s, f, buf, x, was), flat, was)
    && (Needs(s, Mate(was)) ==> Right(BackingWritten(c, s, f, buf, x, Mate(was)), flat, Mate(was)))
    && (AtOnce(s, page) ==> Right(Backing(c, s, page), flat, page))
  }

  lemma WriteBackIff(c: Codec, s: State, flat: Flat, f: nat, page: nat, buf: Sector, x: Flash)
    requires Inv(c, s, flat) && f < RAM_FRAMES && s.ram.frames[f].dirty && InRam(page)
    requires s.ram.frames[f].page - RAM_BASE >= ZRAM_PAGES
    ensures var r := GoOn(c, s, SaveWrite(f, page, buf), x);
            Inv(c, Settled(r.s, r.phase), flat) <==> WriteBackFine(c, s, flat, f, page, buf, x)
  {
    hide FullEntry, Backing, Shows, Written, Kept, Named, Imaged, Give, WrittenBack, StoreRight, Settled, Needs, Right;
    var s1 := WrittenBack(s, f, buf, x);
    WrittenSame(s, f, buf, x);
    GiveIff(c, s, s1, flat, f, page);
    WrittenRightIff(c, s, flat, f, buf, x);
    WrittenBacking(c, s, f, buf, x, page);
    RightStored(c, s1, flat, page);
  }

  lemma WrittenRightIff(c: Codec, s: State, flat: Flat, f: nat, buf: Sector, x: Flash)
    requires Inv(c, s, flat) && f < RAM_FRAMES && s.ram.frames[f].dirty
    requires s.ram.frames[f].page - RAM_BASE >= ZRAM_PAGES
    ensures var was := s.ram.frames[f].page;
            && InRam(Mate(was))
            && (StoreRight(c, s, WrittenBack(s, f, buf, x), flat, f) <==>
                  && Right(BackingWritten(c, s, f, buf, x, was), flat, was)
                  && (Needs(s, Mate(was)) ==> Right(BackingWritten(c, s, f, buf, x, Mate(was)), flat, Mate(was))))
  {
    hide FullEntry, Named, Imaged, Backing, Shows, Written, Needs, WrittenBack, Right;
    var was, s1 := s.ram.frames[f].page, WrittenBack(s, f, buf, x);
    MateInRam(was);
    WrittenBacking(c, s, f, buf, x, was);
    WrittenBacking(c, s, f, buf, x, Mate(was));
    RightStored(c, s1, flat, was);
    RightStored(c, s1, flat, Mate(was));
    forall q | InRam(q) && Written(flat, q) && q != was && q != Mate(was) && Needs(s, q)
      ensures Stored(c, s1, flat, q)
    {
      NeededRight(c, s, flat, q);
      OnlyMate(was, q);
      WrittenBacking(c, s, f, buf, x, q);
      RightStored(c, s, flat, q);
      StoredSame(c, s, s1, flat, q);
    }
  }

  lemma StoredSame(c: Codec, s: State, s1: State, flat: Flat, q: nat)
    requires Sized(s) && Sized(s1) && InRam(q) && Backing(c, s1, q) == Backing(c, s, q)
    ensures Stored(c, s1, flat, q) == Stored(c, s, flat, q)
  {
  }

  // ----- the wait for the new page

  /** What the frame is given when its page's sector has come, or has not. */
  ghost function LoadedHalf(s: State, page: nat, x: Flash): Page
    requires Sized(s) && InRam(page)
  {
    Half(Arrived(x, s.ftl[SectorOf(page - RAM_BASE)]), HalfOf(page - RAM_BASE))
  }

  ghost function LoadedRomHalf(s: State, page: nat, x: Flash): Page
    requires Sized(s) && InRom(page)
  {
    Half(Arrived(x, s.flash[SectorOf(page - ROM_BASE)]), HalfOf(page - ROM_BASE))
  }

  /** When the end of a load does no harm: the page's written bytes, if it has any, are in what has come and
      in the store. */
  ghost predicate LoadFine(c: Codec, s: State, flat: Flat, page: nat, x: Flash)
    requires Sized(s) && InRam(page)
  {
    Written(flat, page) ==> Shows(LoadedHalf(s, page, x), flat, page) && Stored(c, s, flat, page)
  }

  lemma LoadIs(c: Codec, s: State, f: nat, page: nat, x: Flash)
    requires Sized(s) && f < RAM_FRAMES && InRam(page)
    ensures GoOn(c, s, RamLoad(f, page), x) == Over(Loaded(s, f, page, LoadedHalf(s, page, x)), Resume)
  {
    hide SetPage, PutMem, EntryOf, Half, Permutation, MmuTable.Valid, FramesInAreas;
  }

  lemma VacatedUnnamed(s: State, f: nat)
    requires Sized(s) && f < RAM_FRAMES && Named(SetFrame(s, f, Frame(0, false)))
    ensures Unnamed(s, ROM_FRAMES + f)
  {
    hide FullEntry;
    var s' := SetFrame(s, f, Frame(0, false));
    forall p | FullEntry(s.mmu, p) != 0
      ensures FrameOf(FullEntry(s.mmu, p)) != ROM_FRAMES + f
    {
      assert MappedFrom(s', p);
    }
  }

  lemma RamLoadIff(c: Codec, s: State, flat: Flat, f: nat, page: nat, x: Flash)
    requires Sized(s) && f < RAM_FRAMES && InRam(page) && s.ram.frames[f].page == page
    requires Inv(c, Settled(s, RamLoad(f, page)), flat)
    ensures var r := GoOn(c, s, RamLoad(f, page), x);
            r.phase == Idle && (Inv(c, r.s, flat) <==> LoadFine(c, s, flat, page, x))
  {
    hide FullEntry, Kept, Named, Imaged, Loaded, GoOn, Unnamed, SetFrame, LoadedHalf, Shows, Stored, Written, MmuTable.Valid;
    LoadIs(c, s, f, page, x);
    VacatedUnnamed(s, f);
    VacatedInv(c, s, flat, f);
    var p := LoadedHalf(s, page, x);
    LoadedNamed(s, f, page, p);
    LoadedImaged(s, f, page, p);
    LoadedKeptIff(c, s, flat, f, page, p);
  }

  // ----- a ROM miss

  ghost function RomLoaded(s: State, f: nat, page: nat, p: Page): (s': State)
    requires Sized(s) && f < ROM_FRAMES && InRom(page)
    ensures Sized(s')
  {
    SetPage(PutMem(s, f, p), page, EntryOf(f, false))
  }

  lemma RomLoadedIs(s: State, f: nat, page: nat, p: Page)
    requires Sized(s) && f < ROM_FRAMES && InRom(page)
    ensures var s' := RomLoaded(s, f, page, p);
            && s' == s.(mmu := s'.mmu, mem := s.mem[f := p])
            && forall q :: FullEntry(s'.mmu, q) == if q == page then EntryOf(f, false) else FullEntry(s.mmu, q)
  {
    hide SetPage, FullEntry;
    SetPageIs(PutMem(s, f, p), page, EntryOf(f, false));
  }

  lemma RomLoadIs(c: Codec, s: State, f: nat, page: nat, x: Flash)
    requires Sized(s) && f < ROM_FRAMES && InRom(page)
    ensures GoOn(c, s, RomLoad(f, page), x) == Over(RomLoaded(s, f, page, LoadedRomHalf(s, page, x)), Resume)
  {
    hide SetPage, PutMem, EntryOf, Half, Permutation, MmuTable.Valid, FramesInAreas;
  }

  lemma RomVacatedUnnamed(s: State, f: nat)
    requires Sized(s) && f < ROM_FRAMES && Named(SetRomFrame(s, f, Frame(0, false)))
    ensures Unnamed(s, f)
  {
    hide FullEntry;
    var s' := SetRomFrame(s, f, Frame(0, false));
    forall p | FullEntry(s.mmu, p) != 0
      ensures FrameOf(FullEntry(s.mmu, p)) != f
    {
      assert MappedFrom(s', p);
    }
  }

  lemma RomLoadedNamed(s: State, f: nat, page: nat, p: Page)
    requires Sized(s) && f < ROM_FRAMES && InRom(page) && s.rom.frames[f].page == page
    requires Named(SetRomFrame(s, f, Frame(0, false)))
    ensures Named(RomLoaded(s, f, page, p))
  {
    hide RomLoaded, FullEntry, EntryOf;
    RomLoadedIs(s, f, page, p);
    EntryFields(f, false);
    var s' := RomLoaded(s, f, page, p);
    forall q | FullEntry(s'.mmu, q) != 0
      ensures MappedFrom(s', q)
    {
      if q != page {
        assert MappedFrom(SetRomFrame(s, f, Frame(0, false)), q);
      }
    }
  }

  lemma RomLoadedKept(c: Codec, s: State, flat: Flat, f: nat, page: nat, p: Page)
    requires Sized(s) && f < ROM_FRAMES && InRom(page) && Unnamed(s, f) && Kept(c, s, flat)
    ensures Kept(c, RomLoaded(s, f, page, p), flat)
  {
    hide RomLoaded, FullEntry, EntryOf, Backing, Shows, Written;
    RomLoadedIs(s, f, page, p);
    var s' := RomLoaded(s, f, page, p);
    forall q | Written(flat, q)
      ensures InRam(q) && PageKept(c, s', flat, q)
    {
      assert PageKept(c, s, flat, q);
      BackingDependsOn(c, s, s', q);
    }
  }

  /** The end of a ROM load does no harm iff the page of the image has come, or one that looks the same. */
  ghost predicate RomLoadFine(s: State, page: nat, x: Flash)
    requires Sized(s) && InRom(page)
  {
    LoadedRomHalf(s, page, x) == RomPage(s, page)
  }

  lemma RomLoadedImaged(s: State, f: nat, page: nat, p: Page)
    requires Sized(s) && f < ROM_FRAMES && InRom(page) && s.rom.frames[f].page == page
    requires Imaged(SetRomFrame(s, f, Frame(0, false)))
    ensures Imaged(RomLoaded(s, f, page, p)) <==> p == RomPage(s, page)
    ensures RomLoaded(s, f, page, p).link == s.link
  {
    hide RomLoaded, FullEntry, MmuTable.Valid, Permutation, Half;
    RomLoadedIs(s, f, page, p);
    var s0, s' := SetRomFrame(s, f, Frame(0, false)), RomLoaded(s, f, page, p);
    assert s'.rom.frames[f].page == page && s'.mem[f] == p;
    forall g | 0 <= g < ROM_FRAMES && g != f && s'.rom.frames[g].page != 0
      ensures s'.mem[g] == RomPage(s', s'.rom.frames[g].page)
    {
      assert s0.rom.frames[g].page != 0;
    }
  }

  lemma RomLoadIff(c: Codec, s: State, flat: Flat, f: nat, page: nat, x: Flash)
    requires Sized(s) && f < ROM_FRAMES && InRom(page) && s.rom.frames[f].page == page
    requires Inv(c, Settled(s, RomLoad(f, page)), flat)
    ensures var r := GoOn(c, s, RomLoad(f, page), x);
            r.phase == Idle && (Inv(c, r.s, flat) <==> RomLoadFine(s, page, x))
  {
    hide FullEntry, Kept, Named, Imaged, RomLoaded, GoOn, Unnamed, LoadedRomHalf, RomPage, MmuTable.Valid, Permutation;
    RomLoadIs(c, s, f, page, x);
    RomVacatedUnnamed(s, f);
    var s0, p := SetRomFrame(s, f, Frame(0, false)), LoadedRomHalf(s, page, x);
    SameKept(c, s, s0, flat);
    RomLoadedNamed(s, f, page, p);
    RomLoadedKept(c, s, flat, f, page, p);
    RomLoadedImaged(s, f, page, p);
  }

  /** Every ROM frame but one shows its page. */
  ghost predicate ImagedBut(s: State, f: nat)
    requires Sized(s)
  {
    forall g :: 0 <= g < ROM_FRAMES && g != f && s.rom.frames[g].page != 0 ==> s.mem[g] == RomPage(s, s.rom.frames[g].page)
  }

  lemma RomTakenKept(c: Codec, s: State, flat: Flat, f: nat, page: nat)
    requires Inv(c, s, flat) && f < ROM_FRAMES && InRom(page)
    ensures Kept(c, RomTaken(s, f, page), flat)
  {
    hide RomTaken, FullEntry, Backing, Shows, Written, Imaged;
    RomTakenIs(s, f, page);
    var s' := RomTaken(s, f, page);
    assert s.rom.frames[f].page != 0 ==> InRom(s.rom.frames[f].page);
    forall q | Written(flat, q)
      ensures InRam(q) && PageKept(c, s', flat, q)
    {
      assert PageKept(c, s, flat, q);
      BackingDependsOn(c, s, s', q);
    }
  }

  lemma RomVacatedInv(c: Codec, s: State, flat: Flat, f: nat)
    requires Sized(s) && f < ROM_FRAMES && Named(s) && Unnamed(s, f) && ImagedBut(s, f) && Kept(c, s, flat) && s.link != Looped
    ensures Inv(c, SetRomFrame(s, f, Frame(0, false)), flat)
  {
    hide FullEntry, Kept, Half, Permutation, MmuTable.Valid;
    var s' := SetRomFrame(s, f, Frame(0, false));
    SameKept(c, s, s', flat);
    forall p | FullEntry(s'.mmu, p) != 0
      ensures MappedFrom(s', p)
    {
      assert MappedFrom(s, p);
    }
  }

  lemma RomTakenImaged(s: State, f: nat, page: nat)
    requires Sized(s) && Imaged(s) && f < ROM_FRAMES && InRom(page)
    ensures ImagedBut(RomTaken(s, f, page), f) && RomTaken(s, f, page).link == s.link
  {
    hide RomTaken, FullEntry;
    RomTakenIs(s, f, page);
  }

  lemma RomRotatedKeeps(c: Codec, s: State, flat: Flat)
    requires Inv(c, s, flat)
    ensures Inv(c, RomRotated(s), flat) && s.rom.order[0] < ROM_FRAMES
  {
    hide Kept, Imaged, Named, Touch, Permutation, MmuTable.Valid, FullEntry;
    RomOrder(s);
    SameInv(c, s, RomRotated(s), flat);
  }

  lemma RomOrder(s: State)
    requires Sized(s)
    ensures |s.rom.order| == ROM_FRAMES && s.rom.order[0] < ROM_FRAMES
  {
  }

  /** And its beginning does none: the frame is out of use until then. A page that is in another frame is
      given this one as well. */
  lemma RomMissKeeps(c: Codec, s: State, flat: Flat, page: nat)
    requires Inv(c, s, flat) && InRom(page)
    ensures var r := RomMiss(s, page);
            r.phase == RomLoad(s.rom.order[0], page) && r.verdict == None && Inv(c, Settled(r.s, r.phase), flat)
  {
    hide FullEntry, Kept, Imaged, RomTaken, Touch, Permutation, MmuTable.Valid, Unnamed, ImagedBut, Named;
    hide RomRotated, SetRomFrame;
    RomOrder(s);
    var f, s0 := s.rom.order[0], RomRotated(s);
    RomRotatedKeeps(c, s, flat);
    RomTakenNamed(s0, f, page);
    RomTakenKept(c, s0, flat, f, page);
    RomTakenImaged(s0, f, page);
    RomVacatedInv(c, RomTaken(s0, f, page), flat, f);
  }
}
