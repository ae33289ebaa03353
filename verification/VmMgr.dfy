/** The page-fault handler as vmMgr.c writes it: lists, tables and buffers updated in place. */
module VmMgr {
  import opened Basics
  import opened MmuTable
  import opened LruList
  import opened Pager
  import opened PagerTheory
  import opened PagerSteps
  import opened PagerRuns
  import opened PagerService
  import Mmu

  const SECTOR_SIZE := 2048
  const ROM_START_SECTOR := 31 * 64
  const RAM_START_SECTOR := 0

  function FrameOfInfo(i: Info): Frame {
    Frame(i.page, i.dirty)
  }

  function FramesOf(info: seq<Info>): (frames: seq<Frame>)
    ensures |frames| == |info|
  {
    seq(|info|, i requires 0 <= i < |info| => FrameOfInfo(info[i]))
  }

  lemma FramesUpdate(info: seq<Info>, f: nat, x: Info)
    requires f < |info|
    ensures FramesOf(info[f := x]) == FramesOf(info)[f := FrameOfInfo(x)]
  {
  }

  /** Where a page of an area is stored, by the sector its area starts at. */
  function InfoOf(page: nat, base: nat, start: nat): Info
    requires base <= page
  {
    Info(page, start + (page - base) / 2, if page % 2 == 1 then PAGE_SIZE else 0, false)
  }

  /** A frame in use knows the place of its page. */
  ghost predicate Placed(info: seq<Info>, base: nat, start: nat) {
    forall f :: 0 <= f < |info| && info[f].page != 0 ==>
      base <= info[f].page && info[f].(dirty := false) == InfoOf(info[f].page, base, start)
  }

  /** The index `save_cache_page` computes from sector and offset is the page's number in its area. */
  lemma IndexOfPlace(page: nat)
    requires InRam(page)
    ensures var i := InfoOf(page, RAM_BASE, RAM_START_SECTOR);
            && (i.sector * SECTOR_SIZE + i.offset) / PAGE_SIZE == page - RAM_BASE
            && i.sector == (page - RAM_BASE) / 2
            && i.offset == (page - RAM_BASE) % 2 * PAGE_SIZE
  {
  }

  const ZERO_PAGE: Page := seq(PAGE_SIZE, _ => 0)

  /** No frame in use. */
  ghost predicate Unused(s: State) {
    s.link == Fresh && s.ram.frames == seq(RAM_FRAMES, _ => Frame(0, false)) && s.rom.frames == seq(ROM_FRAMES, _ => Frame(0, false))
  }

  lemma SplicedIsSetHalf(x: Sector, k: nat, p: Page)
    requires k < 2
    ensures x[..k * PAGE_SIZE] + p + x[(k + 1) * PAGE_SIZE..] == SetHalf(x, k, p)
  {
    if k == 0 {
      assert x[..0] + p == p;
    } else {
      assert x[2 * PAGE_SIZE..] == [];
    }
  }

  lemma UnusedIsSized(s: State)
    requires Unused(s) && s.ram.order == Ascending(RAM_FRAMES) && s.rom.order == Ascending(ROM_FRAMES)
    requires MmuTable.Valid(s.mmu) && |s.mem| == ROM_FRAMES + RAM_FRAMES
    requires |s.ftl| == RAM_PAGES / 2 && |s.flash| == ROM_PAGES / 2
    ensures Sized(s)
  {
    AscendingPermutes(RAM_FRAMES);
    AscendingPermutes(ROM_FRAMES);
  }

  lemma UnusedFrames(info: seq<Info>)
    requires info == seq(|info|, _ => UNUSED)
    ensures FramesOf(info) == seq(|info|, _ => Frame(0, false))
    ensures forall base, start :: Placed(info, base, start)
  {
  }

  lemma ZeroTable(m: MmuState)
    requires MmuTable.Valid(m) && forall i :: 0 <= i < |m.l2| ==> m.l2[i] == 0
    ensures forall q :: FullEntry(m, q) == 0
  {
  }

  /** The state after `save_cache_page`, up to its wait if it has one. */
  ghost function SavedState(c: Codec, s: State, f: nat, grant: Option<seq<byte>>): (s': State)
    requires Sized(s) && f < RAM_FRAMES
    ensures Sized(s')
  {
    var fr := s.ram.frames[f];
    if !fr.dirty || fr.page - RAM_BASE >= ZRAM_PAGES then s
    else
      match grant
      case Some(rest) => Compressed(c, s, f, rest)
      case None => s.(zram := s.zram - {fr.page - RAM_BASE})
  }

  lemma SavedStateIs(c: Codec, s: State, f: nat, grant: Option<seq<byte>>)
    requires Sized(s) && f < RAM_FRAMES
    ensures !s.ram.frames[f].dirty || s.ram.frames[f].page - RAM_BASE >= ZRAM_PAGES ==> SavedState(c, s, f, grant) == s
    ensures SaveRefused(s, f, grant) <==>
              s.ram.frames[f].dirty && if s.ram.frames[f].page - RAM_BASE < ZRAM_PAGES then grant == None else !s.swap
    ensures SaveWaits(s, f) <==> s.ram.frames[f].dirty && s.ram.frames[f].page - RAM_BASE >= ZRAM_PAGES && s.swap
  {
    hide Compressed, Permutation, MmuTable.Valid;
  }

  lemma SavedNone(c: Codec, s: State, f: nat, ind: nat)
    requires Sized(s) && f < RAM_FRAMES && s.ram.frames[f].dirty && ind == s.ram.frames[f].page - RAM_BASE < ZRAM_PAGES
    ensures SavedState(c, s, f, None) == s.(zram := s.zram - {ind})
  {
    hide Compressed, Permutation, MmuTable.Valid;
  }

  lemma SavedSome(c: Codec, s: State, f: nat, ind: nat, rest: seq<byte>)
    requires Sized(s) && f < RAM_FRAMES && s.ram.frames[f].dirty && ind == s.ram.frames[f].page - RAM_BASE < ZRAM_PAGES
    ensures |s.mem| == ROM_FRAMES + RAM_FRAMES
    ensures var s1 := s.(zram := s.zram[ind := c.compress(s.mem[ROM_FRAMES + f]) + rest]);
            Sized(s1) && SavedState(c, s, f, Some(rest)) == Cleaned(s1, f)
  {
    hide Cleaned, Permutation, MmuTable.Valid;
  }

  lemma RamMissCases(c: Codec, s: State, page: nat, grant: Option<seq<byte>>)
    requires Sized(s) && InRam(page) && s.link != Looped
    ensures var f, s0 := Victim(s), Rotated(s);
            RamMiss(c, s, page, grant) ==
            if SaveRefused(s0, f, grant) then
              Over(SavedState(c, s0, f, grant),
                   Kill(if s0.ram.frames[f].page - RAM_BASE < ZRAM_PAGES then ZramOom else SwapNotEnabled))
            else if SaveWaits(s0, f) then Progress(s0, SaveRead(f, page), None)
            else Give(c, SavedState(c, s0, f, grant), f, page)
  {
    hide Give, Compressed, Touch, Permutation, MmuTable.Valid;
  }

  ghost predicate HeldRight(s: State, f: nat) {
    f < |s.ram.frames| && (s.ram.frames[f].page != 0 ==> InRam(s.ram.frames[f].page))
  }

  ghost predicate HeldRightRom(s: State, f: nat) {
    f < |s.rom.frames| && (s.rom.frames[f].page != 0 ==> InRom(s.rom.frames[f].page))
  }

  lemma CopiedInIs(s: State, f: nat, x: Flash, ind: nat)
    requires Sized(s) && f < RAM_FRAMES && s.ram.frames[f].dirty && ind == s.ram.frames[f].page - RAM_BASE
    ensures SectorOf(ind) < |s.ftl| && ROM_FRAMES + f < |s.mem|
    ensures CopiedIn(s, f, x) == SetHalf(Arrived(x, s.ftl[SectorOf(ind)]), HalfOf(ind), s.mem[ROM_FRAMES + f])
  {
    hide SetHalf, Half, Permutation, MmuTable.Valid;
  }

  lemma WrittenBackIs(s: State, f: nat, buf: Sector, x: Flash, ind: nat)
    requires Sized(s) && f < RAM_FRAMES && s.ram.frames[f].dirty && ind == s.ram.frames[f].page - RAM_BASE
    ensures SectorOf(ind) < RAM_PAGES / 2 && |s.ftl| == RAM_PAGES / 2
    ensures var s1 := if x.Good? then s.(ftl := s.ftl[SectorOf(ind) := buf]) else s;
            Sized(s1) && WrittenBack(s, f, buf, x) == Cleaned(s1, f)
  {
    hide Cleaned, Permutation, MmuTable.Valid;
  }

  /** The last part of a miss, when its frame has been taken. */
  ghost function Bring(c: Codec, s: State, f: nat, page: nat): (r: Progress)
    requires Sized(s) && f < RAM_FRAMES && InRam(page)
  {
    var ind := page - RAM_BASE;
    if ind >= ZRAM_PAGES && s.swap then Progress(s, RamLoad(f, page), None)
    else
      var s1 := if ind < ZRAM_PAGES && ind in s.zram then PutMem(s, ROM_FRAMES + f, c.decompress(s.zram[ind])) else s;
      Over(SetPage(s1, page, EntryOf(ROM_FRAMES + f, false)), Resume)
  }

  function Unpacked(c: Codec, block: seq<byte>): Page {
    c.decompress(block)
  }

  lemma BringStored(c: Codec, s: State, f: nat, page: nat, ind: nat)
    requires Sized(s) && f < RAM_FRAMES && InRam(page) && ind == page - RAM_BASE < ZRAM_PAGES && ind in s.zram
    ensures Bring(c, s, f, page)
         == Over(SetPage(PutMem(s, ROM_FRAMES + f, Unpacked(c, s.zram[ind])), page, EntryOf(ROM_FRAMES + f, false)), Resume)
  {
    hide SetPage, PutMem, EntryOf, Sized;
  }

  lemma BringOther(c: Codec, s: State, f: nat, page: nat)
    requires Sized(s) && f < RAM_FRAMES && InRam(page)
    requires if page - RAM_BASE < ZRAM_PAGES then page - RAM_BASE !in s.zram else true
    ensures Bring(c, s, f, page) ==
            if page - RAM_BASE >= ZRAM_PAGES && s.swap then Progress(s, RamLoad(f, page), None)
            else Over(SetPage(s, page, EntryOf(ROM_FRAMES + f, false)), Resume)
  {
    hide SetPage, PutMem, EntryOf, Sized;
  }

  lemma GiveIs(c: Codec, s: State, f: nat, page: nat)
    requires Sized(s) && f < RAM_FRAMES && InRam(page)
    ensures HeldRight(s, f)
    ensures Give(c, s, f, page) == Bring(c, SetFrame(Unmapped(s, s.ram.frames[f].page), f, Frame(page, false)), f, page)
  {
    hide SetPage, EntryOf, PutMem, Permutation, MmuTable.Valid;
    TakenIs(s, f, page);
  }

  lemma ArrivedIs(c: Codec, s: State, f: nat, page: nat, x: Flash)
    requires CanGoOn(s, RamLoad(f, page))
    ensures f < RAM_FRAMES && InRam(page)
    ensures GoOn(c, s, RamLoad(f, page), x) ==
            Over(SetPage(PutMem(s, ROM_FRAMES + f, LoadedHalf(s, page, x)), page, EntryOf(ROM_FRAMES + f, false)), Resume)
  {
    hide LoadedHalf, GoOn, SetPage, PutMem, EntryOf;
    LoadIs(c, s, f, page, x);
  }

  lemma RomArrivedIs(c: Codec, s: State, f: nat, page: nat, x: Flash)
    requires CanGoOn(s, RomLoad(f, page))
    ensures f < ROM_FRAMES && InRom(page) && SectorOf(page - ROM_BASE) < |s.flash|
    ensures GoOn(c, s, RomLoad(f, page), x) ==
            Over(SetPage(PutMem(s, f, Half(Arrived(x, s.flash[SectorOf(page - ROM_BASE)]), HalfOf(page - ROM_BASE))),
                         page, EntryOf(f, false)), Resume)
  {
    hide SetPage, EntryOf, PutMem, Half, Permutation, MmuTable.Valid;
    RomLoadIs(c, s, f, page, x);
  }

  /** A page copied out of its sector. */
  method CopyOut(x: Sector, offset: nat, ghost k: nat) returns (p: Page)
    requires k < 2 && offset == k * PAGE_SIZE
    ensures p == Half(x, k)
  {
    assert k * PAGE_SIZE + PAGE_SIZE == (k + 1) * PAGE_SIZE;
    p := x[offset..offset + PAGE_SIZE];
  }

  lemma WriteMarkIs(s: State, page: nat, f: nat)
    requires Sized(s) && InRam(page) && Holds(s.ram.frames, f, page)
    ensures f < RAM_FRAMES && f in s.ram.order
    ensures WriteMark(s, page, f)
            == s.(ram := Cache(Touch(s.ram.order, f), s.ram.frames[f := Frame(page, true)]),
                  link := MovedLink(s.ram.order, s.link, f))
    ensures Sized(WriteMark(s, page, f))
  {
  }

  lemma WriteFaultIs(s: State, page: nat)
    requires Sized(s) && InRam(page) && s.link != Looped
    ensures Found(s, page) < 0 ==> WriteFault(s, page) == Over(s, Hang)
    ensures Found(s, page) >= 0 ==>
              var f := s.ram.order[Found(s, page)];
              Holds(s.ram.frames, f, page) && WriteFault(s, page) == Over(WriteAt(s, page, f), Resume)
  {
    hide WriteAt, Sized, Found;
  }

  lemma ReloadedIs(s: State, page: nat)
    requires Sized(s) && Seg(page) != FREE_SEG
    ensures Shaped(s.mmu) && Reloaded(s, page) == s.(mmu := BringIn(s.mmu, Seg(page)))
    ensures Sized(Reloaded(s, page))
  {
  }

  /** `vmMgr_init` leaves the state from which the runs start. */
  lemma InitStarts(s: State)
    requires Sized(s) && Unused(s) && forall q :: FullEntry(s.mmu, q) == 0
    ensures Started(World(s, Idle, map[], [], None, None))
  {
  }

  lemma ReorderedRam(s: State)
    requires Sized(s)
    ensures s.ram.order[0] < RAM_FRAMES && s.ram.order[0] in s.ram.order
    ensures Rotated(s) == s.(ram := Cache(Touch(s.ram.order, s.ram.order[0]), s.ram.frames), link := Fresh)
    ensures Sized(Rotated(s))
  {
    TouchPermutes(s.ram.order, RAM_FRAMES, s.ram.order[0]);
  }

  lemma ReorderedRom(s: State)
    requires Sized(s)
    ensures |s.rom.order| == ROM_FRAMES && s.rom.order[0] < ROM_FRAMES && s.rom.order[0] in s.rom.order
    ensures RomRotated(s) == s.(rom := Cache(Touch(s.rom.order, s.rom.order[0]), s.rom.frames))
    ensures Sized(RomRotated(s))
  {
    TouchPermutes(s.rom.order, ROM_FRAMES, s.rom.order[0]);
  }

  lemma PutIs(s: State, page: nat, v: nat)
    requires Sized(s) && (InRam(page) || InRom(page))
    ensures page * PAGE_SIZE / 0x400 == page && Seg(page) != 0 && Registered(Seg(page))
    ensures Sized(s.(mmu := PutEntry(s.mmu, page, v)))
    ensures SetPage(s, page, v) == s.(mmu := PutEntry(s.mmu, page, v))
  {
    AreasRegistered(page);
    hide PutEntry, Sized, Registered;
    assert SetPage(s, page, v) == s.(mmu := PutEntry(s.mmu, page, v));
  }

  class Manager {
    const codec: Codec
    const vram: FrameList
    const vrom: FrameList
    const mem: array<Page>
    var zram: map<nat, seq<byte>>
    const ftl: array<Sector>
    const flash: seq<Sector>
    var swap: bool
    const mmu: Mmu.Unit

    ghost const Repr: set<object> := {this, mem, ftl} + vram.Repr + vrom.Repr + mmu.Repr

    ghost predicate Apart() {
      && this !in vram.Repr && this !in vrom.Repr && this !in mmu.Repr
      && mem !in vram.Repr && mem !in vrom.Repr && mem !in mmu.Repr
      && ftl !in vram.Repr && ftl !in vrom.Repr && ftl !in mmu.Repr
      && mem as object != ftl as object
      && vram.Repr !! vrom.Repr && vram.Repr !! mmu.Repr && vrom.Repr !! mmu.Repr
    }

    ghost function View(): State
      reads Repr
    {
      State(mmu.View(), Cache(vram.order, FramesOf(vram.info[..])), vram.Link(), Cache(vrom.order, FramesOf(vrom.info[..])),
            mem[..], zram, ftl[..], flash, swap)
    }

    /** The parts are sound by themselves, but for the links of the RAM list. */
    ghost predicate Joined()
      reads Repr
    {
      && Apart()
      && vram.Shaped() && vrom.Valid() && mmu.Wired()
      && Placed(vram.info[..], RAM_BASE, RAM_START_SECTOR)
      && Placed(vrom.info[..], ROM_BASE, ROM_START_SECTOR)
    }

    ghost predicate Wired()
      reads Repr
    {
      Joined() && Sized(View())
    }

    /** The static variables at power-up; the location registers and first-level entries hold anything. */
    constructor (codec: Codec, flash: seq<Sector>, sectors: seq<Sector>, locations: seq<nat>, entries: seq<L1>)
      requires |flash| == ROM_PAGES / 2 && |sectors| == RAM_PAGES / 2
      requires |locations| == |entries| == SLOTS
      ensures Fitted() && forall i :: 0 <= i < mmu.l2.Length ==> mmu.l2[i] == 0
      ensures zram == map[] && ftl[..] == sectors && this.flash == flash && !swap && this.codec == codec
    {
      hide Linked, LinkOf, MmuTable.Valid, Permutation;
      this.codec := codec;
      vram := new FrameList(RAM_FRAMES);
      vrom := new FrameList(ROM_FRAMES);
      mem := new Page[ROM_FRAMES + RAM_FRAMES](_ => ZERO_PAGE);
      zram := map[];
      ftl := new Sector[RAM_PAGES / 2](i requires 0 <= i < RAM_PAGES / 2 => sectors[i]);
      this.flash := flash;
      swap := false;
      mmu := new Mmu.Unit(locations, entries);
    }

    /** `vmMgr_init`, up to the table of areas, which is fixed here. */
    method Init()
      requires Fitted() && forall i :: 0 <= i < mmu.l2.Length ==> mmu.l2[i] == 0
      modifies vram, vram.prev, vram.next, vram.info, vrom, vrom.prev, vrom.next, vrom.info, mem
      modifies mmu, mmu.loc, mmu.slot, mmu.l2, mmu.segOf, mmu.valOf
      ensures Wired() && Unused(View()) && forall q :: FullEntry(View().mmu, q) == 0
    {
      mmu.Init();
      ZeroTable(mmu.View());
      hide Linked, MmuTable.Valid, Permutation, Sized, FullEntry, Joined, Unused;
      ReleaseAllPage();
    }

    /** `vmMgr_ReleaseAllPage`. */
    method ReleaseAllPage()
      requires Fitted() && MmuTable.Valid(mmu.View())
      modifies vram, vram.prev, vram.next, vram.info, vrom, vrom.prev, vrom.next, vrom.info, mem
      modifies mmu, mmu.loc, mmu.slot, mmu.l2
      ensures Wired() && Unused(View())
      ensures forall q :: FullEntry(View().mmu, q) ==
                          if InRam(q) || InRom(q) then 0 else old(FullEntry(mmu.View(), q))
    {
      hide FullEntry, Linked, MmuTable.Valid, Placed, Permutation;
      ReleaseFrames();
      UnmapArea(ROM_BASE, ROM_PAGES);
      UnmapArea(RAM_BASE, RAM_PAGES);
      UnusedIsSized(View());
    }

    method ReleaseFrames()
      requires Fitted()
      modifies vram, vram.prev, vram.next, vram.info, vrom, vrom.prev, vrom.next, vrom.info, mem
      ensures Fitted() && Joined()
      ensures Unused(View()) && vram.order == Ascending(RAM_FRAMES) && vrom.order == Ascending(ROM_FRAMES)
    {
      forall i | 0 <= i < mem.Length { mem[i] := ZERO_PAGE; }
      vrom.Reset();
      vram.Reset();
      hide Linked;
      UnusedFrames(vram.info[..]);
      UnusedFrames(vrom.info[..]);
    }

    /** Everything in place, whatever the frames hold. */
    ghost predicate Fitted()
      reads Repr
    {
      && Apart()
      && vram.Shaped() && vrom.Shaped() && mmu.Wired()
      && vram.info.Length == RAM_FRAMES && vrom.info.Length == ROM_FRAMES && mem.Length == ROM_FRAMES + RAM_FRAMES
      && ftl.Length == RAM_PAGES / 2 && |flash| == ROM_PAGES / 2
    }

    method UnmapOne(page: nat)
      requires mmu.Wired() && MmuTable.Valid(mmu.View()) && (InRam(page) || InRom(page))
      modifies mmu, mmu.loc, mmu.slot, mmu.l2
      ensures mmu.Wired() && MmuTable.Valid(mmu.View())
      ensures forall q: nat :: FullEntry(mmu.View(), q) == if q == page then 0 else old(FullEntry(mmu.View(), q))
    {
      hide FullEntry, PutEntry, MmuTable.Valid, Registered;
      AreasRegistered(page);
      PutEntryRefines(mmu.View(), page, 0);
      assert page * PAGE_SIZE / 0x400 == page;
      mmu.UnmapPage(page * PAGE_SIZE);
    }

    method UnmapArea(base: nat, pages: nat)
      requires mmu.Wired() && MmuTable.Valid(mmu.View())
      requires (base == ROM_BASE && pages == ROM_PAGES) || (base == RAM_BASE && pages == RAM_PAGES)
      modifies mmu, mmu.loc, mmu.slot, mmu.l2
      ensures mmu.Wired() && MmuTable.Valid(mmu.View())
      ensures forall q: nat :: FullEntry(mmu.View(), q) == if base <= q < base + pages then 0 else old(FullEntry(mmu.View(), q))
    {
      hide FullEntry, PutEntry, MmuTable.Valid, Registered;
      ghost var m0 := mmu.View();
      var i := base;
      while i < base + pages
        invariant base <= i <= base + pages
        invariant mmu.Wired() && MmuTable.Valid(mmu.View())
        invariant forall q: nat :: FullEntry(mmu.View(), q) == if base <= q < i then 0 else FullEntry(m0, q)
      {
        UnmapOne(i);
        i := i + 1;
      }
    }

    /** The allocator has nothing for the page: its old block is gone too. */
    method DropBlock(ind: nat)
      requires Wired()
      modifies this`zram
      ensures Wired() && View() == old(View()).(zram := old(View()).zram - {ind})
    {
      SizesOf();
      hide Linked, Placed, FramesInAreas, Permutation, MmuTable.Valid;
      zram := zram - {ind};
    }

    /** The page compressed into the block the allocator grants for it. */
    method StoreBlock(f: nat, ind: nat, rest: seq<byte>)
      requires Wired() && f < RAM_FRAMES
      modifies this`zram
      ensures |old(View()).mem| == ROM_FRAMES + RAM_FRAMES && Wired()
      ensures View() == old(View()).(zram := old(View()).zram[ind := codec.compress(old(View()).mem[ROM_FRAMES + f]) + rest])
    {
      SizesOf();
      hide Linked, Placed, FramesInAreas, Permutation, MmuTable.Valid;
      zram := zram[ind := codec.compress(mem[ROM_FRAMES + f]) + rest];
    }

    method MarkClean(f: nat)
      requires Wired() && f < RAM_FRAMES
      modifies vram.info
      ensures Wired() && View() == Cleaned(old(View()), f)
      ensures vram.info[f].page == old(vram.info[f].page)
    {
      SizesOf();
      hide Linked, Placed, Sized;
      ghost var info0 := vram.info[..];
      FramesUpdate(info0, f, info0[f].(dirty := false));
      PlacedClean(info0, f, RAM_BASE, RAM_START_SECTOR);
      vram.info[f] := vram.info[f].(dirty := false);
      assert vram.info[..] == info0[f := info0[f].(dirty := false)];
    }

    /** `save_cache_page`, up to the wait for the page's sector if there is one. */
    method SaveCachePage(f: nat, grant: Option<seq<byte>>) returns (ret: int, waits: bool)
      requires Wired() && f < RAM_FRAMES
      modifies this`zram, vram.info
      ensures Wired() && View() == SavedState(codec, old(View()), f, grant)
      ensures waits == SaveWaits(old(View()), f)
      ensures ret == if !SaveRefused(old(View()), f, grant) then 0
                     else if old(View()).ram.frames[f].page - RAM_BASE < ZRAM_PAGES then -2 else -3
    {
      hide Joined, View, Sized, SavedState, Cleaned, SaveWaits, SaveRefused;
      ret, waits := 0, false;
      SizesOf();
      SavedStateIs(codec, View(), f, grant);
      if vram.info[f].dirty {
        var ind, sector, k := Place(f);
        if ind < ZRAM_PAGES {
          ret := SaveCompressed(f, ind, grant);
        } else if swap {
          waits := true;
        } else {
          ret := -3;
        }
      }
    }

    /** The branch for the pages of the compressed store. */
    method SaveCompressed(f: nat, ind: nat, grant: Option<seq<byte>>) returns (ret: int)
      requires Wired() && f < RAM_FRAMES && View().ram.frames[f].dirty
      requires ind == View().ram.frames[f].page - RAM_BASE < ZRAM_PAGES
      modifies this`zram, vram.info
      ensures Wired() && View() == SavedState(codec, old(View()), f, grant) && ret == if grant == None then -2 else 0
    {
      hide Joined, View, Sized, SavedState, Cleaned, SaveWaits, SaveRefused;
      match grant
      case None =>
        SavedNone(codec, View(), f, ind);
        DropBlock(ind);
        ret := -2;
      case Some(rest) =>
        SavedSome(codec, View(), f, ind, rest);
        StoreBlock(f, ind, rest);
        MarkClean(f);
        ret := 0;
    }

    /** The victim's page copied into its sector, once that has been read. */
    method CopyIntoSector(f: nat, x: Flash) returns (buf: Sector)
      requires Wired() && f < RAM_FRAMES && View().ram.frames[f].dirty
      ensures buf == CopiedIn(View(), f, x)
    {
      hide Joined, View, Sized, SetHalf, CopiedIn;
      SizesOf();
      var ind, sector, k := Place(f);
      CopiedInIs(View(), f, x, ind);
      var page: Page := mem[ROM_FRAMES + f];
      buf := Arrived(x, ftl[sector]);
      SplicedIsSetHalf(buf, k, page);
      buf := buf[..k * PAGE_SIZE] + page + buf[(k + 1) * PAGE_SIZE..];
    }

    /** The end of `save_cache_page`: whatever came of the write, the page counts as saved. */
    method SectorWritten(f: nat, buf: Sector, x: Flash)
      requires Wired() && f < RAM_FRAMES && View().ram.frames[f].dirty
      modifies ftl, vram.info
      ensures Wired() && View() == WrittenBack(old(View()), f, buf, x)
    {
      SizesOf();
      var ind, sector, k := Place(f);
      WrittenBackIs(View(), f, buf, x, ind);
      hide Joined, View, Sized, WrittenBack, Cleaned;
      if x.Good? {
        WriteSector(sector, buf);
      }
      MarkClean(f);
    }

    method WriteSector(sector: nat, buf: Sector)
      requires Wired() && sector < RAM_PAGES / 2
      modifies ftl
      ensures Wired() && View() == old(View()).(ftl := old(View()).ftl[sector := buf])
      ensures vram.info[..] == old(vram.info[..])
    {
      SizesOf();
      hide Linked, Placed, FramesInAreas, Permutation, MmuTable.Valid;
      ftl[sector] := buf;
    }

    // ----- the handler

    /** `get_vram_page_and_move_to_tail` */
    method TakeVram() returns (f: nat)
      requires Wired() && View().link != Looped
      modifies vram, vram.prev, vram.next
      ensures Wired() && View() == Rotated(old(View()))
      ensures f == old(vram.order)[0] < RAM_FRAMES
    {
      hide Linked, Placed, Touch, MmuTable.Valid, Sized, FramesOf, Permutation, LinkOf, Rotated;
      ReorderedRam(View());
      vram.GetPageAndMoveToTail();
      f := vram.cur;
    }

    method TakeVrom() returns (f: nat)
      requires Wired()
      modifies vrom, vrom.prev, vrom.next
      ensures |old(vrom.order)| > 0 && f == old(vrom.order)[0] < ROM_FRAMES
      ensures Wired() && View() == RomRotated(old(View()))
    {
      hide Linked, Placed, Touch, MmuTable.Valid, Sized, FramesOf, Permutation, RomRotated;
      ReorderedRom(View());
      vrom.GetPageAndMoveToTail();
      f := vrom.cur;
    }

    method Unmap(page: nat)
      requires Wired() && (InRam(page) || InRom(page))
      modifies mmu, mmu.loc, mmu.slot, mmu.l2
      ensures Wired() && View() == SetPage(old(View()), page, 0)
    {
      hide Linked, Placed, PutEntry, MmuTable.Valid, Sized, FramesOf, Registered;
      SizesOf();
      PutIs(View(), page, 0);
      hide SetPage;
      mmu.UnmapPage(page * PAGE_SIZE);
    }

    method Map(page: nat, g: nat, writable: bool)
      requires Wired() && (InRam(page) || InRom(page))
      modifies mmu, mmu.loc, mmu.slot, mmu.l2
      ensures Wired() && View() == SetPage(old(View()), page, EntryOf(g, writable))
    {
      hide Linked, Placed, PutEntry, MmuTable.Valid, Sized, FramesOf, TinyPage, Registered;
      SizesOf();
      PutIs(View(), page, EntryOf(g, writable));
      hide SetPage;
      mmu.MapPage(page * PAGE_SIZE, PAGE_SIZE * g, if writable then AP_READWRITE else AP_READONLY, true, true);
    }

    /** The frame's record for its new page. */
    method AssignVram(f: nat, page: nat)
      requires Wired() && f < RAM_FRAMES && InRam(page)
      modifies vram.info
      ensures Wired() && View() == SetFrame(old(View()), f, Frame(page, false))
      ensures vram.info[f] == InfoOf(page, RAM_BASE, RAM_START_SECTOR)
    {
      SizesOf();
      hide Linked, Placed, Sized;
      ghost var info0 := vram.info[..];
      PlacedUpdate(info0, f, page, RAM_BASE, RAM_START_SECTOR);
      vram.info[f] := Info(page, RAM_START_SECTOR + (page - RAM_BASE) / 2, if page % 2 == 1 then PAGE_SIZE else 0, false);
      assert vram.info[..] == info0[f := InfoOf(page, RAM_BASE, RAM_START_SECTOR)];
    }

    method AssignVrom(f: nat, page: nat)
      requires Wired() && f < ROM_FRAMES && InRom(page)
      modifies vrom.info
      ensures Wired() && View() == SetRomFrame(old(View()), f, Frame(page, false))
    {
      SizesOf();
      hide Linked, Placed, Sized;
      ghost var info0 := vrom.info[..];
      PlacedUpdate(info0, f, page, ROM_BASE, ROM_START_SECTOR);
      vrom.info[f] := Info(page, ROM_START_SECTOR + (page - ROM_BASE) / 2, if page % 2 == 1 then PAGE_SIZE else 0, false);
      assert vrom.info[..] == info0[f := InfoOf(page, ROM_BASE, ROM_START_SECTOR)];
    }

    method FillFrame(g: nat, p: Page)
      requires Wired() && g < ROM_FRAMES + RAM_FRAMES
      modifies mem
      ensures Wired() && View() == PutMem(old(View()), g, p)
    {
      SizesOf();
      hide Linked, Placed, FramesInAreas, Permutation, MmuTable.Valid;
      mem[g] := p;
    }

    method UnmapVictim(f: nat)
      requires Wired() && f < RAM_FRAMES
      modifies mmu, mmu.loc, mmu.slot, mmu.l2
      ensures HeldRight(old(View()), f)
      ensures Wired() && View() == Unmapped(old(View()), old(View()).ram.frames[f].page)
    {
      SizesOf();
      HeldInRam(f);
      hide Joined, View, Sized, SetPage;
      if vram.info[f].page != 0 {
        Unmap(vram.info[f].page);
      }
    }

    /** The victim's frame given to the page, up to the wait for its sector if there is one. */
    method GiveVram(f: nat, page: nat) returns (phase: Phase, v: Option<Verdict>)
      requires Wired() && f < RAM_FRAMES && InRam(page)
      modifies mem, vram.info, mmu, mmu.loc, mmu.slot, mmu.l2
      ensures Wired() && Progress(View(), phase, v) == Give(codec, old(View()), f, page)
    {
      hide Joined, View, Sized, SetPage, Unmapped, SetFrame, Bring, Give;
      GiveIs(codec, View(), f, page);
      UnmapVictim(f);
      AssignVram(f, page);
      phase, v := BringVram(f, page);
    }

    /** The page brought into its frame and mapped, or waited for. */
    method BringVram(f: nat, page: nat) returns (phase: Phase, v: Option<Verdict>)
      requires Wired() && f < RAM_FRAMES && InRam(page) && vram.info[f] == InfoOf(page, RAM_BASE, RAM_START_SECTOR)
      modifies mem, mmu, mmu.loc, mmu.slot, mmu.l2
      ensures Wired() && Progress(View(), phase, v) == Bring(codec, old(View()), f, page)
    {
      hide Joined, View, Sized, SetPage, EntryOf, PutMem, Bring, Unpacked;
      FieldsOf();
      var ind := IndexHeld(f, page);
      if ind < ZRAM_PAGES && ind in zram {
        BringStored(codec, View(), f, page, ind);
        ShowStored(ROM_FRAMES + f, page, ind);
        return Idle, Some(Resume);
      }
      BringOther(codec, View(), f, page);
      if ind >= ZRAM_PAGES && swap {
        return RamLoad(f, page), None;
      }
      Map(page, ROM_FRAMES + f, false);
      phase, v := Idle, Some(Resume);
    }

    method ShowStored(g: nat, page: nat, ind: nat)
      requires Wired() && g < ROM_FRAMES + RAM_FRAMES && InRam(page) && ind in View().zram
      modifies mem, mmu, mmu.loc, mmu.slot, mmu.l2
      ensures Wired()
      ensures View() == SetPage(PutMem(old(View()), g, Unpacked(codec, old(View()).zram[ind])), page, EntryOf(g, false))
    {
      hide Joined, View, Sized, SetPage, EntryOf, PutMem;
      FieldsOf();
      var p := Unpacked(codec, zram[ind]);
      ShowInFrame(g, page, p);
    }

    method IndexHeld(f: nat, ghost page: nat) returns (ind: nat)
      requires f < vram.info.Length && InRam(page) && vram.info[f] == InfoOf(page, RAM_BASE, RAM_START_SECTOR)
      ensures ind == page - RAM_BASE
    {
      IndexOfPlace(page);
      ind := (vram.info[f].sector * SECTOR_SIZE + vram.info[f].offset) / PAGE_SIZE;
    }

    method CopyFromSector(f: nat, page: nat, x: Flash) returns (p: Page)
      requires Wired() && CanGoOn(View(), RamLoad(f, page)) && PhaseOk(View(), RamLoad(f, page))
      ensures InRam(page) && Sized(View()) && p == LoadedHalf(View(), page, x)
    {
      hide Joined, View, Sized, Half, PhaseOk, CanGoOn;
      PlaceOf(f, page);
      p := CopyOut(Arrived(x, ftl[vram.info[f].sector]), vram.info[f].offset, HalfOf(page - RAM_BASE));
    }

    /** The page's half of its sector copied into its frame, and the page mapped. */
    method SectorArrived(f: nat, page: nat, x: Flash)
      requires Wired() && CanGoOn(View(), RamLoad(f, page)) && PhaseOk(View(), RamLoad(f, page))
      modifies mem, mmu, mmu.loc, mmu.slot, mmu.l2
      ensures Wired() && Over(View(), Resume) == GoOn(codec, old(View()), RamLoad(f, page), x)
    {
      hide Joined, View, Sized, GoOn, PhaseOk, CanGoOn, LoadedHalf, SetPage, PutMem, EntryOf;
      ArrivedIs(codec, View(), f, page, x);
      var p := CopyFromSector(f, page, x);
      ShowInFrame(ROM_FRAMES + f, page, p);
    }

    /** A page's contents put into a frame, and the page mapped to it read-only. */
    method ShowInFrame(g: nat, page: nat, p: Page)
      requires Wired() && g < ROM_FRAMES + RAM_FRAMES && (InRam(page) || InRom(page))
      modifies mem, mmu, mmu.loc, mmu.slot, mmu.l2
      ensures Wired() && View() == SetPage(PutMem(old(View()), g, p), page, EntryOf(g, false))
    {
      hide Joined, View, Sized, SetPage, EntryOf, PutMem;
      FillFrame(g, p);
      Map(page, g, false);
    }

    /** A miss in the RAM area, up to its first wait. */
    method HandleRamMiss(page: nat, grant: Option<seq<byte>>) returns (phase: Phase, v: Option<Verdict>)
      requires Wired() && InRam(page) && View().link != Looped
      modifies this`zram, mem, vram, vram.prev, vram.next, vram.info, mmu, mmu.loc, mmu.slot, mmu.l2
      ensures Wired() && Progress(View(), phase, v) == RamMiss(codec, old(View()), page, grant)
    {
      SizesOf();
      RamMissCases(codec, View(), page, grant);
      hide Joined, View, Sized, Touch, Give, RamMiss, Rotated, SavedState, SaveRefused, SaveWaits;
      var f := TakeVram();
      var ret, waits := SaveCachePage(f, grant);
      if ret == -2 {
        return Idle, Some(Kill(ZramOom));
      } else if ret == -3 {
        return Idle, Some(Kill(SwapNotEnabled));
      }
      if waits {
        return SaveRead(f, page), None;
      }
      phase, v := GiveVram(f, page);
    }

    /** A miss in the ROM area, up to the wait for the image. */
    method HandleRomMiss(page: nat) returns (phase: Phase, v: Option<Verdict>)
      requires Wired() && InRom(page)
      modifies vrom, vrom.prev, vrom.next, vrom.info, mmu, mmu.loc, mmu.slot, mmu.l2
      ensures Wired() && Progress(View(), phase, v) == RomMiss(old(View()), page)
    {
      SizesOf();
      ReorderedRom(View());
      hide Joined, View, Sized, Touch, SetPage, RomRotated, SetRomFrame, Unmapped;
      var f := TakeVrom();
      UnmapVromVictim(f);
      AssignVrom(f, page);
      phase, v := RomLoad(f, page), None;
    }

    method UnmapVromVictim(f: nat)
      requires Wired() && f < ROM_FRAMES
      modifies mmu, mmu.loc, mmu.slot, mmu.l2
      ensures HeldRightRom(old(View()), f)
      ensures Wired() && View() == Unmapped(old(View()), old(View()).rom.frames[f].page)
    {
      SizesOf();
      HeldInRom(f);
      hide Joined, View, Sized, SetPage;
      if vrom.info[f].page != 0 {
        Unmap(vrom.info[f].page);
      }
    }

    method ImageArrived(f: nat, page: nat, x: Flash)
      requires Wired() && CanGoOn(View(), RomLoad(f, page)) && PhaseOk(View(), RomLoad(f, page))
      modifies mem, mmu, mmu.loc, mmu.slot, mmu.l2
      ensures Wired() && Over(View(), Resume) == GoOn(codec, old(View()), RomLoad(f, page), x)
    {
      hide Joined, View, Sized, SetPage, EntryOf, PutMem, Half, GoOn, PhaseOk, CanGoOn;
      RomArrivedIs(codec, View(), f, page, x);
      RomPlaceOf(f, page);
      var p := CopyOut(Arrived(x, flash[vrom.info[f].sector - ROM_START_SECTOR]), vrom.info[f].offset, HalfOf(page - ROM_BASE));
      ShowInFrame(f, page, p);
    }

    method SetDirty(f: nat)
      requires Joined() && f < vram.info.Length
      modifies vram.info
      ensures Joined() && (old(vram.Valid()) ==> vram.Valid())
      ensures View() == old(View()).(ram := Cache(vram.order, old(View()).ram.frames[f := Frame(vram.info[f].page, true)]))
      ensures vram.info[f].page == old(vram.info[f].page)
    {
      hide Linked, Placed;
      ghost var info0 := vram.info[..];
      PlacedDirty(info0, f, RAM_BASE, RAM_START_SECTOR);
      vram.info[f] := vram.info[f].(dirty := true);
      assert vram.info[..] == info0[f := info0[f].(dirty := true)];
    }

    /** `move_vram_cache_page_to_tail` */
    method MoveVram(f: nat)
      requires Joined() && vram.Valid() && f < vram.info.Length
      modifies vram, vram.prev, vram.next
      ensures Joined() && f in old(vram.order) && old(vram.order) != []
      ensures View() == old(View()).(ram := Cache(Touch(old(vram.order), f), old(View()).ram.frames),
                                     link := MovedLink(old(vram.order), old(vram.Link()), f))
    {
      vram.Has(f);
      hide Linked, Placed, Touch, LinkOf, MovedLink;
      vram.MoveToTail(f);
    }

    /** The frame is marked written and moved behind the others. */
    method MarkDirty(f: nat, page: nat)
      requires Wired() && InRam(page) && Holds(View().ram.frames, f, page) && View().link != Looped
      modifies vram, vram.prev, vram.next, vram.info
      ensures Wired() && View() == WriteMark(old(View()), page, f)
    {
      SizesOf();
      WriteMarkIs(View(), page, f);
      ghost var s := View();
      hide Joined, Sized, Touch, WriteMark, MovedLink, LinkOf, Linked, FramesOf;
      SetDirty(f);
      MoveVram(f);
    }

    method SearchVram(page: nat) returns (f: int)
      requires Wired() && View().link != Looped
      ensures f == NULL <==> Found(View(), page) < 0
      ensures f != NULL ==> f >= 0 && f == View().ram.order[Found(View(), page)]
    {
      SearchFinds(page);
      hide Sized, FramesOf, LastPlace, Found, Linked, Placed;
      f := vram.Search(page);
    }

    /** A write fault, for a page mapped read-only when it was raised. */
    method HandleWriteFault(page: nat) returns (v: Verdict)
      requires Wired() && InRam(page) && View().link != Looped
      modifies vram, vram.prev, vram.next, vram.info, mmu, mmu.loc, mmu.slot, mmu.l2
      ensures Wired() && Over(View(), v) == WriteFault(old(View()), page)
    {
      hide Joined, View, Sized, WriteAt, WriteFault, LastPlace, Found;
      WriteFaultIs(View(), page);
      var f := SearchVram(page);
      if f == NULL {
        return Hang;
      }
      MapWritable(f, page);
      v := Resume;
    }

    /** The frame marked and moved, and its page mapped again, now writable. */
    method MapWritable(f: nat, page: nat)
      requires Wired() && InRam(page) && Holds(View().ram.frames, f, page) && View().link != Looped
      modifies vram, vram.prev, vram.next, vram.info, mmu, mmu.loc, mmu.slot, mmu.l2
      ensures Wired() && View() == WriteAt(old(View()), page, f)
    {
      hide Joined, View, Sized, SetPage, EntryOf, WriteMark;
      MarkDirty(f, page);
      Unmap(page);
      Map(page, ROM_FRAMES + f, true);
    }

    lemma SearchFinds(page: nat)
      requires Wired()
      ensures Found(View(), page) == LastPlace(vram.order, vram.Pages(), page, |vram.order|)
      ensures View().ram.order == vram.order
    {
      assert vram.Pages() == PagesOf(View().ram.frames);
    }

    method Reload(page: nat) returns (code: nat)
      requires Wired() && Seg(page) != FREE_SEG
      modifies mmu, mmu.loc, mmu.slot
      ensures Wired() && View() == Reloaded(old(View()), page) && code == ReloadCode(old(View()).mmu, Seg(page))
    {
      SizesOf();
      ReloadedIs(View(), page);
      ghost var s := View();
      hide Linked, Placed, Sized, FramesOf, BringIn, ReloadCode, MmuTable.Valid, Reloaded;
      code := mmu.ReloadDflptSeg(page / PAGES_PER_SEG);
      assert Joined();
      assert View() == s.(mmu := mmu.View());
    }

    /** The handler proper, by the reason of the fault. */
    method RepairFault(page: nat, kind: Kind, grant: Option<seq<byte>>) returns (phase: Phase, v: Option<Verdict>)
      requires Wired() && View().link != Looped
      modifies this`zram, mem, vram, vram.prev, vram.next, vram.info, vrom, vrom.prev, vrom.next, vrom.info
      modifies mmu, mmu.loc, mmu.slot, mmu.l2
      ensures Wired() && Progress(View(), phase, v) == Repair(codec, old(View()), page, kind, grant)
    {
      hide Joined, View, Sized, RamMiss, RomMiss, WriteFault;
      phase := Idle;
      if !InRom(page) && !InRam(page) {
        return Idle, Some(Kill(NotMapped));
      }
      match kind
      case UnmapDab | UnmapPab =>
        if InRom(page) {
          phase, v := HandleRomMiss(page);
        } else {
          phase, v := HandleRamMiss(page, grant);
        }
      case WriteReadOnly =>
        if InRam(page) {
          var w := HandleWriteFault(page);
          v := Some(w);
        } else {
          v := Some(Kill(NotWritable));
        }
      case Other => v := Some(Hang);
    }

    /** The body of `vmMgr_task` for one fault, whether or not the present page table would raise it, up to its
        first wait for the flash memory. */
    method BeginService(page: nat, kind: Kind, grant: Option<seq<byte>>) returns (phase: Phase, v: Option<Verdict>)
      requires Wired() && Seg(page) != FREE_SEG && View().link != Looped
      modifies this`zram, mem, vram, vram.prev, vram.next, vram.info, vrom, vrom.prev, vrom.next, vrom.info
      modifies mmu, mmu.loc, mmu.slot, mmu.l2
      ensures Wired() && Progress(View(), phase, v) == Begin(codec, old(View()), page, kind, grant)
    {
      SizesOf();
      ReloadedIs(View(), page);
      hide Joined, View, Sized, Repair, ReloadCode, Reloaded;
      var code := Reload(page);
      if code == 2 {
        return Idle, Some(Resume);
      }
      phase, v := RepairFault(page, kind, grant);
    }

    /** From one wait to the next, whatever the flash memory answered and whatever other tasks wrote to their
        pages meanwhile. */
    method GoOnService(phase: Phase, x: Flash) returns (phase': Phase, v: Option<Verdict>)
      requires Wired() && CanGoOn(View(), phase) && PhaseOk(View(), phase)
      modifies ftl, mem, vram.info, mmu, mmu.loc, mmu.slot, mmu.l2
      ensures Wired() && Progress(View(), phase', v) == GoOn(codec, old(View()), phase, x)
    {
      hide Joined, View, Sized, Give, WrittenBack, CopiedIn, SetPage, EntryOf, PutMem, Half;
      match phase
      case SaveRead(f, page) =>
        var buf := CopyIntoSector(f, x);
        phase', v := SaveWrite(f, page, buf), None;
      case SaveWrite(f, page, buf) =>
        SectorWritten(f, buf, x);
        phase', v := GiveVram(f, page);
      case RamLoad(f, page) =>
        SectorArrived(f, page, x);
        phase', v := Idle, Some(Resume);
      case RomLoad(f, page) =>
        ImageArrived(f, page, x);
        phase', v := Idle, Some(Resume);
    }

    /** A service with nothing in between: the flash memory gives the answers one after the other. */
    method ServeFault(page: nat, kind: Kind, grant: Option<seq<byte>>, answers: seq<Flash>) returns (v: Option<Verdict>)
      requires Wired() && Seg(page) != FREE_SEG && View().link != Looped && |answers| >= 3
      modifies this`zram, ftl, mem, vram, vram.prev, vram.next, vram.info, vrom, vrom.prev, vrom.next, vrom.info
      modifies mmu, mmu.loc, mmu.slot, mmu.l2
      ensures Wired() && Progress(View(), Idle, v) == Served(codec, old(View()), page, kind, grant, answers)
    {
      SizesOf();
      ghost var s := View();
      BeginWaits(codec, s, page, kind, grant);
      hide Joined, View, Sized, Begin, GoOn, PhaseOk;
      var phase;
      phase, v := BeginService(page, kind, grant);
      ghost var r := Begin(codec, s, page, kind, grant);
      ThroughEnds(codec, r, answers);
      var rest := answers;
      while phase != Idle
        invariant Wired() && Sized(View()) && PhaseOk(View(), phase)
        invariant |rest| >= WaitsLeft(phase)
        invariant Through(codec, Progress(View(), phase, v), rest) == Through(codec, r, answers)
        decreases |rest|
      {
        ThroughOne(codec, Progress(View(), phase, v), rest);
        WaitsLess(codec, View(), phase, rest[0]);
        phase, v := GoOnService(phase, rest[0]);
        rest := rest[1..];
      }
    }

    lemma HeldInRom(f: nat)
      requires Wired() && f < ROM_FRAMES
      ensures f < vrom.info.Length && (vrom.info[f].page != 0 ==> InRom(vrom.info[f].page))
    {
      SizesOf();
      hide Linked, Placed, Permutation, MmuTable.Valid;
      assert View().rom.frames[f].page == vrom.info[f].page;
    }

    lemma HeldInRam(f: nat)
      requires Wired() && f < RAM_FRAMES
      ensures f < vram.info.Length && (vram.info[f].page != 0 ==> InRam(vram.info[f].page))
    {
      SizesOf();
      hide Linked, Placed, Permutation, MmuTable.Valid;
      assert View().ram.frames[f].page == vram.info[f].page;
    }

    lemma SizesOf()
      requires Wired()
      ensures Joined() && Sized(View()) && MmuTable.Valid(mmu.View())
      ensures mem.Length == ROM_FRAMES + RAM_FRAMES && ftl.Length == RAM_PAGES / 2
      ensures vram.info.Length == RAM_FRAMES && vrom.info.Length == ROM_FRAMES
      ensures View().zram == zram && View().swap == swap && View().ftl == ftl[..] && View().mem == mem[..]
      ensures forall f :: 0 <= f < RAM_FRAMES ==> View().ram.frames[f] == FrameOfInfo(vram.info[f])
      ensures forall f :: 0 <= f < ROM_FRAMES ==> View().rom.frames[f] == FrameOfInfo(vrom.info[f])
    {
      hide Permutation, MmuTable.Valid, Linked, FramesInAreas, Placed;
    }

    lemma FieldsOf()
      requires Wired()
      ensures View().zram == zram && View().swap == swap && vram.info.Length == RAM_FRAMES
    {
      SizesOf();
    }

    /** Where the page that a service waits for is to be found. */
    lemma PlaceOf(f: nat, page: nat)
      requires Wired() && CanGoOn(View(), RamLoad(f, page)) && PhaseOk(View(), RamLoad(f, page))
      ensures f < RAM_FRAMES && InRam(page) && f < vram.info.Length
      ensures vram.info[f].sector < ftl.Length && |View().ftl| == ftl.Length
      ensures ftl[vram.info[f].sector] == View().ftl[vram.info[f].sector]
      ensures vram.info[f].sector == SectorOf(page - RAM_BASE) && vram.info[f].offset == HalfOf(page - RAM_BASE) * PAGE_SIZE
    {
      SizesOf();
      hide Permutation, MmuTable.Valid, Linked;
      assert vram.info[..][f].page == page;
      IndexOfPlace(page);
    }

    lemma RomPlaceOf(f: nat, page: nat)
      requires Wired() && CanGoOn(View(), RomLoad(f, page)) && PhaseOk(View(), RomLoad(f, page))
      ensures f < ROM_FRAMES && InRom(page) && f < vrom.info.Length
      ensures 0 <= vrom.info[f].sector - ROM_START_SECTOR < |flash| && flash == View().flash
      ensures vrom.info[f].sector - ROM_START_SECTOR == SectorOf(page - ROM_BASE)
      ensures vrom.info[f].offset == HalfOf(page - ROM_BASE) * PAGE_SIZE
    {
      SizesOf();
      hide Permutation, MmuTable.Valid, Linked;
      assert vrom.info[..][f].page == page;
    }

    /** Where a dirty frame's page is stored: its index, the sector and the half of the sector. */
    method Place(f: nat) returns (ind: nat, sector: nat, k: nat)
      requires Wired() && f < RAM_FRAMES && vram.info[f].dirty
      ensures 0 <= ind == View().ram.frames[f].page - RAM_BASE < RAM_PAGES
      ensures sector == ind / 2 && k == ind % 2
    {
      SizesOf();
      hide Permutation, MmuTable.Valid, Linked, View;
      assert vram.info[..][f].page == View().ram.frames[f].page != 0;
      IndexOfPlace(vram.info[f].page);
      ind := (vram.info[f].sector * SECTOR_SIZE + vram.info[f].offset) / PAGE_SIZE;
      sector, k := vram.info[f].sector, vram.info[f].offset / PAGE_SIZE;
    }
  }

  lemma PlacedClean(info: seq<Info>, f: nat, base: nat, start: nat)
    requires Placed(info, base, start) && f < |info|
    ensures Placed(info[f := info[f].(dirty := false)], base, start)
  {
  }

  lemma PlacedDirty(info: seq<Info>, f: nat, base: nat, start: nat)
    requires Placed(info, base, start) && f < |info|
    ensures Placed(info[f := info[f].(dirty := true)], base, start)
    ensures FramesOf(info[f := info[f].(dirty := true)]) == FramesOf(info)[f := Frame(info[f].page, true)]
  {
  }

  lemma PlacedUpdate(info: seq<Info>, f: nat, page: nat, base: nat, start: nat)
    requires Placed(info, base, start) && f < |info| && base <= page
    ensures Placed(info[f := InfoOf(page, base, start)], base, start)
    ensures FramesOf(info[f := InfoOf(page, base, start)]) == FramesOf(info)[f := Frame(page, false)]
  {
  }
}
