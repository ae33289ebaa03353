/** Write faults, the accesses that reach their frame, and the swap area's switch: which of them keep the
    written bytes, and what is read. */
module PagerAccess {
  import opened Basics
  import opened MmuTable
  import opened LruList
  import opened Pager
  import opened PagerTheory
  import opened PagerSteps

  // ----- a write fault

  /** All that a write fault on the page in frame f changes: the frame is dirty, its mapping writable. */
  ghost predicate Dirtied(s: State, s': State, f: nat, page: nat)
    requires Sized(s) && Sized(s') && f < RAM_FRAMES
  {
    && s'.ram.frames == s.ram.frames[f := Frame(page, true)]
    && f in s.ram.order && s'.ram.order == Touch(s.ram.order, f)
    && s'.link == MovedLink(s.ram.order, s.link, f)
    && s'.rom == s.rom && s'.mem == s.mem
    && s'.zram == s.zram && s'.ftl == s.ftl && s'.flash == s.flash && s'.swap == s.swap
    && forall q :: FullEntry(s'.mmu, q) == if q == page then EntryOf(ROM_FRAMES + f, true) else FullEntry(s.mmu, q)
  }

  lemma WriteAtDirties(s: State, page: nat, f: nat)
    requires Sized(s) && InRam(page) && Holds(s.ram.frames, f, page)
    ensures Dirtied(s, WriteAt(s, page, f), f, page)
  {
    hide PutEntry, EntryOf, FullEntry, Touch, MovedLink;
    var s1 := WriteMark(s, page, f);
    SetPageIs(s1, page, 0);
    SetPageIs(SetPage(s1, page, 0), page, EntryOf(ROM_FRAMES + f, true));
  }

  /** A write fault finds the page in some frame, marks it and answers, or does nothing at all. */
  lemma WriteFaultDirties(s: State, page: nat)
    requires Sized(s) && InRam(page) && s.link != Looped
    ensures var r := WriteFault(s, page);
            && r.phase == Idle
            && (Found(s, page) < 0 ==> r == Over(s, Hang))
            && (Found(s, page) >= 0 ==> r.verdict == Some(Resume) && Dirtied(s, r.s, s.ram.order[Found(s, page)], page))
  {
    hide Found, WriteAt, Dirtied;
    if Found(s, page) >= 0 {
      WriteAtDirties(s, page, s.ram.order[Found(s, page)]);
    }
  }

  /** The write fault that links the list to itself: its page is in the tail, whose forward link is stale. */
  ghost predicate Relinks(s: State, page: nat)
    requires Sized(s)
  {
    s.link == Stale && s.ram.frames[s.ram.order[RAM_FRAMES - 1]].page == page
  }

  /** The search begins at the tail. */
  lemma FoundAtTail(s: State, page: nat)
    requires Sized(s)
    ensures s.ram.order[RAM_FRAMES - 1] < RAM_FRAMES
    ensures Found(s, page) == RAM_FRAMES - 1 <==> s.ram.frames[s.ram.order[RAM_FRAMES - 1]].page == page
  {
  }

  lemma RelinksIff(s: State, page: nat)
    requires Sized(s) && s.link != Looped && Found(s, page) >= 0
    ensures MovedLink(s.ram.order, s.link, s.ram.order[Found(s, page)]) == Looped <==> Relinks(s, page)
  {
    hide Found, MmuTable.Valid;
    FoundAtTail(s, page);
  }

  /** When a write fault does no harm: the list survives it, and the frame that is found first, counting
      from the tail, shows the written bytes. */
  ghost predicate WriteFine(s: State, flat: Flat, page: nat)
    requires Sized(s)
  {
    && !Relinks(s, page)
    && (Found(s, page) >= 0 && Written(flat, page) ==> Shows(s.mem[ROM_FRAMES + s.ram.order[Found(s, page)]], flat, page))
  }

  lemma WriteFaultIff(c: Codec, s: State, flat: Flat, page: nat)
    requires Inv(c, s, flat) && InRam(page)
    ensures Inv(c, WriteFault(s, page).s, flat) <==> WriteFine(s, flat, page)
    ensures Relinks(s, page) ==> WriteFault(s, page).s.link == Looped
  {
    hide FullEntry, EntryOf, Named, Imaged, Kept, MovedLink, Found, WriteFault, Shows, Written, Dirtied;
    WriteFaultDirties(s, page);
    if Found(s, page) >= 0 {
      RelinksIff(s, page);
      var f, s' := s.ram.order[Found(s, page)], WriteFault(s, page).s;
      DirtiedNamed(s, s', f, page);
      DirtiedKeptIff(c, s, s', flat, f, page);
    } else {
      FoundAtTail(s, page);
    }
  }

  lemma DirtiedNamed(s: State, s': State, f: nat, page: nat)
    requires Sized(s) && Sized(s') && Named(s) && Imaged(s) && InRam(page)
    requires Holds(s.ram.frames, f, page) && Dirtied(s, s', f, page)
    ensures Named(s') && Imaged(s') && s'.link == MovedLink(s.ram.order, s.link, f)
  {
    hide FullEntry, EntryOf, Touch, MovedLink, Half;
    EntryFields(ROM_FRAMES + f, true);
    forall p | FullEntry(s'.mmu, p) != 0
      ensures MappedFrom(s', p)
    {
      if p != page {
        assert MappedFrom(s, p);
      }
    }
  }

  lemma DirtiedKeptIff(c: Codec, s: State, s': State, flat: Flat, f: nat, page: nat)
    requires Inv(c, s, flat) && Sized(s') && f < RAM_FRAMES && InRam(page) && Dirtied(s, s', f, page)
    ensures Kept(c, s', flat) <==> (Written(flat, page) ==> Shows(s.mem[ROM_FRAMES + f], flat, page))
  {
    hide FullEntry, EntryOf, Touch, MovedLink, Backing, Shows, Written, Named, Imaged;
    EntryFields(ROM_FRAMES + f, true);
    EntryNotNull(ROM_FRAMES + f, true);
    forall q | Written(flat, q)
      ensures InRam(q)
      ensures PageKept(c, s', flat, q) <==> (q == page ==> Shows(s.mem[ROM_FRAMES + f], flat, page))
    {
      assert PageKept(c, s, flat, q);
      BackingDependsOn(c, s, s', q);
    }
  }

  // ----- accesses that reach their frame

  /** A byte written through a writable mapping. */
  ghost function StoreByte(s: State, a: nat, b: byte): (s': State)
    requires Sized(s) && Reach(s, a / PAGE_SIZE, Store).Done?
    ensures Sized(s')
  {
    var g := Reach(s, a / PAGE_SIZE, Store).g;
    if g < |s.mem| then s.(mem := s.mem[g := s.mem[g][a % PAGE_SIZE := b]]) else s
  }

  lemma DoneMapped(s: State, page: nat, mode: Mode)
    requires Sized(s) && Named(s) && Reach(s, page, mode).Done? && Seg(page) != 0
    ensures var v := FullEntry(s.mmu, page);
            && v != 0 && Reach(s, page, mode).g == FrameOf(v) && (mode == Store ==> Writable(v))
            && FrameOf(v) < |s.mem|
            && MappedFrom(s, page)
            && (InRam(page) || InRom(page))
  {
    if Registered(Seg(page)) {
      WalkRefines(s.mmu, page);
    } else {
      WalkUnregistered(s.mmu, page);
    }
    assert MappedFrom(s, page);
  }

  lemma SameFrameSamePage(s: State, p: nat, q: nat)
    requires Sized(s) && Named(s) && FullEntry(s.mmu, p) != 0 && FullEntry(s.mmu, q) != 0
    requires FrameOf(FullEntry(s.mmu, p)) == FrameOf(FullEntry(s.mmu, q))
    ensures p == q
  {
    hide FullEntry, FrameOf, Permutation, MmuTable.Valid;
    assert MappedFrom(s, p) && MappedFrom(s, q);
  }

  /** A page's bytes after a write to it, and another page's. */
  lemma ShowsStored(p: Page, flat: Flat, a: nat, b: byte, q: nat)
    requires Shows(p, flat, q)
    ensures q == a / PAGE_SIZE ==> Shows(p[a % PAGE_SIZE := b], flat[a := b], q)
    ensures q != a / PAGE_SIZE ==> Shows(p, flat[a := b], q)
  {
    forall x | x in flat && x / PAGE_SIZE == q && x != a && q == a / PAGE_SIZE
      ensures x % PAGE_SIZE != a % PAGE_SIZE
    {
    }
  }

  lemma WrittenStored(flat: Flat, a: nat, b: byte, q: nat)
    requires Written(flat[a := b], q) && q != a / PAGE_SIZE
    ensures Written(flat, q)
  {
    var x :| x in flat[a := b] && x / PAGE_SIZE == q;
    assert x in flat;
  }

  /** What a write changes: one byte of the frame its page is mapped to. */
  lemma StoreShape(s: State, a: nat, b: byte)
    requires Sized(s) && Named(s) && Reach(s, a / PAGE_SIZE, Store).Done? && Seg(a / PAGE_SIZE) != 0
    ensures var g := FrameOf(FullEntry(s.mmu, a / PAGE_SIZE));
            && FullEntry(s.mmu, a / PAGE_SIZE) != 0 && Writable(FullEntry(s.mmu, a / PAGE_SIZE))
            && ROM_FRAMES <= g < |s.mem| && InRam(a / PAGE_SIZE) && Holds(s.ram.frames, g - ROM_FRAMES, a / PAGE_SIZE)
            && s.ram.frames[g - ROM_FRAMES].dirty
            && StoreByte(s, a, b) == s.(mem := s.mem[g := s.mem[g][a % PAGE_SIZE := b]])
  {
    hide FullEntry, EntryOf, Permutation, MmuTable.Valid, Registered;
    DoneMapped(s, a / PAGE_SIZE, Store);
  }

  lemma StoreNamed(s: State, a: nat, b: byte)
    requires Sized(s) && Named(s) && Imaged(s) && Reach(s, a / PAGE_SIZE, Store).Done? && Seg(a / PAGE_SIZE) != 0
    ensures Named(StoreByte(s, a, b)) && Imaged(StoreByte(s, a, b)) && StoreByte(s, a, b).link == s.link
  {
    hide EntryOf, Reach, MmuTable.Valid, Permutation;
    StoreShape(s, a, b);
    hide FullEntry, StoreByte, Named, Imaged;
    SameNamed(s, StoreByte(s, a, b));
  }

  lemma StoreKeepsPage(c: Codec, s: State, flat: Flat, a: nat, b: byte, q: nat)
    requires Inv(c, s, flat) && Reach(s, a / PAGE_SIZE, Store).Done? && Seg(a / PAGE_SIZE) != 0
    requires Written(flat[a := b], q)
    ensures InRam(q) && PageKept(c, StoreByte(s, a, b), flat[a := b], q)
  {
    hide EntryOf, Reach;
    StoreShape(s, a, b);
    hide FullEntry, StoreByte, Shows;
    var page, s' := a / PAGE_SIZE, StoreByte(s, a, b);
    if q == page {
      assert Shows(s.mem[FrameOf(FullEntry(s.mmu, q))], flat, q) by {
        if Written(flat, q) {
          assert PageKept(c, s, flat, q);
        } else {
          NothingShown(s.mem[FrameOf(FullEntry(s.mmu, q))], flat, q);
        }
      }
      ShowsStored(s.mem[FrameOf(FullEntry(s.mmu, q))], flat, a, b, q);
    } else {
      WrittenStored(flat, a, b, q);
      StoreKeepsOther(c, s, flat, a, b, q);
    }
  }

  lemma NothingShown(p: Page, flat: Flat, q: nat)
    requires !Written(flat, q)
    ensures Shows(p, flat, q)
  {
  }

  lemma StoreKeepsOther(c: Codec, s: State, flat: Flat, a: nat, b: byte, q: nat)
    requires Inv(c, s, flat) && Reach(s, a / PAGE_SIZE, Store).Done? && Seg(a / PAGE_SIZE) != 0
    requires Written(flat, q) && q != a / PAGE_SIZE
    ensures InRam(q) && PageKept(c, StoreByte(s, a, b), flat[a := b], q)
  {
    hide EntryOf, Reach;
    StoreShape(s, a, b);
    hide FullEntry, StoreByte, Shows;
    assert PageKept(c, s, flat, q);
    BackingDependsOn(c, s, StoreByte(s, a, b), q);
    if FullEntry(s.mmu, q) != 0 {
      if FrameOf(FullEntry(s.mmu, q)) == FrameOf(FullEntry(s.mmu, a / PAGE_SIZE)) {
        SameFrameSamePage(s, a / PAGE_SIZE, q);
      }
      ShowsStored(s.mem[FrameOf(FullEntry(s.mmu, q))], flat, a, b, q);
    }
    if Stored(c, s, flat, q) {
      ShowsStored(Backing(c, s, q).value, flat, a, b, q);
    }
  }

  /** A write that reaches its frame updates the flat memory at its address and nowhere else. */
  lemma StoreKeeps(c: Codec, s: State, flat: Flat, a: nat, b: byte)
    requires Inv(c, s, flat) && Reach(s, a / PAGE_SIZE, Store).Done? && Seg(a / PAGE_SIZE) != 0
    ensures Inv(c, StoreByte(s, a, b), flat[a := b])
  {
    hide Named, Imaged, StoreByte, Reach, PageKept;
    StoreNamed(s, a, b);
    forall q | Written(flat[a := b], q)
      ensures InRam(q) && PageKept(c, StoreByte(s, a, b), flat[a := b], q)
    {
      StoreKeepsPage(c, s, flat, a, b, q);
    }
  }

  /** A completed read of a written address gives the byte written last, and of the ROM area the byte of
      the system image. */
  lemma LoadCorrect(c: Codec, s: State, flat: Flat, a: nat, mode: Mode)
    requires Inv(c, s, flat) && Reach(s, a / PAGE_SIZE, mode).Done? && Seg(a / PAGE_SIZE) != 0
    ensures var g := Reach(s, a / PAGE_SIZE, mode).g;
            && g < |s.mem|
            && (a in flat ==> s.mem[g][a % PAGE_SIZE] == flat[a])
            && (InRom(a / PAGE_SIZE) ==> s.mem[g][a % PAGE_SIZE] == RomPage(s, a / PAGE_SIZE)[a % PAGE_SIZE])
  {
    hide Half;
    var page := a / PAGE_SIZE;
    DoneMapped(s, page, mode);
    if a in flat {
      assert Written(flat, page);
      assert PageKept(c, s, flat, page);
    }
  }

  // ----- the swap area

  lemma EnableSwapKeeps(c: Codec, s: State, flat: Flat)
    requires Inv(c, s, flat)
    ensures Inv(c, s.(swap := true), flat)
  {
    hide Shows, FullEntry, Named, Imaged;
    SameNamed(s, s.(swap := true));
    forall q | Written(flat, q)
      ensures InRam(q) && PageKept(c, s.(swap := true), flat, q)
    {
      assert PageKept(c, s, flat, q);
    }
  }

  /** The written page can do without the swap area. */
  ghost predicate Independent(s: State, page: nat)
    requires Sized(s)
  {
    page - RAM_BASE < ZRAM_PAGES || Writable(FullEntry(s.mmu, page))
  }

  ghost predicate NoneDepends(s: State, flat: Flat)
    requires Sized(s)
  {
    forall page :: Written(flat, page) ==> Independent(s, page)
  }

  /** Switched off, the swap area still holds its pages, but they cannot be had. The invariant survives
      iff every written page above the compressed store is at that moment mapped writable. */
  lemma DisableSwapKeepsIff(c: Codec, s: State, flat: Flat)
    requires Inv(c, s, flat)
    ensures Inv(c, s.(swap := false), flat) <==> NoneDepends(s, flat)
  {
    hide Shows, FullEntry, PageKept, Written, Independent, Named, Imaged;
    var s' := s.(swap := false);
    SameNamed(s, s');
    forall q | Written(flat, q)
      ensures InRam(q) && (PageKept(c, s', flat, q) <==> Independent(s, q))
    {
      DisableSwapPage(c, s, flat, q);
    }
  }

  lemma DisableSwapPage(c: Codec, s: State, flat: Flat, q: nat)
    requires Inv(c, s, flat) && Written(flat, q)
    ensures InRam(q) && (PageKept(c, s.(swap := false), flat, q) <==> Independent(s, q))
  {
    hide Shows, FullEntry;
    assert PageKept(c, s, flat, q);
    NullUnwritable();
  }
}
