/** The demand pager: 40 RAM frames and 160 ROM frames stand for a 3 MB read/write area and a 6 MB
    read-only area. This module says what each part of a fault's handling does to the pager's state. */
module Pager {
  import opened Basics
  import opened MmuTable
  import opened LruList

  const PAGE_SIZE := 1024
  const ROM_FRAMES := 160
  const RAM_FRAMES := 40
  /** Pages below this index are saved compressed in memory, the others on flash. */
  const ZRAM_PAGES := (292 - ROM_FRAMES - RAM_FRAMES) * 3
  const ROM_BASE := 0x10_0000 / PAGE_SIZE
  const ROM_PAGES := 6144
  const RAM_BASE := 0x200_0000 / PAGE_SIZE
  const RAM_PAGES := 3072

  const AP_READONLY := 0
  const AP_READWRITE := 3

  type Page = p: seq<byte> | |p| == PAGE_SIZE witness seq(PAGE_SIZE, _ => 0)

  /** A flash sector holds two pages. */
  type Sector = p: seq<byte> | |p| == 2 * PAGE_SIZE witness seq(2 * PAGE_SIZE, _ => 0)

  function Half(x: Sector, k: nat): (p: Page)
    requires k < 2
  {
    x[k * PAGE_SIZE..(k + 1) * PAGE_SIZE]
  }

  /** Read-modify-write of one half. */
  function SetHalf(x: Sector, k: nat, p: Page): (x': Sector)
    requires k < 2
    ensures Half(x', k) == p && Half(x', 1 - k) == Half(x, 1 - k)
  {
    if k == 0 then p + x[PAGE_SIZE..] else x[..PAGE_SIZE] + p
  }

  /** The codec of the compressed store: decompressing a block that begins with the compressed form of
      a page gives that page. */
  datatype Codec = Codec(compress: Page -> seq<byte>, decompress: seq<byte> -> Page)

  ghost predicate Lossless(c: Codec) {
    forall p: Page, rest: seq<byte> :: c.decompress(c.compress(p) + rest) == p
  }

  /** A frame's page, 0 for none, and whether it was written since it was loaded. */
  datatype Frame = Frame(page: nat, dirty: bool)

  datatype Cache = Cache(order: seq<nat>, frames: seq<Frame>)

  datatype State = State(
    mmu: MmuState,
    ram: Cache,
    link: TailLink,               // the forward link of the RAM list's tail
    rom: Cache,
    mem: seq<Page>,               // the frames' contents, ROM frames first
    zram: map<nat, seq<byte>>,    // blocks of the compressed store, by page index
    ftl: seq<Sector>,             // the swap area
    flash: seq<Sector>,           // the system image
    swap: bool)

  datatype Kind = UnmapDab | UnmapPab | WriteReadOnly | Other

  datatype Reason = NotMapped | ZramOom | SwapNotEnabled | NotWritable

  /** What becomes of the faulting task: it resumes, it is reported and stays stopped, or it is left
      suspended without more than a message. */
  datatype Verdict = Resume | Kill(reason: Reason) | Hang

  predicate InRom(page: nat) {
    ROM_BASE <= page < ROM_BASE + ROM_PAGES
  }

  predicate InRam(page: nat) {
    RAM_BASE <= page < RAM_BASE + RAM_PAGES
  }

  lemma AreasRegistered(page: nat)
    requires InRom(page) || InRam(page)
    ensures Registered(Seg(page)) && Seg(page) != FREE_SEG && Seg(page) != 0
  {
    var s := Seg(page);
    assert 1 <= s <= 6 || 32 <= s <= 34;
    if s <= 6 {
      assert SEGS[s - 1] == s;
    } else {
      assert SEGS[s - 26] == s;
    }
  }

  // ----- page table entries

  /** The entry for a frame; frame numbers count ROM frames first. */
  function EntryOf(g: nat, writable: bool): (v: nat)
    ensures v != 0
  {
    TinyPage(PAGE_SIZE * g, if writable then AP_READWRITE else AP_READONLY, true, true)
  }

  function FrameOf(v: nat): nat {
    EntryAddr(v) / PAGE_SIZE
  }

  function Writable(v: nat): bool {
    EntryAp(v) == AP_READWRITE
  }

  lemma EntryFields(g: nat, writable: bool)
    ensures FrameOf(EntryOf(g, writable)) == g && Writable(EntryOf(g, writable)) == writable
  {
    TinyPageFields(PAGE_SIZE * g, if writable then AP_READWRITE else AP_READONLY, true, true);
  }

  // ----- the parts of the state

  /** Frames of each cache hold pages of its area only; a frame that holds none is not dirty. */
  ghost predicate FramesInAreas(s: State)
    requires |s.ram.frames| == RAM_FRAMES && |s.rom.frames| == ROM_FRAMES
  {
    && (forall f :: 0 <= f < RAM_FRAMES ==> s.ram.frames[f].page != 0 ==> InRam(s.ram.frames[f].page))
    && (forall f :: 0 <= f < RAM_FRAMES ==> s.ram.frames[f].dirty ==> s.ram.frames[f].page != 0)
    && forall f :: 0 <= f < ROM_FRAMES ==> s.rom.frames[f].page != 0 ==> InRom(s.rom.frames[f].page)
  }

  ghost predicate Sized(s: State) {
    && MmuTable.Valid(s.mmu)
    && |s.ram.frames| == RAM_FRAMES && |s.rom.frames| == ROM_FRAMES
    && Permutation(s.ram.order, RAM_FRAMES) && Permutation(s.rom.order, ROM_FRAMES)
    && |s.mem| == ROM_FRAMES + RAM_FRAMES
    && |s.ftl| == RAM_PAGES / 2 && |s.flash| == ROM_PAGES / 2
    && FramesInAreas(s)
  }

  /** What is stored for a RAM page outside its frame, if anything can be had. */
  ghost function Backing(c: Codec, s: State, page: nat): Option<Page>
    requires |s.ftl| == RAM_PAGES / 2 && InRam(page)
  {
    var ind := page - RAM_BASE;
    if ind < ZRAM_PAGES then
      if ind in s.zram then Some(c.decompress(s.zram[ind])) else None
    else if s.swap then Some(Half(s.ftl[ind / 2], ind % 2))
    else None
  }

  /** The page of the system image. */
  ghost function RomPage(s: State, page: nat): Page
    requires |s.flash| == ROM_PAGES / 2 && InRom(page)
  {
    var ind := page - ROM_BASE;
    Half(s.flash[ind / 2], ind % 2)
  }

  ghost function SetPage(s: State, page: nat, v: nat): (s': State)
    requires Sized(s) && (InRam(page) || InRom(page))
    ensures Sized(s')
  {
    AreasRegistered(page);
    PutEntryRefines(s.mmu, page, v);
    s.(mmu := PutEntry(s.mmu, page, v))
  }

  /** A frame's page unmapped, if it holds one. */
  ghost function Unmapped(s: State, was: nat): (s': State)
    requires Sized(s) && (was != 0 ==> InRam(was) || InRom(was))
    ensures Sized(s')
  {
    if was != 0 then SetPage(s, was, 0) else s
  }

  ghost function PutMem(s: State, g: nat, p: Page): (s': State)
    requires Sized(s) && g < ROM_FRAMES + RAM_FRAMES
    ensures Sized(s')
  {
    s.(mem := s.mem[g := p])
  }

  // ----- a service, from one wait for the flash memory to the next

  /** What the service of a fault waits for: nothing, the sector of the victim's page to be read, that sector
      to be written back with the victim's page in it, the sector of the new page, or a page of the
      system image. */
  datatype Phase =
    | Idle
    | SaveRead(f: nat, page: nat)
    | SaveWrite(f: nat, page: nat, buf: Sector)
    | RamLoad(f: nat, page: nat)
    | RomLoad(f: nat, page: nat)

  /** What comes of a flash operation. A read that fails leaves something in the buffer; a write that fails
      leaves the sector as it was. */
  datatype Flash = Good | Bad(left: Sector)

  function Arrived(x: Flash, stored: Sector): Sector {
    if x.Good? then stored else x.left
  }

  /** Where a service stands, with the verdict once it is over. */
  datatype Progress = Progress(s: State, phase: Phase, verdict: Option<Verdict>)

  function Over(s: State, v: Verdict): Progress {
    Progress(s, Idle, Some(v))
  }

  /** The first RAM frame taken and put last. */
  ghost function Rotated(s: State): (s': State)
    requires Sized(s)
    ensures Sized(s')
  {
    TouchPermutes(s.ram.order, RAM_FRAMES, s.ram.order[0]);
    s.(ram := s.ram.(order := Touch(s.ram.order, s.ram.order[0])), link := Fresh)
  }

  ghost function RomRotated(s: State): (s': State)
    requires Sized(s)
    ensures Sized(s')
  {
    TouchPermutes(s.rom.order, ROM_FRAMES, s.rom.order[0]);
    s.(rom := s.rom.(order := Touch(s.rom.order, s.rom.order[0])))
  }

  ghost function SetFrame(s: State, f: nat, fr: Frame): (s': State)
    requires Sized(s) && f < RAM_FRAMES && (fr.page != 0 ==> InRam(fr.page)) && (fr.dirty ==> fr.page != 0)
    ensures Sized(s')
  {
    s.(ram := s.ram.(frames := s.ram.frames[f := fr]))
  }

  ghost function SetRomFrame(s: State, f: nat, fr: Frame): (s': State)
    requires Sized(s) && f < ROM_FRAMES && (fr.page != 0 ==> InRom(fr.page))
    ensures Sized(s')
  {
    s.(rom := s.rom.(frames := s.rom.frames[f := fr]))
  }

  /** The victim's mapping removed and its frame taken for the page. */
  ghost function Taken(s: State, f: nat, page: nat): (s': State)
    requires Sized(s) && f < RAM_FRAMES && InRam(page)
    ensures Sized(s')
  {
    SetFrame(Unmapped(s, s.ram.frames[f].page), f, Frame(page, false))
  }

  ghost function RomTaken(s: State, f: nat, page: nat): (s': State)
    requires Sized(s) && f < ROM_FRAMES && InRom(page)
    ensures Sized(s')
  {
    SetRomFrame(Unmapped(s, s.rom.frames[f].page), f, Frame(page, false))
  }

  /** The page brought from the compressed store, if it is there, and mapped read-only; a page that nothing
      is stored for shows what the frame held. */
  ghost function Shown(c: Codec, s: State, f: nat, page: nat): (s': State)
    requires Sized(s) && f < RAM_FRAMES && InRam(page)
    ensures Sized(s')
  {
    var ind := page - RAM_BASE;
    SetPage(if ind < ZRAM_PAGES && ind in s.zram then PutMem(s, ROM_FRAMES + f, c.decompress(s.zram[ind])) else s,
            page, EntryOf(ROM_FRAMES + f, false))
  }

  /** The second half of a RAM miss, when the victim has been seen to. */
  ghost function Give(c: Codec, s: State, f: nat, page: nat): (r: Progress)
    requires Sized(s) && f < RAM_FRAMES && InRam(page)
    ensures Sized(r.s)
  {
    var s1 := Taken(s, f, page);
    if page - RAM_BASE >= ZRAM_PAGES && s.swap then Progress(s1, RamLoad(f, page), None)
    else Over(Shown(c, s1, f, page), Resume)
  }

  /** The victim's page has been saved, as far as the code can tell. */
  ghost function Cleaned(s: State, f: nat): (s': State)
    requires Sized(s) && f < RAM_FRAMES
    ensures Sized(s')
  {
    SetFrame(s, f, s.ram.frames[f].(dirty := false))
  }

  /** `save_cache_page` for a page of the compressed store: what the allocator grants is the rest of the
      block behind the data. */
  ghost function Compressed(c: Codec, s: State, f: nat, rest: seq<byte>): (s': State)
    requires Sized(s) && f < RAM_FRAMES && s.ram.frames[f].dirty
    ensures Sized(s')
  {
    Cleaned(s.(zram := s.zram[s.ram.frames[f].page - RAM_BASE := c.compress(s.mem[ROM_FRAMES + f]) + rest]), f)
  }

  /** A RAM miss, while the RAM frames are on a list, up to the first wait. */
  ghost function RamMiss(c: Codec, s: State, page: nat, grant: Option<seq<byte>>): (r: Progress)
    requires Sized(s) && InRam(page) && s.link != Looped
    ensures Sized(r.s)
  {
    var f := s.ram.order[0];
    var s0 := Rotated(s);
    var fr := s.ram.frames[f];
    if !fr.dirty then Give(c, s0, f, page)
    else if fr.page - RAM_BASE < ZRAM_PAGES then
      match grant
      case Some(rest) => Give(c, Compressed(c, s0, f, rest), f, page)
      case None => Over(s0.(zram := s.zram - {fr.page - RAM_BASE}), Kill(ZramOom))
    else if s.swap then Progress(s0, SaveRead(f, page), None)
    else Over(s0, Kill(SwapNotEnabled))
  }

  /** A ROM miss, up to the wait for the image. */
  ghost function RomMiss(s: State, page: nat): (r: Progress)
    requires Sized(s) && InRom(page)
    ensures Sized(r.s)
  {
    var f := s.rom.order[0];
    Progress(RomTaken(RomRotated(s), f, page), RomLoad(f, page), None)
  }

  /** The half of its sector that a page has. */
  function SectorOf(ind: nat): nat {
    ind / 2
  }

  function HalfOf(ind: nat): (k: nat)
    ensures k < 2
  {
    ind % 2
  }

  /** The buffer to be written back: the sector as read, with the victim's page copied into it. */
  ghost function CopiedIn(s: State, f: nat, x: Flash): Sector
    requires Sized(s) && f < RAM_FRAMES && s.ram.frames[f].dirty
  {
    var ind := s.ram.frames[f].page - RAM_BASE;
    SetHalf(Arrived(x, s.ftl[SectorOf(ind)]), HalfOf(ind), s.mem[ROM_FRAMES + f])
  }

  /** After the write: the code does not look at its result, and takes the page for saved. */
  ghost function WrittenBack(s: State, f: nat, buf: Sector, x: Flash): (s': State)
    requires Sized(s) && f < RAM_FRAMES && s.ram.frames[f].dirty
    ensures Sized(s')
  {
    var ind := s.ram.frames[f].page - RAM_BASE;
    Cleaned(if x.Good? then s.(ftl := s.ftl[SectorOf(ind) := buf]) else s, f)
  }

  /** The service goes on: the flash memory has answered. */
  ghost predicate CanGoOn(s: State, phase: Phase) {
    && Sized(s)
    && match phase
       case Idle => false
       case SaveRead(f, page) => f < RAM_FRAMES && InRam(page) && s.ram.frames[f].dirty
       case SaveWrite(f, page, _) => f < RAM_FRAMES && InRam(page) && s.ram.frames[f].dirty
       case RamLoad(f, page) => f < RAM_FRAMES && InRam(page)
       case RomLoad(f, page) => f < ROM_FRAMES && InRom(page)
  }

  ghost function GoOn(c: Codec, s: State, phase: Phase, x: Flash): (r: Progress)
    requires CanGoOn(s, phase)
    ensures Sized(r.s)
  {
    match phase
    case SaveRead(f, page) => Progress(s, SaveWrite(f, page, CopiedIn(s, f, x)), None)
    case SaveWrite(f, page, buf) => Give(c, WrittenBack(s, f, buf, x), f, page)
    case RamLoad(f, page) =>
      var ind := page - RAM_BASE;
      var p := Half(Arrived(x, s.ftl[SectorOf(ind)]), HalfOf(ind));
      Over(SetPage(PutMem(s, ROM_FRAMES + f, p), page, EntryOf(ROM_FRAMES + f, false)), Resume)
    case RomLoad(f, page) =>
      var ind := page - ROM_BASE;
      var p := Half(Arrived(x, s.flash[SectorOf(ind)]), HalfOf(ind));
      Over(SetPage(PutMem(s, f, p), page, EntryOf(f, false)), Resume)
  }

  ghost predicate Holds(frames: seq<Frame>, f: nat, page: nat) {
    f < |frames| && frames[f].page == page
  }

  ghost function PagesOf(frames: seq<Frame>): (pages: seq<nat>)
    ensures |pages| == |frames| && forall f :: 0 <= f < |frames| ==> pages[f] == frames[f].page
  {
    seq(|frames|, f requires 0 <= f < |frames| => frames[f].page)
  }

  /** Where on the RAM list the search from the tail finds the page, or -1. */
  ghost function Found(s: State, page: nat): (i: int)
    requires Sized(s)
    ensures -1 <= i < RAM_FRAMES
    ensures i >= 0 ==> Holds(s.ram.frames, s.ram.order[i], page)
  {
    LastPlace(s.ram.order, PagesOf(s.ram.frames), page, RAM_FRAMES)
  }

  lemma FoundIff(s: State, page: nat)
    requires Sized(s)
    ensures Found(s, page) >= 0 <==> exists f: nat :: Holds(s.ram.frames, f, page)
  {
    if Found(s, page) < 0 {
      forall f: nat
        ensures !Holds(s.ram.frames, f, page)
      {
        if f < RAM_FRAMES {
          assert f in s.ram.order;
          var j :| 0 <= j < RAM_FRAMES && s.ram.order[j] == f;
          assert !HasPage(PagesOf(s.ram.frames), s.ram.order[j], page);
        }
      }
    }
  }

  /** The frame marked written and moved to the end of the list, which a tail with a stale link does not
      survive. */
  ghost function WriteMark(s: State, page: nat, f: nat): (s': State)
    requires Sized(s) && InRam(page) && Holds(s.ram.frames, f, page)
    ensures Sized(s')
  {
    TouchPermutes(s.ram.order, RAM_FRAMES, f);
    s.(ram := Cache(Touch(s.ram.order, f), s.ram.frames[f := Frame(page, true)]),
       link := MovedLink(s.ram.order, s.link, f))
  }

  ghost function WriteAt(s: State, page: nat, f: nat): (s': State)
    requires Sized(s) && InRam(page) && Holds(s.ram.frames, f, page)
    ensures Sized(s')
  {
    SetPage(SetPage(WriteMark(s, page, f), page, 0), page, EntryOf(ROM_FRAMES + f, true))
  }

  /** A write to a page that was mapped read-only when the fault was raised. */
  ghost function WriteFault(s: State, page: nat): (r: Progress)
    requires Sized(s) && InRam(page) && s.link != Looped
    ensures Sized(r.s)
  {
    var i := Found(s, page);
    if i >= 0 then Over(WriteAt(s, page, s.ram.order[i]), Resume) else Over(s, Hang)
  }

  /** The check for a mere first-level miss, which a reload repairs. */
  ghost function Reloaded(s: State, page: nat): (s': State)
    requires Sized(s) && Seg(page) != FREE_SEG
    ensures Sized(s')
  {
    BringInRefines(s.mmu, Seg(page));
    s.(mmu := BringIn(s.mmu, Seg(page)))
  }

  /** The handler proper, by the reason of the fault. */
  ghost function Repair(c: Codec, s: State, page: nat, kind: Kind, grant: Option<seq<byte>>): (r: Progress)
    requires Sized(s) && s.link != Looped
    ensures Sized(r.s)
  {
    if !InRom(page) && !InRam(page) then Over(s, Kill(NotMapped))
    else
      match kind
      case UnmapDab | UnmapPab => if InRom(page) then RomMiss(s, page) else RamMiss(c, s, page, grant)
      case WriteReadOnly => if InRam(page) then WriteFault(s, page) else Over(s, Kill(NotWritable))
      case Other => Over(s, Hang)
  }

  /** The service of one fault, up to the first wait. */
  ghost function Begin(c: Codec, s: State, page: nat, kind: Kind, grant: Option<seq<byte>>): (r: Progress)
    requires Sized(s) && Seg(page) != FREE_SEG && s.link != Looped
    ensures Sized(r.s)
  {
    if ReloadCode(s.mmu, Seg(page)) == 2 then Over(Reloaded(s, page), Resume)
    else Repair(c, Reloaded(s, page), page, kind, grant)
  }
}
