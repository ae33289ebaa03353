/** The ROM frames are taken in turn: in any run a frame is taken again only after all the others. */
module PagerRomList {
  import opened Basics
  import opened MmuTable
  import opened LruList
  import opened Pager
  import opened PagerTheory
  import opened PagerSteps
  import opened PagerAccess
  import opened PagerRuns

  /** The ROM frame that the service begun by an event takes, or ROM_FRAMES. */
  ghost function TakenFrame(c: Codec, w: World, e: Event): nat
    requires CanStep(w, e)
  {
    var phase := Step(c, w, e).phase;
    if e.Serve? && w.faults != [] && phase.RomLoad? then phase.f else ROM_FRAMES
  }

  lemma RomMissTakes(s: State, page: nat)
    requires Sized(s) && InRom(page)
    ensures var r := RomMiss(s, page);
            && s.rom.order[0] < ROM_FRAMES && r.phase == RomLoad(s.rom.order[0], page)
            && r.s.rom.order == Touch(s.rom.order, s.rom.order[0]) && r.s.rom.frames[s.rom.order[0]] == Frame(page, false)
  {
    hide FullEntry, Touch;
    RomTakenIs(RomRotated(s), s.rom.order[0], page);
  }

  lemma GiveLeavesRom(c: Codec, s: State, f: nat, page: nat)
    requires Sized(s) && f < RAM_FRAMES && InRam(page)
    ensures Give(c, s, f, page).s.rom == s.rom && !Give(c, s, f, page).phase.RomLoad?
  {
    hide Taken, Shown, FullEntry, Backing, Loaded, HadAtOnce, Sized;
    TakenIs(s, f, page);
    if AtOnce(s, page) {
      ShownIs(c, Taken(s, f, page), f, page);
      LoadedIs(Taken(s, f, page), f, page, HadAtOnce(c, Taken(s, f, page), f, page));
    }
  }

  lemma RamMissLeavesRom(c: Codec, s: State, page: nat, grant: Option<seq<byte>>)
    requires Sized(s) && InRam(page) && s.link != Looped
    ensures RamMiss(c, s, page, grant).s.rom == s.rom && !RamMiss(c, s, page, grant).phase.RomLoad?
  {
    hide Give, Touch, Permutation, FullEntry, MmuTable.Valid;
    var f := Victim(s);
    GiveLeavesRom(c, Rotated(s), f, page);
    if s.ram.frames[f].dirty && grant.Some? {
      GiveLeavesRom(c, Compressed(c, Rotated(s), f, grant.value), f, page);
    }
  }

  lemma WriteFaultLeavesRom(s: State, page: nat)
    requires Sized(s) && InRam(page) && s.link != Looped
    ensures WriteFault(s, page).s.rom == s.rom && WriteFault(s, page).phase == Idle
  {
    hide WriteFault, Found, FullEntry, Touch, EntryOf;
    WriteFaultDirties(s, page);
  }

  /** What the beginning of a service does to the list of ROM frames. */
  lemma BeginTakes(c: Codec, s: State, o: Outstanding, grant: Option<seq<byte>>)
    requires Sized(s) && Seg(o.page) != FREE_SEG && s.link != Looped
    ensures var r := Begin(c, s, o.page, o.kind, grant);
            if r.phase.RomLoad?
            then r.phase.f == s.rom.order[0] < ROM_FRAMES && r.s.rom.order == Touch(s.rom.order, s.rom.order[0])
            else r.s.rom.order == s.rom.order
  {
    hide RamMiss, RomMiss, WriteFault, ReloadCode, BringIn, Touch, Found, Permutation, MmuTable.Valid;
    if Handled(s, o) {
      NoReload(s, o);
      if InRam(o.page) {
        RamOnly(o.page);
        RamMissLeavesRom(c, s, o.page, grant);
        WriteFaultLeavesRom(s, o.page);
      } else if InRom(o.page) {
        RomMissTakes(s, o.page);
      }
    }
  }

  lemma GoOnLeavesRom(c: Codec, s: State, phase: Phase, x: Flash)
    requires CanGoOn(s, phase)
    ensures GoOn(c, s, phase, x).s.rom == s.rom
  {
    hide Give, SetPage, EntryOf, FullEntry, WrittenBack, CopiedIn, PutEntry;
    match phase
    case SaveRead(f, page) =>
    case SaveWrite(f, page, buf) =>
      WrittenLeavesRom(s, f, buf, x);
      GiveLeavesRom(c, WrittenBack(s, f, buf, x), f, page);
    case RamLoad(f, page) =>
      LoadIs(c, s, f, page, x);
      LoadedIs(s, f, page, LoadedHalf(s, page, x));
    case RomLoad(f, page) =>
      RomLoadIs(c, s, f, page, x);
      RomLoadedIs(s, f, page, LoadedRomHalf(s, page, x));
  }

  lemma WrittenLeavesRom(s: State, f: nat, buf: Sector, x: Flash)
    requires Sized(s) && f < RAM_FRAMES && s.ram.frames[f].dirty
    ensures WrittenBack(s, f, buf, x).rom == s.rom
  {
  }

  lemma RomOrder(s: State)
    requires Sized(s)
    ensures Permutation(s.rom.order, ROM_FRAMES) && |s.rom.order| == ROM_FRAMES && s.rom.order[0] < ROM_FRAMES
  {
  }

  lemma StoreLeavesRom(s: State, a: nat, b: byte)
    requires Sized(s) && Reach(s, a / PAGE_SIZE, Store).Done?
    ensures StoreByte(s, a, b).rom == s.rom
  {
  }

  lemma StepTakes(c: Codec, w: World, e: Event)
    requires CanStep(w, e)
    ensures TakenFrame(c, w, e) <= ROM_FRAMES && (TakenFrame(c, w, e) < ROM_FRAMES ==> TakenFrame(c, w, e) == w.s.rom.order[0])
    ensures Permutation(w.s.rom.order, ROM_FRAMES) && Permutation(Step(c, w, e).s.rom.order, ROM_FRAMES)
    ensures Step(c, w, e).s.rom.order == After(w.s.rom.order, TakenFrame(c, w, e), ROM_FRAMES)
  {
    hide Begin, GoOn, Reach, StoreByte, Touch, Permutation, FullEntry, ReloadCode, Found, Sized;
    RomOrder(w.s);
    RomOrder(Step(c, w, e).s);
    match e
    case Write(a, b) =>
      if Reach(w.s, a / PAGE_SIZE, Store).Done? {
        StoreLeavesRom(w.s, a, b);
      }
    case Serve(grant) =>
      if w.faults != [] {
        BeginTakes(c, w.s, w.faults[0], grant);
      }
    case Answer(x) =>
      GoOnLeavesRom(c, w.s, w.phase, x);
    case _ =>
  }

  ghost function RomOrders(ws: seq<World>): (orders: seq<seq<nat>>)
    ensures |orders| == |ws|
  {
    seq(|ws|, i requires 0 <= i < |ws| => ws[i].s.rom.order)
  }

  ghost function Takes(c: Codec, ws: seq<World>, es: seq<Event>): (taken: seq<nat>)
    requires PagerRuns.Run(c, ws, es)
    ensures |taken| == |es|
  {
    seq(|es|, i requires 0 <= i < |es| => TakenFrame(c, ws[i], es[i]))
  }

  lemma RunTakes(c: Codec, ws: seq<World>, es: seq<Event>)
    requires PagerRuns.Run(c, ws, es)
    ensures LruList.Run(RomOrders(ws), Takes(c, ws, es), ROM_FRAMES)
  {
    hide Step, TakenFrame, Permutation, After, Started, CanStep;
    StartedRomOrder(ws[0]);
    forall k | 0 <= k < |es|
      ensures Takes(c, ws, es)[k] <= ROM_FRAMES && Permutation(RomOrders(ws)[k], ROM_FRAMES)
      ensures RomOrders(ws)[k + 1] == After(RomOrders(ws)[k], Takes(c, ws, es)[k], ROM_FRAMES)
    {
      StepTakes(c, ws[k], es[k]);
    }
    if es != [] {
      StepTakes(c, ws[|es| - 1], es[|es| - 1]);
      assert ws[|es| - 1 + 1] == Step(c, ws[|es| - 1], es[|es| - 1]);
    }
  }

  lemma StartedRomOrder(w: World)
    requires Started(w)
    ensures Permutation(w.s.rom.order, ROM_FRAMES)
  {
  }

  /** Some event after a and before b took the frame. */
  ghost predicate TakenBetween(c: Codec, ws: seq<World>, es: seq<Event>, a: nat, b: nat, g: nat)
    requires PagerRuns.Run(c, ws, es) && b <= |es|
  {
    exists m :: a < m < b && TakenFrame(c, ws[m], es[m]) == g
  }

  lemma TakenMeans(c: Codec, ws: seq<World>, es: seq<Event>, a: nat, b: nat, g: nat)
    requires PagerRuns.Run(c, ws, es) && b <= |es|
    ensures TakenBetween(c, ws, es, a, b, g) <==> MovedWithin(Takes(c, ws, es), a + 1, b, g)
  {
    hide Step, TakenFrame, Started, CanStep;
    var taken := Takes(c, ws, es);
    if TakenBetween(c, ws, es, a, b, g) {
      var m :| a < m < b && TakenFrame(c, ws[m], es[m]) == g;
      assert taken[m] == g;
    }
    if MovedWithin(taken, a + 1, b, g) {
      var m :| a + 1 <= m < b && taken[m] == g;
      assert TakenFrame(c, ws[m], es[m]) == g;
    }
  }

  /** First in, first out, in any run: a ROM frame that a service took at event a, and none has taken since, is
      taken at event b only after every other ROM frame has been taken in between. */
  lemma RomTakenInTurn(c: Codec, ws: seq<World>, es: seq<Event>, a: nat, b: nat, f: nat)
    requires PagerRuns.Run(c, ws, es) && a < b < |es| && f < ROM_FRAMES
    requires TakenFrame(c, ws[a], es[a]) == f && TakenFrame(c, ws[b], es[b]) == f && !TakenBetween(c, ws, es, a, b, f)
    ensures forall g :: 0 <= g < ROM_FRAMES && g != f ==> TakenBetween(c, ws, es, a, b, g)
  {
    hide Step, TakenFrame, Permutation, After, Started, CanStep;
    RunTakes(c, ws, es);
    TakenMeans(c, ws, es, a, b, f);
    StepTakes(c, ws[b], es[b]);
    EvictedLast(RomOrders(ws), Takes(c, ws, es), ROM_FRAMES, a + 1, b, f);
    forall g | 0 <= g < ROM_FRAMES && g != f
      ensures TakenBetween(c, ws, es, a, b, g)
    {
      TakenMeans(c, ws, es, a, b, g);
    }
  }
}
