/** The two-level page table of the pager. Only eight first-level entries exist in hardware; one stays
    on segment 0, and seven are moved about over the thirteen segments in use. A table in memory keeps
    every segment's first-level entry, so that an evicted one can be put back. */
module MmuTable {

  const SLOTS := 8
  const MAX_SEG_SUPPORTED := 15
  const FREE_SEG := 0xFFFF_FFFF
  const PAGES_PER_SEG := 1024

  /** The segments registered at start-up: six of ROM, three of RAM, four of system ROM. */
  const SEGS: seq<nat> := [1, 2, 3, 4, 5, 6, 32, 33, 34, 48, 49, 50, 51]

  /** A first-level entry: nothing, a section, or the number of a second-level table. */
  datatype L1 = Invalid | Section(base: nat) | Fine(table: nat)

  /** `loc` and `slot` are the location and the contents of the movable entries, `ptr` the next one to
      be moved, `segOf` and `valOf` the table in memory, `l2` the block of second-level
      tables, one after the other. */
  datatype MmuState = MmuState(loc: seq<nat>, slot: seq<L1>, ptr: nat, segOf: seq<nat>, valOf: seq<L1>, l2: seq<nat>)

  /** A second-level entry for a 1 KB page: address, access permission, cache and buffer bits, type. */
  function TinyPage(paddr: nat, ap: nat, cache: bool, buffer: bool): (v: nat)
    requires ap < 4
    ensures v % 4 == 3
  {
    paddr / 0x400 * 0x400 + ap * 0x10 + (if cache then 8 else 0) + (if buffer then 4 else 0) + 3
  }

  function EntryAddr(v: nat): nat {
    v / 0x400 * 0x400
  }

  function EntryAp(v: nat): nat {
    v / 0x10 % 4
  }

  lemma TinyPageFields(paddr: nat, ap: nat, cache: bool, buffer: bool)
    requires ap < 4 && paddr % 0x400 == 0
    ensures EntryAddr(TinyPage(paddr, ap, cache, buffer)) == paddr
    ensures EntryAp(TinyPage(paddr, ap, cache, buffer)) == ap
  {
    var low := ap * 0x10 + (if cache then 8 else 0) + (if buffer then 4 else 0) + 3;
    var q := paddr / 0x400;
    assert TinyPage(paddr, ap, cache, buffer) == 0x400 * q + low;
    FieldsOf(q, low, ap, low - ap * 0x10);
  }

  lemma TinyPageBits(paddr: nat, ap: nat, cache: bool, buffer: bool)
    requires ap < 4
    ensures var v := TinyPage(paddr, ap, cache, buffer); (v / 8 % 2 == 1 <==> cache) && (v / 4 % 2 == 1 <==> buffer)
  {
    LowBits(0x40 * (paddr / 0x400) + ap, if cache then 1 else 0, if buffer then 1 else 0);
  }

  lemma LowBits(high: nat, cache: nat, buffer: nat)
    requires cache < 2 && buffer < 2
    ensures var v := 16 * high + 8 * cache + 4 * buffer + 3; v / 8 % 2 == cache && v / 4 % 2 == buffer
  {
    var v, c, d := 16 * high + 8 * cache + 4 * buffer + 3, 2 * high + cache, 2 * (2 * high + cache) + buffer;
    Eighth(c, 4 * buffer + 3);
    Fourth(d, 3);
    assert v == 8 * c + (4 * buffer + 3) && v == 4 * d + 3;
    LowestBit(high, cache);
    LowestBit(c, buffer);
  }

  lemma Eighth(a: nat, r: nat)
    requires r < 8
    ensures (8 * a + r) / 8 == a
  {
  }

  lemma Fourth(a: nat, r: nat)
    requires r < 4
    ensures (4 * a + r) / 4 == a
  {
  }

  lemma LowestBit(a: nat, b: nat)
    requires b < 2
    ensures (2 * a + b) % 2 == b
  {
  }

  lemma FieldsOf(q: nat, low: nat, ap: nat, rest: nat)
    requires low == ap * 0x10 + rest && ap < 4 && rest < 0x10
    ensures (0x400 * q + low) / 0x400 == q && (0x400 * q + low) / 0x10 % 4 == ap
  {
    Sixteenth(0x40 * q + ap, rest);
    assert 0x400 * q + low == 0x10 * (0x40 * q + ap) + rest;
    Quarter(0x10 * q, ap);
  }

  lemma Sixteenth(a: nat, r: nat)
    requires r < 0x10
    ensures (0x10 * a + r) / 0x10 == a
  {
  }

  lemma Quarter(a: nat, r: nat)
    requires r < 4
    ensures (4 * a + r) % 4 == r
  {
  }

  /** Where table t keeps its entry for the page. */
  function Index(t: nat, page: nat): nat {
    t * PAGES_PER_SEG + page % PAGES_PER_SEG
  }

  function Seg(page: nat): nat {
    page / PAGES_PER_SEG
  }

  // ----- the hardware

  /** A write to the first-level table reaches the entries located there, if any. */
  ghost function WriteL1(m: MmuState, seg: nat, v: L1): (m': MmuState)
    requires |m.loc| == |m.slot| == SLOTS
    ensures |m'.slot| == SLOTS
  {
    m.(slot := seq(SLOTS, i requires 0 <= i < SLOTS => if m.loc[i] == seg then v else m.slot[i]))
  }

  /** The first slot at or after i that is located at the segment, or SLOTS. */
  ghost function FindSlot(loc: seq<nat>, seg: nat, i: nat): (k: nat)
    requires |loc| == SLOTS && i <= SLOTS
    ensures i <= k <= SLOTS
    ensures k < SLOTS ==> loc[k] == seg
    ensures forall j :: i <= j < k ==> loc[j] != seg
    decreases SLOTS - i
  {
    if i == SLOTS || loc[i] == seg then i else FindSlot(loc, seg, i + 1)
  }

  /** Reading the first-level table where no entry is located gives an invalid entry. */
  ghost function ReadL1(m: MmuState, seg: nat): L1
    requires |m.loc| == |m.slot| == SLOTS
  {
    var k := FindSlot(m.loc, seg, 0);
    if k < SLOTS then m.slot[k] else Invalid
  }

  datatype WalkResult = SegmentFault | Entry(v: nat)

  /** The walk the hardware makes for an access; an entry of 0 is a page fault. */
  ghost function Walk(m: MmuState, page: nat): WalkResult
    requires |m.loc| == |m.slot| == SLOTS
  {
    match ReadL1(m, Seg(page))
    case Fine(t) =>
      if Index(t, page) < |m.l2| then Entry(m.l2[Index(t, page)]) else SegmentFault
    case _ => SegmentFault
  }

  // ----- the operations of mmu.c

  function NextPtr(ptr: nat): nat {
    if ptr + 1 > 7 then 1 else ptr + 1
  }

  /** First index of the table in memory with that segment, or MAX_SEG_SUPPORTED. */
  ghost function FindSeg(segOf: seq<nat>, seg: nat, j: nat): (k: nat)
    requires |segOf| == MAX_SEG_SUPPORTED && j <= MAX_SEG_SUPPORTED
    ensures j <= k <= MAX_SEG_SUPPORTED
    ensures k < MAX_SEG_SUPPORTED ==> segOf[k] == seg
    ensures forall i :: j <= i < k ==> segOf[i] != seg
    decreases MAX_SEG_SUPPORTED - j
  {
    if j == MAX_SEG_SUPPORTED || segOf[j] == seg then j else FindSeg(segOf, seg, j + 1)
  }

  ghost predicate Shaped(m: MmuState) {
    && |m.loc| == |m.slot| == SLOTS
    && 1 <= m.ptr <= 7
    && |m.segOf| == |m.valOf| == MAX_SEG_SUPPORTED
  }

  ghost predicate Resident(m: MmuState, seg: nat)
    requires |m.loc| == SLOTS
  {
    exists i :: 1 <= i < SLOTS && m.loc[i] == seg
  }

  /** The search that map, unmap and reload begin with: a segment that is registered but not resident
      takes over the next movable entry. */
  ghost function BringIn(m: MmuState, seg: nat): MmuState
    requires Shaped(m)
  {
    var j := FindSeg(m.segOf, seg, 0);
    if Resident(m, seg) || j == MAX_SEG_SUPPORTED then m
    else WriteL1(m.(loc := m.loc[m.ptr := seg], ptr := NextPtr(m.ptr)), seg, m.valOf[j])
  }

  /** `reload_DFLPT_seg`: 1 when resident, 2 when brought in, 0 when not registered. */
  ghost function ReloadCode(m: MmuState, seg: nat): nat
    requires Shaped(m)
  {
    if Resident(m, seg) then 1 else if FindSeg(m.segOf, seg, 0) < MAX_SEG_SUPPORTED then 2 else 0
  }

  /** Writing a second-level entry through the first-level one. */
  ghost function PutEntry(m: MmuState, page: nat, v: nat): MmuState
    requires Shaped(m)
  {
    var m' := BringIn(m, Seg(page));
    match ReadL1(m', Seg(page))
    case Fine(t) =>
      if Index(t, page) < |m'.l2| then m'.(l2 := m'.l2[Index(t, page) := v]) else m'
    case _ => m'
  }

  // ----- the invariant

  ghost predicate Registered(seg: nat) {
    seg in SEGS
  }

  /** The table number of a registered segment. */
  function TableOf(seg: nat): (t: nat)
    requires Registered(seg)
    ensures t < |SEGS| && SEGS[t] == seg
  {
    if seg <= 6 then seg - 1 else if seg <= 34 then seg - 26 else seg - 39
  }

  /** Slot 0 stays on segment 0, the others are on distinct registered segments, and every resident
      entry equals its copy in memory. */
  ghost predicate Valid(m: MmuState) {
    && Shaped(m)
    && m.loc[0] == 0
    && (forall i :: 1 <= i < SLOTS ==> Registered(m.loc[i]) && m.slot[i] == Fine(TableOf(m.loc[i])))
    && (forall i, j :: 1 <= i < j < SLOTS ==> m.loc[i] != m.loc[j])
    && (forall j :: 0 <= j < |SEGS| ==> m.segOf[j] == SEGS[j] && m.valOf[j] == Fine(j))
    && (forall j :: |SEGS| <= j < MAX_SEG_SUPPORTED ==> m.segOf[j] == FREE_SEG)
    && |m.l2| == |SEGS| * PAGES_PER_SEG
  }

  /** What an ordinary, complete page table would hold for the page. */
  ghost function FullEntry(m: MmuState, page: nat): nat
    requires Valid(m)
  {
    if Registered(Seg(page)) then m.l2[Index(TableOf(Seg(page)), page)] else 0
  }

  // ----- the theorems

  lemma SegsDistinct(i: nat, j: nat)
    requires i < |SEGS| && j < |SEGS| && SEGS[i] == SEGS[j]
    ensures i == j && 0 < SEGS[i] < FREE_SEG
  {
  }

  lemma FindSegOfRegistered(m: MmuState, seg: nat)
    requires Valid(m)
    ensures Registered(seg) ==> FindSeg(m.segOf, seg, 0) == TableOf(seg)
    ensures !Registered(seg) && seg != FREE_SEG ==> FindSeg(m.segOf, seg, 0) == MAX_SEG_SUPPORTED
  {
    var k := FindSeg(m.segOf, seg, 0);
    if Registered(seg) {
      assert m.segOf[TableOf(seg)] == seg;
      SegsDistinct(k, TableOf(seg));
    }
  }

  /** Bringing a segment in keeps the invariant and changes no page's entry; afterwards the hardware
      walk finds what the full table holds. */
  lemma BringInRefines(m: MmuState, seg: nat)
    requires Valid(m) && seg != FREE_SEG
    ensures var m' := BringIn(m, seg);
            && Valid(m') && m'.l2 == m.l2
            && (Registered(seg) ==> Resident(m', seg))
            && (!Registered(seg) ==> m' == m)
  {
    FindSegOfRegistered(m, seg);
    var m' := BringIn(m, seg);
    if !Resident(m, seg) && Registered(seg) {
      assert m'.loc[m.ptr] == seg && m'.slot[m.ptr] == Fine(TableOf(seg));
      SegsDistinct(TableOf(seg), TableOf(seg));
      forall i | 1 <= i < SLOTS
        ensures Registered(m'.loc[i]) && m'.slot[i] == Fine(TableOf(m'.loc[i]))
      {
        if i != m.ptr {
          assert m'.loc[i] == m.loc[i] && m.loc[i] != seg;
        }
      }
    }
  }

  /** The hardware walk against the full table: it misses exactly the segments that are not resident. */
  lemma WalkRefines(m: MmuState, page: nat)
    requires Valid(m) && Registered(Seg(page))
    ensures Walk(m, page) == if Resident(m, Seg(page)) then Entry(FullEntry(m, page)) else SegmentFault
  {
    hide Registered, TableOf, FindSeg;
    var seg := Seg(page);
    var k := FindSlot(m.loc, seg, 0);
    SegsDistinct(TableOf(seg), TableOf(seg));
    assert seg != 0;
    if Resident(m, seg) {
      var i :| 1 <= i < SLOTS && m.loc[i] == seg;
      assert k < SLOTS;
      assert k != 0;
    }
  }

  /** Unregistered segments other than 0 always fault. */
  lemma WalkUnregistered(m: MmuState, page: nat)
    requires Valid(m) && !Registered(Seg(page)) && Seg(page) != 0
    ensures Walk(m, page) == SegmentFault && FullEntry(m, page) == 0
  {
    assert FindSlot(m.loc, Seg(page), 0) == SLOTS;
  }

  /** Each page of a registered segment has an entry of its own. */
  lemma IndexInjective(p: nat, q: nat)
    requires Registered(Seg(p)) && Registered(Seg(q))
    requires Index(TableOf(Seg(p)), p) == Index(TableOf(Seg(q)), q)
    ensures p == q
  {
    assert TableOf(Seg(p)) == TableOf(Seg(q)) && p % PAGES_PER_SEG == q % PAGES_PER_SEG;
    assert p == Seg(p) * PAGES_PER_SEG + p % PAGES_PER_SEG && q == Seg(q) * PAGES_PER_SEG + q % PAGES_PER_SEG;
  }

  lemma OtherTables(m: MmuState, l2: seq<nat>)
    requires Valid(m) && |l2| == |m.l2|
    ensures Valid(m.(l2 := l2))
  {
  }

  /** Mapping or unmapping a page is an update of the full table at that page and nowhere else. */
  lemma PutEntryRefines(m: MmuState, page: nat, v: nat)
    requires Valid(m) && Registered(Seg(page))
    ensures var m' := PutEntry(m, page, v);
            && Valid(m') && Resident(m', Seg(page))
            && forall q :: FullEntry(m', q) == if q == page then v else FullEntry(m, q)
  {
    var seg := Seg(page);
    SegsDistinct(TableOf(seg), TableOf(seg));
    BringInRefines(m, seg);
    var m1 := BringIn(m, seg);
    ReadResident(m1, seg);
    var i := Index(TableOf(seg), page);
    var m' := PutEntry(m, page, v);
    assert m' == m1.(l2 := m1.l2[i := v]);
    OtherTables(m1, m1.l2[i := v]);
    forall q
      ensures FullEntry(m', q) == if q == page then v else FullEntry(m, q)
    {
      if Registered(Seg(q)) && Index(TableOf(Seg(q)), q) == i {
        IndexInjective(page, q);
      }
    }
  }

  lemma ReadResident(m: MmuState, seg: nat)
    requires Valid(m) && Registered(seg) && Resident(m, seg)
    ensures ReadL1(m, seg) == Fine(TableOf(seg))
  {
    SegsDistinct(TableOf(seg), TableOf(seg));
    var k := FindSlot(m.loc, seg, 0);
    var i :| 1 <= i < SLOTS && m.loc[i] == seg;
    assert k < SLOTS && k != 0;
  }

  // ----- runs

  datatype Op = Map(page: nat, v: nat) | Unmap(page: nat) | Reload(seg: nat)

  ghost predicate OpOk(op: Op) {
    match op
    case Map(p, v) => Registered(Seg(p))
    case Unmap(p) => Registered(Seg(p))
    case Reload(s) => s != FREE_SEG
  }

  ghost function Apply(m: MmuState, op: Op): MmuState
    requires Shaped(m)
  {
    match op
    case Map(p, v) => PutEntry(m, p, v)
    case Unmap(p) => PutEntry(m, p, 0)
    case Reload(s) => BringIn(m, s)
  }

  /** The same operation on an ordinary table. */
  ghost function ApplyPlain(f: map<nat, nat>, op: Op): map<nat, nat> {
    match op
    case Map(p, v) => f[p := v]
    case Unmap(p) => f[p := 0]
    case Reload(s) => f
  }

  ghost function Plain(f: map<nat, nat>, page: nat): nat {
    if page in f then f[page] else 0
  }

  ghost predicate SameTable(m: MmuState, f: map<nat, nat>)
    requires Valid(m)
  {
    forall q :: FullEntry(m, q) == Plain(f, q)
  }

  ghost predicate RunFrom(ms: seq<MmuState>, ops: seq<Op>) {
    && |ms| == |ops| + 1
    && Valid(ms[0])
    && forall i :: 0 <= i < |ops| ==> OpOk(ops[i]) && Shaped(ms[i]) && ms[i + 1] == Apply(ms[i], ops[i])
  }

  ghost function PlainRun(f: map<nat, nat>, ops: seq<Op>): map<nat, nat> {
    if ops == [] then f else ApplyPlain(PlainRun(f, ops[..|ops| - 1]), ops[|ops| - 1])
  }

  lemma OpRefines(m: MmuState, f: map<nat, nat>, op: Op)
    requires Valid(m) && SameTable(m, f) && OpOk(op)
    ensures Valid(Apply(m, op)) && SameTable(Apply(m, op), ApplyPlain(f, op))
  {
    match op
    case Map(p, v) => PutEntryRefines(m, p, v);
    case Unmap(p) => PutEntryRefines(m, p, 0);
    case Reload(s) => BringInRefines(m, s);
  }

  /** After any sequence of operations, an access that reloads its segment on a miss finds exactly what
      an ordinary table would give it. */
  lemma {:induction false} RunRefines(ms: seq<MmuState>, ops: seq<Op>, f: map<nat, nat>, page: nat)
    requires RunFrom(ms, ops) && SameTable(ms[0], f)
    ensures var m := ms[|ops|];
            Valid(m) && SameTable(m, PlainRun(f, ops))
    ensures Registered(Seg(page)) ==>
              Walk(BringIn(ms[|ops|], Seg(page)), page) == Entry(Plain(PlainRun(f, ops), page))
  {
    if ops != [] {
      var k := |ops| - 1;
      RunRefines(ms[..k + 1], ops[..k], f, page);
      OpRefines(ms[k], PlainRun(f, ops[..k]), ops[k]);
    } else {
      assert PlainRun(f, ops) == f;
    }
    if Registered(Seg(page)) {
      var m := ms[|ops|];
      SegsDistinct(TableOf(Seg(page)), TableOf(Seg(page)));
      BringInRefines(m, Seg(page));
      WalkRefines(BringIn(m, Seg(page)), page);
    }
  }
}
