/** The memory-management unit as mmu.c drives it: registers and tables updated in place. */
module Mmu {
  import opened MmuTable

  class Unit {
    const loc: array<nat>
    const slot: array<L1>
    var ptr: nat
    const segOf: array<nat>
    const valOf: array<L1>
    const l2: array<nat>

    ghost const Repr: set<object> := {this, loc, slot, segOf, valOf, l2}

    /** Power-up: the location registers and entries may hold anything. */
    constructor (locations: seq<nat>, entries: seq<L1>)
      requires |locations| == |entries| == SLOTS
      ensures Wired() && fresh(Repr) && forall i :: 0 <= i < l2.Length ==> l2[i] == 0
    {
      loc := new nat[SLOTS](i requires 0 <= i < SLOTS => locations[i]);
      slot := new L1[SLOTS](i requires 0 <= i < SLOTS => entries[i]);
      ptr := 1;
      segOf := new nat[MAX_SEG_SUPPORTED](_ => 0);
      valOf := new L1[MAX_SEG_SUPPORTED](_ => Invalid);
      l2 := new nat[|SEGS| * PAGES_PER_SEG](_ => 0);
    }

    ghost predicate Wired()
      reads Repr
    {
      && loc.Length == slot.Length == SLOTS
      && segOf.Length == valOf.Length == MAX_SEG_SUPPORTED
      && l2.Length == |SEGS| * PAGES_PER_SEG
      && loc != segOf && loc != l2 && segOf != l2 && slot != valOf
      && loc as object !in {slot, valOf} && segOf as object !in {slot, valOf} && l2 as object !in {slot, valOf}
      && 1 <= ptr <= 7
    }

    ghost function View(): (m: MmuState)
      reads Repr
    {
      MmuState(loc[..], slot[..], ptr, segOf[..], valOf[..], l2[..])
    }

    /** `INC_HW_MPTE_Ptr`. */
    method IncPtr()
      requires Wired()
      modifies this
      ensures Wired() && View() == old(View()).(ptr := NextPtr(old(ptr)))
    {
      ptr := ptr + 1;
      if ptr > 7 {
        ptr := 1;
      }
    }

    /** What a store to the first-level table does in hardware. */
    method PokeL1(seg: nat, v: L1)
      requires Wired()
      modifies slot
      ensures Wired() && View() == WriteL1(old(View()), seg, v)
    {
      for i := 0 to SLOTS
        invariant forall k :: 0 <= k < i ==> slot[k] == if loc[k] == seg then v else old(slot[k])
        invariant forall k :: i <= k < SLOTS ==> slot[k] == old(slot[k])
      {
        if loc[i] == seg {
          slot[i] := v;
        }
      }
      assert slot[..] == WriteL1(old(View()), seg, v).slot;
    }

    /** What a load from the first-level table gives. */
    method PeekL1(seg: nat) returns (v: L1)
      requires Wired()
      ensures v == ReadL1(View(), seg)
    {
      var i := 0;
      while i < SLOTS && loc[i] != seg
        invariant 0 <= i <= SLOTS && FindSlot(loc[..], seg, i) == FindSlot(loc[..], seg, 0)
      {
        i := i + 1;
      }
      v := if i < SLOTS then slot[i] else Invalid;
    }

    method IsResident(seg: nat) returns (found: bool)
      requires Wired()
      ensures found <==> Resident(View(), seg)
    {
      var i := 1;
      while i < SLOTS && loc[i] != seg
        invariant 1 <= i <= SLOTS && forall k :: 1 <= k < i ==> loc[k] != seg
      {
        i := i + 1;
      }
      found := i < SLOTS;
      assert forall k :: 1 <= k < SLOTS ==> View().loc[k] == loc[k];
    }

    method SearchTable(seg: nat) returns (j: nat)
      requires Wired()
      ensures j == FindSeg(segOf[..], seg, 0)
    {
      j := 0;
      while j < MAX_SEG_SUPPORTED && segOf[j] != seg
        invariant 0 <= j <= MAX_SEG_SUPPORTED && FindSeg(segOf[..], seg, j) == FindSeg(segOf[..], seg, 0)
      {
        j := j + 1;
      }
    }

    /** The first half of map, unmap and reload. */
    method Bring(seg: nat) returns (code: nat)
      requires Wired()
      modifies this, loc, slot
      ensures Wired() && View() == BringIn(old(View()), seg) && code == ReloadCode(old(View()), seg)
    {
      var found := IsResident(seg);
      if found {
        return 1;
      }
      var j := SearchTable(seg);
      if j == MAX_SEG_SUPPORTED {
        return 0;
      }
      loc[ptr] := seg;
      assert View() == old(View()).(loc := old(View()).loc[ptr := seg]);
      IncPtr();
      PokeL1(seg, valOf[j]);
      code := 2;
    }

    /** `reload_DFLPT_seg`. */
    method ReloadDflptSeg(vseg: nat) returns (code: nat)
      requires Wired()
      modifies this, loc, slot
      ensures Wired() && View() == BringIn(old(View()), vseg) && code == ReloadCode(old(View()), vseg)
    {
      code := Bring(vseg);
    }

    method Put(page: nat, v: nat)
      requires Wired() && Valid(View()) && Registered(Seg(page))
      modifies this, loc, slot, l2
      ensures Wired() && View() == PutEntry(old(View()), page, v)
    {
      SegsDistinct(TableOf(Seg(page)), TableOf(Seg(page)));
      BringInRefines(View(), Seg(page));
      hide FindSlot, FindSeg, Registered, TableOf, BringIn, ReadL1, Resident;
      var code := Bring(Seg(page));
      ReadResident(View(), Seg(page));
      var e := PeekL1(Seg(page));
      ghost var m1 := View();
      l2[Index(e.table, page)] := v;
      assert View() == m1.(l2 := m1.l2[Index(e.table, page) := v]);
    }

    /** `mmu_map_page`; segment 0 cannot be remapped. */
    method MapPage(vaddr: nat, paddr: nat, ap: nat, cache: bool, buffer: bool)
      requires Wired() && Valid(View()) && ap < 4
      requires Seg(vaddr / 0x400) == 0 || Registered(Seg(vaddr / 0x400))
      modifies this, loc, slot, l2
      ensures Wired()
      ensures View() == if Seg(vaddr / 0x400) == 0 then old(View())
                        else PutEntry(old(View()), vaddr / 0x400, TinyPage(paddr, ap, cache, buffer))
    {
      if vaddr / 0x10_0000 == 0 {
        return;
      }
      Put(vaddr / 0x400, TinyPage(paddr, ap, cache, buffer));
    }

    /** `mmu_unmap_page`. */
    method UnmapPage(vaddr: nat)
      requires Wired() && Valid(View())
      requires Seg(vaddr / 0x400) == 0 || Registered(Seg(vaddr / 0x400))
      modifies this, loc, slot, l2
      ensures Wired()
      ensures View() == if Seg(vaddr / 0x400) == 0 then old(View()) else PutEntry(old(View()), vaddr / 0x400, 0)
    {
      if vaddr / 0x10_0000 == 0 {
        return;
      }
      Put(vaddr / 0x400, 0);
    }

    // ----- start-up

    /** k segments have been registered: the table lists them, and the movable entries hold the last
        seven of them. */
    ghost predicate Started(k: nat)
      requires k <= |SEGS|
      reads Repr
    {
      && Wired()
      && ptr == 1 + k % 7 && loc[0] == 0
      && (forall j :: 0 <= j < k ==> segOf[j] == SEGS[j] && valOf[j] == Fine(j))
      && (forall j :: k <= j < MAX_SEG_SUPPORTED ==> segOf[j] == FREE_SEG)
      && Window(loc[..], slot[..], k, 7)
    }

    /** The row that `SetL1PTE` takes: the first that is free or has the segment already. */
    method FindRow(ghost k: nat, pte: nat) returns (i: nat)
      requires k < |SEGS| && Started(k) && pte == SEGS[k]
      ensures i == k
    {
      i := 0;
      while i < MAX_SEG_SUPPORTED && segOf[i] != FREE_SEG && segOf[i] != pte
        invariant 0 <= i <= k
      {
        i := i + 1;
      }
      if i < k {
        SegsDistinct(i, i);
        if segOf[i] == pte {
          SegsDistinct(i, k);
        }
      }
    }

    /** The last movable entries, as a property of locations and contents. */
    static ghost predicate Window(loc: seq<nat>, slot: seq<L1>, k: nat, w: nat)
      requires |loc| == |slot| == SLOTS && k <= |SEGS|
    {
      forall s :: 0 <= s < k && k - w <= s ==> loc[1 + s % 7] == SEGS[s] && slot[1 + s % 7] == Fine(s)
    }

    /** The entries whose turn it is not keep their place. */
    static lemma WindowKeeps(m: MmuState, k: nat, s: nat)
      requires Shaped(m) && k < |SEGS| && m.ptr == 1 + k % 7 && Window(m.loc, m.slot, k, 7)
      requires s < k && k + 1 - 7 <= s
      ensures 1 + s % 7 != m.ptr && m.loc[1 + s % 7] == SEGS[s] && m.slot[1 + s % 7] == Fine(s) && SEGS[s] != SEGS[k]
    {
      assert s % 7 != k % 7;
      if SEGS[s] == SEGS[k] {
        SegsDistinct(s, k);
      }
    }

    /** Writing the entry at the segment it was just moved to reaches no other entry of the window. */
    static lemma WindowWrite(m: MmuState, k: nat, s: nat)
      requires Shaped(m) && k < |SEGS| && m.ptr == 1 + k % 7 && Window(m.loc, m.slot, k, 7)
      requires s <= k && k + 1 - 7 <= s
      ensures var m1 := m.(loc := m.loc[m.ptr := SEGS[k]], ptr := NextPtr(m.ptr));
              var m2 := WriteL1(WriteL1(m1, SEGS[k], Invalid), SEGS[k], Fine(k));
              m2.loc[1 + s % 7] == SEGS[s] && m2.slot[1 + s % 7] == Fine(s)
    {
      if s < k {
        WindowKeeps(m, k, s);
      }
    }

    static lemma NextInTurn(k: nat)
      ensures NextPtr(1 + k % 7) == 1 + (k + 1) % 7
    {
      if k % 7 == 6 {
        assert (k + 1) % 7 == 0;
      } else {
        assert (k + 1) % 7 == k % 7 + 1;
      }
    }

    static lemma WindowAfter(m: MmuState, k: nat)
      requires Shaped(m) && k < |SEGS| && m.ptr == 1 + k % 7 && Window(m.loc, m.slot, k, 7)
      ensures var m1 := m.(loc := m.loc[m.ptr := SEGS[k]], ptr := NextPtr(m.ptr));
              var m2 := WriteL1(WriteL1(m1, SEGS[k], Invalid), SEGS[k], Fine(k));
              Window(m2.loc, m2.slot, k + 1, 7)
    {
      var m1 := m.(loc := m.loc[m.ptr := SEGS[k]], ptr := NextPtr(m.ptr));
      var m2 := WriteL1(WriteL1(m1, SEGS[k], Invalid), SEGS[k], Fine(k));
      forall s | 0 <= s < k + 1 && k + 1 - 7 <= s
        ensures m2.loc[1 + s % 7] == SEGS[s] && m2.slot[1 + s % 7] == Fine(s)
      {
        WindowWrite(m, k, s);
      }
    }

    static lemma WindowMoves(m: MmuState, k: nat)
      requires Shaped(m) && k < |SEGS| && m.ptr == 1 + k % 7 && m.loc[0] == 0 && Window(m.loc, m.slot, k, 7)
      ensures var m1 := m.(loc := m.loc[m.ptr := SEGS[k]], ptr := NextPtr(m.ptr));
              var m2 := WriteL1(WriteL1(m1, SEGS[k], Invalid), SEGS[k], Fine(k));
              && m2.ptr == 1 + (k + 1) % 7 && m2.loc[0] == 0
              && Window(m2.loc, m2.slot, k + 1, 7)
              && ReadL1(m2, SEGS[k]) == Fine(k)
    {
      var m1 := m.(loc := m.loc[m.ptr := SEGS[k]], ptr := NextPtr(m.ptr));
      var m2 := WriteL1(WriteL1(m1, SEGS[k], Invalid), SEGS[k], Fine(k));
      WindowAfter(m, k);
      NextInTurn(k);
      hide Window, ReadL1, NextPtr;
      SegsDistinct(k, k);
      assert m2.loc == m1.loc && m1.loc[m.ptr] == SEGS[k];
      WrittenReadsBack(m1, SEGS[k], Invalid, Fine(k));
    }

    static lemma WrittenReadsBack(m: MmuState, seg: nat, u: L1, v: L1)
      requires |m.loc| == |m.slot| == SLOTS && seg in m.loc
      ensures ReadL1(WriteL1(WriteL1(m, seg, u), seg, v), seg) == v
    {
      var i :| 0 <= i < SLOTS && m.loc[i] == seg;
      assert FindSlot(m.loc, seg, 0) <= i;
    }

    /** Moving the next entry to the segment and writing it. */
    method PlaceL1(ghost k: nat, pte: nat, table: nat) returns (v: L1)
      requires k < |SEGS| && Started(k) && pte == SEGS[k] && table == k
      modifies this, loc, slot
      ensures Wired() && ptr == 1 + (k + 1) % 7 && loc[0] == 0 && v == Fine(k)
      ensures Window(loc[..], slot[..], k + 1, 7)
    {
      ghost var m := View();
      WindowMoves(m, k);
      loc[ptr] := pte;
      assert View() == m.(loc := m.loc[m.ptr := pte]);
      IncPtr();
      PokeL1(pte, Invalid);
      PokeL1(pte, Fine(table));
      v := PeekL1(pte);
      assert View().ptr == ptr && View().loc[0] == loc[0];
    }

    /** `SetL1PTE` for the k-th segment: a free row of the table, the next movable entry, and a copy of
        what reads back. */
    method SetL1Pte(ghost k: nat, pte: nat, table: nat)
      requires k < |SEGS| && Started(k) && pte == SEGS[k] && table == k
      modifies this, loc, slot, segOf, valOf
      ensures Started(k + 1)
    {
      var i := FindRow(k, pte);
      var v := PlaceL1(k, pte, table);
      segOf[i], valOf[i] := pte, v;
    }

    /** The table in memory starts out free, and the fixed entries are written. */
    method Clear()
      requires Wired()
      modifies this, loc, slot, segOf, valOf
      ensures Started(0)
    {
      ptr := 1;
      loc[0] := 0;
      for j := 0 to MAX_SEG_SUPPORTED
        invariant Wired() && ptr == 1 && loc[0] == 0
        invariant forall k :: 0 <= k < j ==> segOf[k] == FREE_SEG
      {
        segOf[j], valOf[j] := FREE_SEG, Invalid;
      }
      PokeL1(0, Section(0));
      ghost var m1 := View();
      PokeL1(0x800, Section(0x8000_0000));
      assert View().loc == m1.loc && View().segOf == m1.segOf;
      assert loc[0] == View().loc[0] && forall k :: 0 <= k < MAX_SEG_SUPPORTED ==> segOf[k] == View().segOf[k];
    }

    /** `mmu_init`: whatever the registers held at power-up, the invariant holds afterwards. */
    method Init()
      requires Wired()
      modifies this, loc, slot, segOf, valOf
      ensures Wired() && Valid(View())
    {
      Clear();
      for i := 0 to 6
        invariant Started(i)
      {
        SetL1Pte(i, 1 + i, i);
      }
      for i := 0 to 3
        invariant Started(6 + i)
      {
        SetL1Pte(6 + i, 32 + i, 6 + i);
      }
      for i := 0 to 4
        invariant Started(9 + i)
      {
        SetL1Pte(9 + i, 48 + i, 9 + i);
      }
      StartedIsValid();
    }

    static lemma LastSeven(loc: seq<nat>, slot: seq<L1>, i: nat)
      requires |loc| == |slot| == SLOTS && 1 <= i < SLOTS && Window(loc, slot, |SEGS|, 7)
      ensures var s := if i == 7 then 6 else i + 6;
              loc[i] == SEGS[s] && Registered(loc[i]) && slot[i] == Fine(TableOf(loc[i]))
    {
      var s := if i == 7 then 6 else i + 6;
      assert 1 + s % 7 == i && loc[1 + s % 7] == SEGS[s];
      SegsDistinct(TableOf(SEGS[s]), s);
    }

    lemma StartedIsValid()
      requires Started(|SEGS|)
      ensures Valid(View())
    {
      hide TableOf, Registered, Window;
      var m := View();
      forall i | 1 <= i < SLOTS
        ensures Registered(m.loc[i]) && m.slot[i] == Fine(TableOf(m.loc[i]))
      {
        LastSeven(m.loc, m.slot, i);
      }
      forall i, j | 1 <= i < j < SLOTS
        ensures m.loc[i] != m.loc[j]
      {
        LastSeven(m.loc, m.slot, i);
        LastSeven(m.loc, m.slot, j);
        var s, t := if i == 7 then 6 else i + 6, if j == 7 then 6 else j + 6;
        if SEGS[s] == SEGS[t] {
          SegsDistinct(s, t);
        }
      }
    }
  }
}
