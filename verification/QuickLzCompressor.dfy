/** `qlz_compress` as the program runs it: the control word is patched in place, the hash table lives
    in two arrays that keep stale values between calls, and the fetch is updated incrementally. */
module QuickLzCompressor {
  import opened Basics
  import opened QuickLzFormat
  import opened QuickLzParse
  import opened QuickLzBound
  import opened QuickLzPacket

  /** What a control word under construction looks like: it is shifted right once per item, with the
      item's bit entering at the top and the sentinel running ahead. */
  ghost function PendingWord(g: seq<Item>): (w: nat)
    ensures w <= 0xFFFF_FFFF
  {
    if g == [] then TOP_BIT
    else PendingWord(g[..|g| - 1]) / 2 + (if g[|g| - 1].Match? then TOP_BIT else 0)
  }

  lemma {:induction false} PendingWordIsBits(g: seq<Item>)
    requires |g| <= ITEMS_PER_CWORD
    ensures PendingWord(g) == Pow2(ITEMS_PER_CWORD - |g|) * (1 + 2 * Bits(g))
  {
    if g == [] {
      Pow2Of31();
    } else {
      var init, last := g[..|g| - 1], g[|g| - 1];
      assert g == init + [last];
      PendingWordIsBits(init);
      BitsSnoc(init, last);
      var m := Pow2(ITEMS_PER_CWORD - |g|);
      assert Pow2(ITEMS_PER_CWORD - |init|) == 2 * m;
      Halve(m, 1 + 2 * Bits(init));
      if last.Match? {
        Pow2Product(ITEMS_PER_CWORD - |g|, |init|);
        Pow2Of31();
        Distribute(m, 1 + 2 * Bits(init), Pow2(|init|));
      }
    }
  }

  lemma Halve(m: nat, v: nat)
    ensures 2 * m * v / 2 == m * v
  {
    assert 2 * m * v == 2 * (m * v);
  }

  lemma Distribute(m: nat, v: nat, b: nat)
    ensures m * (v + 2 * b) == m * v + 2 * (m * b)
  {
  }

  lemma {:induction false} Pow2Product(a: nat, b: nat)
    ensures Pow2(a) * Pow2(b) == Pow2(a + b)
  {
    if a > 0 {
      Pow2Product(a - 1, b);
      assert 2 * Pow2(a - 1) * Pow2(b) == 2 * (Pow2(a - 1) * Pow2(b));
    }
  }

  lemma OddProduct(m: nat, v: nat)
    ensures 2 * m * (1 + 2 * v) % 2 == 0
  {
    assert 2 * m * (1 + 2 * v) == 2 * (m * (1 + 2 * v));
  }

  /** The lowest bit tells when the word is full, and one more shift and the top bit finish it. */
  lemma PendingWordFull(g: seq<Item>)
    requires |g| <= ITEMS_PER_CWORD
    ensures PendingWord(g) % 2 == 1 <==> |g| == ITEMS_PER_CWORD
    ensures |g| == ITEMS_PER_CWORD ==> PendingWord(g) / 2 + TOP_BIT == ControlWord(ITEMS_PER_CWORD, g)
  {
    PendingWordIsBits(g);
    if |g| == ITEMS_PER_CWORD {
      FinishedWord(g);
    } else {
      OddProduct(Pow2(ITEMS_PER_CWORD - |g| - 1), Bits(g));
    }
  }

  lemma FinishedWord(g: seq<Item>)
    requires |g| <= ITEMS_PER_CWORD
    ensures (1 + 2 * Bits(g)) / 2 + TOP_BIT == ControlWord(ITEMS_PER_CWORD, g)
  {
    ControlWordIsBits(ITEMS_PER_CWORD, g);
    Pow2Of31();
  }

  /** Where the compressor stands: the items of finished groups, the items of the open group, and the
      dictionary. */
  datatype Progress = Progress(done: seq<Item>, group: seq<Item>, table: Table)

  /** `out` is what has been written; the four bytes at cwordPtr are reserved for the open group. */
  ghost predicate Inv(x: seq<byte>, pr: Progress, src: nat, lits: nat, cword: nat, cwordPtr: nat, out: seq<byte>) {
    && src <= |x| && TableBelow(pr.table, src)
    && Items(x) == pr.done + pr.group + Parse(x, src, pr.table, lits)
    && |pr.done| % ITEMS_PER_CWORD == 0 && |pr.group| <= ITEMS_PER_CWORD
    && cword == PendingWord(pr.group)
    && cwordPtr + CWORD_LEN <= |out|
    && out[..cwordPtr] == Stream(0, pr.done)
    && out[cwordPtr + CWORD_LEN..] == Body(pr.group)
  }

  ghost predicate StillGivesUp(x: seq<byte>, pr: Progress, src: nat, lits: nat, out: seq<byte>)
    requires src <= |x| && TableBelow(pr.table, src) && |pr.group| <= ITEMS_PER_CWORD
  {
    GivesUp(x, src, ITEMS_PER_CWORD - |pr.group|, |out|, Parse(x, src, pr.table, lits))
  }

  /** Patching the finished control word in place and reserving the next one. */
  ghost function Patched(out: seq<byte>, cwordPtr: nat, w: nat): seq<byte>
    requires cwordPtr + CWORD_LEN <= |out|
  {
    out[..cwordPtr] + Bytes4(w) + out[cwordPtr + CWORD_LEN..]
  }

  lemma InvStart(x: seq<byte>, out: seq<byte>)
    requires |out| == CWORD_LEN
    ensures Inv(x, Progress([], [], map[]), 0, 0, TOP_BIT, 0, out)
  {
  }

  lemma FlushKeeps(x: seq<byte>, pr: Progress, src: nat, lits: nat, cword: nat, cwordPtr: nat, out: seq<byte>, out': seq<byte>)
    requires Inv(x, pr, src, lits, cword, cwordPtr, out) && |pr.group| == ITEMS_PER_CWORD
    requires |out'| == |out| + CWORD_LEN && out'[..|out|] == Patched(out, cwordPtr, cword / 2 + TOP_BIT)
    ensures Inv(x, Progress(pr.done + pr.group, [], pr.table), src, lits, TOP_BIT, |out|, out')
  {
    hide Parse, Items, ControlWord, Stream, Body, PendingWord, Bytes4, TableBelow;
    PendingWordFull(pr.group);
    StreamCloseGroup(pr.done, pr.group);
    FlushedBytes(out, cwordPtr, cword / 2 + TOP_BIT, out', Stream(0, pr.done), Body(pr.group));
    NewGroup(pr.done + pr.group);
    assert (pr.done + pr.group) + [] == pr.done + pr.group;
  }

  lemma FlushedBytes(out: seq<byte>, cwordPtr: nat, w: nat, out': seq<byte>, before: seq<byte>, group: seq<byte>)
    requires cwordPtr + CWORD_LEN <= |out| && |out'| == |out| + CWORD_LEN && out'[..|out|] == Patched(out, cwordPtr, w)
    requires out[..cwordPtr] == before && out[cwordPtr + CWORD_LEN..] == group
    ensures out'[..|out|] == before + Bytes4(w) + group && out'[|out| + CWORD_LEN..] == []
  {
  }

  /** An empty group has an empty body, and the top bit for its control word. */
  lemma NewGroup(done: seq<Item>)
    ensures Body([]) == [] && PendingWord([]) == TOP_BIT
  {
  }

  lemma ItemKeeps(x: seq<byte>, pr: Progress, src: nat, lits: nat, cword: nat, cwordPtr: nat, out: seq<byte>)
    requires Inv(x, pr, src, lits, cword, cwordPtr, out) && |pr.group| < ITEMS_PER_CWORD && src < |x|
    ensures var it := FirstItem(x, src, pr.table, lits);
            Inv(x, Progress(pr.done, pr.group + [it], Enter(x, pr.table, src)), src + it.Width(),
                if it.Lit? then lits + 1 else 0,
                cword / 2 + (if it.Match? then TOP_BIT else 0), cwordPtr, out + it.Code())
  {
    hide FirstItem, Enter, Parse, Stream;
    var it := FirstItem(x, src, pr.table, lits);
    ParseUnfold(x, src, pr.table, lits);
    BodySnoc(pr.group, it);
    var g := pr.group + [it];
    assert g[..|g| - 1] == pr.group;
    var rest := Parse(x, src + it.Width(), Enter(x, pr.table, src), if it.Lit? then lits + 1 else 0);
    assert Parse(x, src, pr.table, lits) == [it] + rest;
    MoveItem(pr.done, pr.group, it, rest);
    AppendBody(out, cwordPtr + CWORD_LEN, it.Code());
  }

  lemma MoveItem(a: seq<Item>, b: seq<Item>, it: Item, c: seq<Item>)
    ensures a + b + ([it] + c) == a + (b + [it]) + c
  {
  }

  lemma AppendBody(out: seq<byte>, at: nat, c: seq<byte>)
    requires at <= |out|
    ensures (out + c)[at..] == out[at..] + c
    ensures at >= CWORD_LEN ==> (out + c)[..at - CWORD_LEN] == out[..at - CWORD_LEN]
  {
  }

  lemma ItemGivesUp(x: seq<byte>, pr: Progress, src: nat, lits: nat, cword: nat, cwordPtr: nat, out: seq<byte>)
    requires Inv(x, pr, src, lits, cword, cwordPtr, out) && |pr.group| < ITEMS_PER_CWORD && MayStartMatch(x, src)
    ensures var it := FirstItem(x, src, pr.table, lits);
            StillGivesUp(x, pr, src, lits, out) ==
            StillGivesUp(x, Progress(pr.done, pr.group + [it], Enter(x, pr.table, src)), src + it.Width(),
                         if it.Lit? then lits + 1 else 0, out + it.Code())
  {
    hide FirstItem, Enter, Parse, Stream;
    ParseUnfold(x, src, pr.table, lits);
  }

  lemma FlushGivesUp(x: seq<byte>, pr: Progress, src: nat, lits: nat, cword: nat, cwordPtr: nat, out: seq<byte>, out': seq<byte>)
    requires Inv(x, pr, src, lits, cword, cwordPtr, out) && |pr.group| == ITEMS_PER_CWORD && MayStartMatch(x, src)
    requires |out'| == |out| + CWORD_LEN
    ensures StillGivesUp(x, pr, src, lits, out) ==
            (PoorRatio(|x|, src, |out|) || StillGivesUp(x, Progress(pr.done + pr.group, [], pr.table), src, lits, out'))
  {
    hide FirstItem, Enter, Parse, Stream;
    ParseUnfold(x, src, pr.table, lits);
  }

  lemma FinishIsStream(x: seq<byte>, pr: Progress, lits: nat, cword: nat, cwordPtr: nat, out: seq<byte>)
    requires Inv(x, pr, |x|, lits, cword, cwordPtr, out) && pr.group != []
    ensures Patched(out, cwordPtr, (1 + 2 * Bits(pr.group)) / 2 + TOP_BIT) == Stream(0, Items(x))
  {
    FinishedWord(pr.group);
    StreamCloseGroup(pr.done, pr.group);
    assert Items(x) == pr.done + pr.group;
  }

  // ----- the program

  /** The entries `hash[i].cache` and `hash[i].offset`; a null pointer is -1. */
  class CompressState {
    const cache: array<nat>
    const offset: array<int>

    constructor ()
      ensures cache.Length == offset.Length == HASH_VALUES && fresh(cache) && fresh(offset)
    {
      cache := new nat[HASH_VALUES];
      offset := new int[HASH_VALUES];
    }

    ghost predicate Valid() {
      cache.Length == offset.Length == HASH_VALUES && cache as object != offset
    }

    /** The arrays stand for dictionary t: a bucket is in use when its pointer is not null, and then
        its cache is the three bytes at that position. */
    ghost predicate Stands(x: seq<byte>, t: Table)
      reads cache, offset
    {
      && Valid()
      && forall h :: 0 <= h < HASH_VALUES ==>
           if h in t then t[h] + 3 <= |x| && offset[h] == t[h] && cache[h] == Read3(x, t[h])
           else offset[h] == -1
    }

    /** `reset_table_compress` clears the pointers only. */
    method Reset(x: seq<byte>)
      requires Valid()
      modifies offset
      ensures Stands(x, map[])
    {
      for i := 0 to HASH_VALUES
        invariant forall h :: 0 <= h < i ==> offset[h] == -1
      {
        offset[i] := -1;
      }
    }
  }

  method FastWrite4(f: nat, dst: array<byte>, at: nat)
    requires at + 4 <= dst.Length
    modifies dst
    ensures dst[..] == old(dst[..])[..at] + Bytes4(f) + old(dst[..])[at + 4..]
  {
    dst[at] := f % 0x100;
    dst[at + 1] := f / 0x100 % 0x100;
    dst[at + 2] := f / 0x1_0000 % 0x100;
    dst[at + 3] := f / 0x100_0000 % 0x100;
  }

  method FastWrite3(f: nat, dst: array<byte>, at: nat)
    requires at + 3 <= dst.Length
    modifies dst
    ensures dst[..] == old(dst[..])[..at] + Bytes3(f) + old(dst[..])[at + 3..]
  {
    dst[at] := f % 0x100;
    dst[at + 1] := f / 0x100 % 0x100;
    dst[at + 2] := f / 0x1_0000 % 0x100;
  }

  method WriteByte(b: byte, dst: array<byte>, at: nat)
    requires at < dst.Length
    modifies dst
    ensures dst[..] == old(dst[..])[..at] + [b] + old(dst[..])[at + 1..]
  {
    dst[at] := b;
  }

  method FastWrite2(f: nat, dst: array<byte>, at: nat)
    requires at + 2 <= dst.Length
    modifies dst
    ensures dst[..] == old(dst[..])[..at] + Bytes2(f) + old(dst[..])[at + 2..]
  {
    dst[at] := f % 0x100;
    dst[at + 1] := f / 0x100 % 0x100;
  }

  /** `same`. */
  method SameRun(x: seq<byte>, p: nat, count: nat) returns (same: bool)
    requires p + count < |x|
    ensures same <==> Same(x, p, count)
  {
    var n := count;
    while n > 0 && x[p + n] == x[p]
      invariant 0 <= n <= count
      invariant forall i :: p + n < i <= p + count ==> x[i] == x[p]
    {
      n := n - 1;
    }
    same := n == 0;
    assert n > 0 ==> x[p + n] != x[p] && p <= p + n <= p + count;
  }

  /** The nested tests for how far a copy reaches. */
  method FindMatchLen(x: seq<byte>, o: nat, oldSrc: nat) returns (matchLen: nat)
    requires MayStartMatch(x, oldSrc) && o < oldSrc
    ensures matchLen == MatchLen(x, o, oldSrc)
  {
    if x[o + 3] != x[oldSrc + 3] {
      return 3;
    }
    var src := oldSrc + 4;
    if x[o + (src - oldSrc)] == x[src] {
      src := src + 1;
      if x[o + (src - oldSrc)] == x[src] {
        var q := |x| - 1 - UNCOMPRESSED_END - (src - 5) + 1;
        var remaining := if q > 255 then 255 else q;
        src := src + 1;
        while x[o + (src - oldSrc)] == x[src] && src - oldSrc < remaining
          invariant oldSrc + 6 <= src <= oldSrc + remaining
          invariant Extend(x, o, oldSrc, src - oldSrc, remaining) == Extend(x, o, oldSrc, 6, remaining)
          decreases oldSrc + remaining - src
        {
          src := src + 1;
        }
      }
    }
    matchLen := src - oldSrc;
  }

  lemma ShiftedFetch(x: seq<byte>, p: nat)
    requires p + 4 <= |x|
    ensures Read3(x, p) / 0x100 % 0x1_0000 + 0x1_0000 * x[p + 3] as nat == Read3(x, p + 1)
  {
    assert Read3(x, p) / 0x100 == x[p + 1] as nat + 0x100 * x[p + 2] as nat;
  }

  /** Looking the three bytes up, entering them, and deciding for or against a copy. */
  method Probe(x: seq<byte>, state: CompressState, src: nat, fetch: nat, lits: nat, ghost t: Table)
      returns (hash: nat, o: int, takes: bool)
    requires MayStartMatch(x, src) && TableBelow(t, src) && fetch == Read3(x, src) && state.Stands(x, t)
    modifies state.cache, state.offset
    ensures state.Stands(x, Enter(x, t, src))
    ensures hash == HashAt(x, src) && (takes <==> TakesMatch(x, src, t, lits))
    ensures takes ==> hash in t && o == t[hash]
  {
    hide FoldWord, HashFunc;
    hash := HashFunc(fetch);
    var sameBytes := fetch == state.cache[hash];
    state.cache[hash] := fetch;
    o := state.offset[hash];
    state.offset[hash] := src;
    takes := false;
    if sameBytes && o != -1 {
      if src - o > 2 {
        takes := true;
      } else if src == o + 1 && lits >= 3 && src > 3 {
        takes := SameRun(x, src - 3, 6);
      }
    }
  }

  /** The copy token: two bytes for a short copy, three for a long one. */
  method WriteToken(destination: array<byte>, base: nat, dst0: nat, hash: nat, matchLen: nat) returns (dst: nat)
    requires hash < HASH_VALUES && 3 <= matchLen <= 255 && base + dst0 + 3 <= destination.Length
    modifies destination
    ensures var c := Match(hash, matchLen).Code();
            && dst == dst0 + |c|
            && destination[..] == old(destination[..])[..base + dst0] + c + old(destination[..])[base + dst..]
  {
    if matchLen < 18 {
      FastWrite2(matchLen - 2 + 16 * hash, destination, base + dst0);
      dst := dst0 + 2;
    } else {
      FastWrite3(0x1_0000 * matchLen + 16 * hash, destination, base + dst0);
      dst := dst0 + 3;
    }
  }

  /** The body of the main loop after the control word has been seen to: one copy or one literal. */
  method EmitItem(x: seq<byte>, destination: array<byte>, base: nat, state: CompressState, src0: nat, dst0: nat,
                  cword0: nat, fetch0: nat, lits0: nat, ghost t: Table)
      returns (src: nat, dst: nat, cword: nat, fetch: nat, lits: nat)
    requires MayStartMatch(x, src0) && TableBelow(t, src0) && fetch0 == Read3(x, src0)
    requires state.Stands(x, t) && base + dst0 + 3 <= destination.Length
    modifies destination, state.cache, state.offset
    ensures var it := FirstItem(x, src0, t, lits0);
            && src == src0 + it.Width() && dst == dst0 + |it.Code()|
            && cword == cword0 / 2 + (if it.Match? then TOP_BIT else 0)
            && lits == (if it.Lit? then lits0 + 1 else 0)
            && destination[..] == old(destination[..])[..base + dst0] + it.Code() + old(destination[..])[base + dst..]
    ensures state.Stands(x, Enter(x, t, src0))
    ensures src + 3 <= |x| && fetch == Read3(x, src)
  {
    hide MatchLen, FoldWord, HashFunc, TakesMatch, Enter;
    src, dst, lits := src0, dst0, lits0;
    var hash, o, takes := Probe(x, state, src0, fetch0, lits0, t);
    if takes {
      var matchLen := FindMatchLen(x, o, src0);
      cword := cword0 / 2 + TOP_BIT;
      src := src0 + matchLen;
      dst := WriteToken(destination, base, dst0, hash, matchLen);
      fetch := Read3(x, src);
      lits := 0;
    } else {
      lits := lits0 + 1;
      WriteByte(x[src0], destination, base + dst0);
      src, dst := src0 + 1, dst0 + 1;
      cword := cword0 / 2;
      ShiftedFetch(x, src0);
      fetch := fetch0 / 0x100 % 0x1_0000 + 0x1_0000 * x[src + 2] as nat;
    }
  }

  lemma PatchSlice(d0: seq<byte>, d1: seq<byte>, base: nat, at: nat, dst: nat, w: nat)
    requires at + 4 <= dst && base + dst <= |d0|
    requires d1 == d0[..base + at] + Bytes4(w) + d0[base + at + 4..]
    ensures |d1| == |d0| && d1[..base] == d0[..base]
    ensures d1[base..base + dst] == Patched(d0[base..base + dst], at, w)
  {
    var b := Bytes4(w);
    var r := Patched(d0[base..base + dst], at, w);
    assert |r| == dst;
    forall i | 0 <= i < dst
      ensures d1[base + i] == r[i]
    {
      if i < at {
        assert d1[base + i] == d0[base + i];
      } else if i < at + 4 {
        assert d1[base + i] == b[i - at] == r[i];
      } else {
        assert d1[base + i] == d0[base + i];
      }
    }
  }

  lemma PrefixOfSlice(d: seq<byte>, base: nat, dst: nat)
    requires base + dst + CWORD_LEN <= |d|
    ensures d[base..base + dst + CWORD_LEN][..dst] == d[base..base + dst]
  {
  }

  lemma AppendSlice(d0: seq<byte>, d1: seq<byte>, base: nat, dst: nat, c: seq<byte>)
    requires base + dst + |c| <= |d0|
    requires d1 == d0[..base + dst] + c + d0[base + dst + |c|..]
    ensures |d1| == |d0| && d1[..base] == d0[..base]
    ensures d1[base..base + dst + |c|] == d0[base..base + dst] + c
  {
  }

  /** A full control word is patched in and the next one reserved; the program does this inline. */
  method FlushWord(x: seq<byte>, destination: array<byte>, base: nat, cword: nat, cwordPtr: nat, dst: nat,
                   ghost pr: Progress, ghost src: nat, ghost lits: nat) returns (ghost out': seq<byte>)
    requires base + dst + CWORD_LEN <= destination.Length && |pr.group| == ITEMS_PER_CWORD
    requires Inv(x, pr, src, lits, cword, cwordPtr, destination[base..base + dst])
    modifies destination
    ensures destination[..base] == old(destination[..base])
    ensures out' == destination[base..base + dst + CWORD_LEN]
    ensures Inv(x, Progress(pr.done + pr.group, [], pr.table), src, lits, TOP_BIT, dst, out')
  {
    hide PendingWord, Stream, Parse;
    ghost var d0 := destination[..];
    FastWrite4(cword / 2 + TOP_BIT, destination, base + cwordPtr);
    PatchSlice(d0, destination[..], base, cwordPtr, dst, cword / 2 + TOP_BIT);
    ghost var d1 := destination[..];
    out' := d1[base..base + dst + CWORD_LEN];
    assert out' == destination[base..base + dst + CWORD_LEN];
    PrefixOfSlice(d1, base, dst);
    FlushKeeps(x, pr, src, lits, cword, cwordPtr, d0[base..base + dst], out');
  }

  /** Everything that holds at the head of the main loop about what has been written. */
  ghost predicate Running(x: seq<byte>, pr: Progress, src: nat, lits: nat, cword: nat, cwordPtr: nat,
                          out: seq<byte>, p0: nat, z0: nat) {
    && Inv(x, pr, src, lits, cword, cwordPtr, out)
    && Budget(|x|, p0, z0, |pr.group|, src, |out|)
    && (MayStartMatch(x, 0) ==> StillGivesUp(x, pr, src, lits, out) == Core(x).None?)
  }

  lemma RunningStart(x: seq<byte>, out: seq<byte>)
    requires |out| == CWORD_LEN
    ensures Running(x, Progress([], [], map[]), 0, 0, TOP_BIT, 0, out, 0, 0)
  {
    InvStart(x, out);
    BudgetStart(|x|);
    if MayStartMatch(x, 0) {
      StartGivesUp(x, out);
    }
  }

  lemma RunningFlush(x: seq<byte>, pr: Progress, src: nat, lits: nat, cword: nat, cwordPtr: nat, out: seq<byte>,
                     p0: nat, z0: nat, out': seq<byte>)
    requires Running(x, pr, src, lits, cword, cwordPtr, out, p0, z0)
    requires |pr.group| == ITEMS_PER_CWORD && MayStartMatch(x, src) && |out'| == |out| + CWORD_LEN
    ensures PoorRatio(|x|, src, |out|) ==> Core(x).None?
    ensures !PoorRatio(|x|, src, |out|)
            && Inv(x, Progress(pr.done + pr.group, [], pr.table), src, lits, TOP_BIT, |out|, out') ==>
              Running(x, Progress(pr.done + pr.group, [], pr.table), src, lits, TOP_BIT, |out|, out', src, |out|)
  {
    hide Inv, GivesUp, Parse, Core;
    FlushGivesUp(x, pr, src, lits, cword, cwordPtr, out, out');
    if !PoorRatio(|x|, src, |out|) {
      BudgetPass(|x|, p0, z0, src, |out|);
    }
  }

  lemma RunningItem(x: seq<byte>, pr: Progress, src: nat, lits: nat, cword: nat, cwordPtr: nat, out: seq<byte>,
                    p0: nat, z0: nat)
    requires Running(x, pr, src, lits, cword, cwordPtr, out, p0, z0)
    requires |pr.group| < ITEMS_PER_CWORD && MayStartMatch(x, src) && TableBelow(pr.table, src)
    ensures var it := FirstItem(x, src, pr.table, lits);
            Running(x, Progress(pr.done, pr.group + [it], Enter(x, pr.table, src)), src + it.Width(),
                    if it.Lit? then lits + 1 else 0,
                    cword / 2 + (if it.Match? then TOP_BIT else 0), cwordPtr, out + it.Code(), p0, z0)
  {
    hide Inv, GivesUp, Parse, Core, FirstItem, Enter, PendingWord;
    ItemKeeps(x, pr, src, lits, cword, cwordPtr, out);
    ItemGivesUp(x, pr, src, lits, cword, cwordPtr, out);
    BudgetItem(|x|, p0, z0, |pr.group|, src, |out|, FirstItem(x, src, pr.table, lits));
  }

  lemma RunningFacts(x: seq<byte>, pr: Progress, src: nat, lits: nat, cword: nat, cwordPtr: nat, out: seq<byte>,
                     p0: nat, z0: nat)
    requires Running(x, pr, src, lits, cword, cwordPtr, out, p0, z0)
    ensures src <= |x| && TableBelow(pr.table, src) && cwordPtr + CWORD_LEN <= |out| && |pr.group| <= ITEMS_PER_CWORD
    ensures Inv(x, pr, src, lits, cword, cwordPtr, out)
    ensures cword % 2 == 1 <==> |pr.group| == ITEMS_PER_CWORD
    ensures |out| + CWORD_LEN <= |x| + SLACK
    ensures |x| - src <= 10 ==> |out| + (|x| - src) + CWORD_LEN <= |x| + SLACK
  {
    BudgetRoom(|x|, p0, z0, |pr.group|, src, |out|);
    PendingWordFull(pr.group);
  }

  /** Running, with the output in its place in the destination. */
  ghost predicate RunningIn(x: seq<byte>, d: seq<byte>, base: nat, dst: nat, pr: Progress, src: nat, lits: nat,
                            cword: nat, cwordPtr: nat, p0: nat, z0: nat) {
    && base + dst <= |d|
    && Running(x, pr, src, lits, cword, cwordPtr, d[base..base + dst], p0, z0)
    && (pr.group == [] ==> pr.done == [] && src == 0)
  }

  /** The first half of an iteration: a full control word is tested for its ratio and flushed. */
  method SeeToWord(x: seq<byte>, destination: array<byte>, base: nat, src: nat, ghost lits: nat, dst0: nat,
                   cword0: nat, cwordPtr0: nat, fetch0: nat, ghost pr0: Progress, ghost p00: nat, ghost z00: nat)
      returns (poor: bool, dst: nat, cword: nat, cwordPtr: nat, fetch: nat,
               ghost pr: Progress, ghost p0: nat, ghost z0: nat)
    requires MayStartMatch(x, src) && base <= 9 && |x| + 400 <= destination.Length && fetch0 == Read3(x, src)
    requires RunningIn(x, destination[..], base, dst0, pr0, src, lits, cword0, cwordPtr0, p00, z00)
    modifies destination
    ensures destination[..][..base] == old(destination[..])[..base]
    ensures poor ==> Core(x).None?
    ensures !poor ==>
              && base + dst <= destination.Length && pr.table == pr0.table && |pr.group| < ITEMS_PER_CWORD
              && Running(x, pr, src, lits, cword, cwordPtr, destination[..][base..base + dst], p0, z0)
    ensures fetch == Read3(x, src)
  {
    hide Running, Inv, Core, Parse, FirstItem, Enter, FoldWord, HashFunc, PendingWord;
    poor, dst, cword, cwordPtr, fetch, pr, p0, z0 := false, dst0, cword0, cwordPtr0, fetch0, pr0, p00, z00;
    ghost var out := destination[..][base..base + dst];
    assert out == destination[base..base + dst];
    RunningFacts(x, pr, src, lits, cword, cwordPtr, out, p0, z0);
    if cword % 2 == 1 {
      RunningFlush(x, pr, src, lits, cword, cwordPtr, out, p0, z0, out + Bytes4(0));
      if src > |x| / 2 && dst > src - src / 32 {
        poor := true;
        return;
      }
      ghost var out' := FlushWord(x, destination, base, cword, cwordPtr, dst, pr, src, lits);
      RunningFlush(x, pr, src, lits, cword, cwordPtr, out, p0, z0, out');
      assert destination[..][base..base + dst + CWORD_LEN] == out';
      p0, z0, pr := src, dst, Progress(pr.done + pr.group, [], pr.table);
      cwordPtr, dst, cword := dst, dst + CWORD_LEN, TOP_BIT;
      fetch := Read3(x, src);
    }
  }

  /** `qlz_compress_core`: 0 when compression is given up, and else the length of the stream, nine at
      least. The first loop looks for copies, the second writes the literals at the end. */
  method CompressCore(x: seq<byte>, destination: array<byte>, base: nat, state: CompressState) returns (r: nat)
    requires Compressible(x) && base <= 9 && |x| + 400 <= destination.Length
    requires state.Stands(x, map[])
    modifies destination, state.cache, state.offset
    ensures destination[..][..base] == old(destination[..])[..base]
    ensures match Core(x)
            case None => r == 0
            case Some(s) =>
              && r == (if |s| < MIN_CORE then MIN_CORE else |s|)
              && base + r <= destination.Length && destination[base..base + |s|] == s
  {
    hide RunningIn, Running, Inv, Core, Parse, FirstItem, Enter, FoldWord, HashFunc, PendingWord;
    var src: nat, dst: nat, cwordPtr: nat, cword: nat, lits: nat, fetch: nat := 0, CWORD_LEN, 0, TOP_BIT, 0, 0;
    ghost var pr := Progress([], [], map[]);
    ghost var p0: nat, z0: nat := 0, 0;
    RunningInStart(x, destination[..], base);
    if MayStartMatch(x, src) {
      fetch := Read3(x, src);
    }
    while src + UNCONDITIONAL_MATCHLEN + UNCOMPRESSED_END < |x|
      invariant destination[..][..base] == old(destination[..])[..base]
      invariant RunningIn(x, destination[..], base, dst, pr, src, lits, cword, cwordPtr, p0, z0)
      invariant state.Stands(x, pr.table)
      invariant MayStartMatch(x, src) ==> fetch == Read3(x, src)
      decreases |x| - src
    {
      var poor;
      poor, dst, cword, cwordPtr, fetch, pr, p0, z0 :=
        SeeToWord(x, destination, base, src, lits, dst, cword, cwordPtr, fetch, pr, p0, z0);
      if poor {
        return 0;
      }
      ghost var d0, src0, dst0 := destination[..], src, dst;
      RunningFacts(x, pr, src, lits, cword, cwordPtr, d0[base..base + dst], p0, z0);
      RunningItem(x, pr, src, lits, cword, cwordPtr, d0[base..base + dst], p0, z0);
      ghost var it := FirstItem(x, src, pr.table, lits);
      src, dst, cword, fetch, lits := EmitItem(x, destination, base, state, src, dst, cword, fetch, lits, pr.table);
      AppendSlice(d0, destination[..], base, dst0, it.Code());
      pr := Progress(pr.done, pr.group + [it], Enter(x, pr.table, src0));
      RunningInGroup(x, destination[..], base, dst, pr, src, lits, cword, cwordPtr, p0, z0);
    }
    RunningInEnd(x, destination[..], base, dst, pr, src, lits, cword, cwordPtr, p0, z0);
    r := FinishCore(x, destination, base, state, src, dst, cword, cwordPtr, lits, pr);
  }

  lemma RunningInStart(x: seq<byte>, d: seq<byte>, base: nat)
    requires base + CWORD_LEN <= |d|
    ensures RunningIn(x, d, base, CWORD_LEN, Progress([], [], map[]), 0, 0, TOP_BIT, 0, 0, 0)
  {
    hide Running;
    RunningStart(x, d[base..base + CWORD_LEN]);
  }

  lemma RunningInGroup(x: seq<byte>, d: seq<byte>, base: nat, dst: nat, pr: Progress, src: nat, lits: nat,
                       cword: nat, cwordPtr: nat, p0: nat, z0: nat)
    requires base + dst <= |d| && pr.group != []
    requires Running(x, pr, src, lits, cword, cwordPtr, d[base..base + dst], p0, z0)
    ensures RunningIn(x, d, base, dst, pr, src, lits, cword, cwordPtr, p0, z0)
  {
    hide Running;
  }

  lemma RunningInEnd(x: seq<byte>, d: seq<byte>, base: nat, dst: nat, pr: Progress, src: nat, lits: nat,
                     cword: nat, cwordPtr: nat, p0: nat, z0: nat)
    requires RunningIn(x, d, base, dst, pr, src, lits, cword, cwordPtr, p0, z0) && !MayStartMatch(x, src)
    ensures Core(x) == Some(Stream(0, Items(x)))
    ensures src <= |x| <= src + 10 && TailIn(x, d, base, dst, pr, src, lits, cword, cwordPtr)
  {
    hide Running, Inv, Core;
    RunningFacts(x, pr, src, lits, cword, cwordPtr, d[base..base + dst], p0, z0);
    DecidedCore(x, pr, src, lits, cword, cwordPtr, d[base..base + dst], p0, z0);
  }

  /** Once no copy may start any more, the ratio is no longer tested. */
  lemma DecidedCore(x: seq<byte>, pr: Progress, src: nat, lits: nat, cword: nat, cwordPtr: nat, out: seq<byte>,
                    p0: nat, z0: nat)
    requires Running(x, pr, src, lits, cword, cwordPtr, out, p0, z0) && !MayStartMatch(x, src)
    ensures Core(x) == Some(Stream(0, Items(x)))
  {
    hide Parse, Stream;
  }

  /** What holds at the head of the second loop. One control word at most is opened in it. */
  ghost predicate TailIn(x: seq<byte>, d: seq<byte>, base: nat, dst: nat, pr: Progress, src: nat, lits: nat,
                         cword: nat, cwordPtr: nat) {
    && base + dst <= |d|
    && Inv(x, pr, src, lits, cword, cwordPtr, d[base..base + dst])
    && (pr.group == [] ==> pr.done == [] && src == 0)
    && dst + (|x| - src) + (if |pr.group| + (|x| - src) > ITEMS_PER_CWORD then CWORD_LEN else 0) <= |x| + SLACK
  }

  /** One literal of the tail, after the control word has been seen to. */
  method TailStep(x: seq<byte>, destination: array<byte>, base: nat, src: nat, dst0: nat, cword0: nat,
                  cwordPtr0: nat, ghost lits: nat, ghost pr0: Progress)
      returns (dst: nat, cword: nat, cwordPtr: nat, ghost pr: Progress)
    requires src < |x| && !MayStartMatch(x, src) && base <= 9 && |x| + 400 <= destination.Length
    requires TailIn(x, destination[..], base, dst0, pr0, src, lits, cword0, cwordPtr0)
    modifies destination
    ensures destination[..][..base] == old(destination[..])[..base]
    ensures TableBelow(pr0.table, src) && pr.table == Enter(x, pr0.table, src)
    ensures TailIn(x, destination[..], base, dst, pr, src + 1, lits + 1, cword, cwordPtr)
  {
    hide Inv, Core, Parse, FirstItem, Enter, Stream, PendingWord;
    dst, cword, cwordPtr, pr := dst0, cword0, cwordPtr0, pr0;
    ghost var out := destination[..][base..base + dst];
    assert out == destination[base..base + dst];
    InvFacts(x, pr, src, lits, cword, cwordPtr, out);
    if cword % 2 == 1 {
      out := FlushWord(x, destination, base, cword, cwordPtr, dst, pr, src, lits);
      pr := Progress(pr.done + pr.group, [], pr.table);
      cwordPtr, dst, cword := dst, dst + CWORD_LEN, TOP_BIT;
    }
    ItemKeeps(x, pr, src, lits, cword, cwordPtr, out);
    LateItem(x, src, pr.table, lits);
    ghost var d0 := destination[..];
    assert d0[base..base + dst] == out;
    WriteByte(x[src], destination, base + dst);
    AppendSlice(d0, destination[..], base, dst, [x[src]]);
    pr := Progress(pr.done, pr.group + [Lit(x[src])], Enter(x, pr.table, src));
    dst, cword := dst + 1, cword / 2;
  }

  /** The second loop and the last control word: the rest of the input as literals. */
  method FinishCore(x: seq<byte>, destination: array<byte>, base: nat, state: CompressState, src0: nat, dst0: nat,
                    cword0: nat, cwordPtr0: nat, ghost lits0: nat, ghost pr0: Progress) returns (r: nat)
    requires x != [] && base <= 9 && |x| + 400 <= destination.Length && src0 <= |x| <= src0 + 10
    requires TailIn(x, destination[..], base, dst0, pr0, src0, lits0, cword0, cwordPtr0)
    requires state.Stands(x, pr0.table)
    modifies destination, state.cache, state.offset
    ensures destination[..][..base] == old(destination[..])[..base]
    ensures var s := Stream(0, Items(x));
            && r == (if |s| < MIN_CORE then MIN_CORE else |s|)
            && base + r <= destination.Length && destination[base..base + |s|] == s
  {
    hide TailIn, Inv, Core, Parse, FirstItem, Enter, Stream, FoldWord, HashFunc, PendingWord;
    var src: nat, dst: nat, cwordPtr: nat, cword: nat := src0, dst0, cwordPtr0, cword0;
    ghost var pr, lits := pr0, lits0;
    while src < |x|
      invariant src0 <= src <= |x|
      invariant destination[..][..base] == old(destination[..])[..base]
      invariant TailIn(x, destination[..], base, dst, pr, src, lits, cword, cwordPtr)
      invariant state.Stands(x, pr.table)
    {
      EnterTail(x, state, src, pr.table);
      dst, cword, cwordPtr, pr := TailStep(x, destination, base, src, dst, cword, cwordPtr, lits, pr);
      src, lits := src + 1, lits + 1;
    }
    CloseWord(x, destination, base, dst, cword, cwordPtr, pr, lits);
    r := if dst < 9 then 9 else dst;
  }

  /** The last control word is shifted into place and patched in. */
  method CloseWord(x: seq<byte>, destination: array<byte>, base: nat, dst: nat, cword0: nat, cwordPtr: nat,
                   ghost pr: Progress, ghost lits: nat)
    requires x != [] && TailIn(x, destination[..], base, dst, pr, |x|, lits, cword0, cwordPtr)
    modifies destination
    ensures destination[..][..base] == old(destination[..])[..base]
    ensures base + dst <= destination.Length && dst <= |x| + SLACK
    ensures destination[base..base + dst] == Stream(0, Items(x))
  {
    hide TailIn, Stream;
    ghost var d0 := destination[..];
    TailInEnd(x, d0, base, dst, pr, lits, cword0, cwordPtr);
    var cword := ShiftOut(cword0, pr.group);
    FastWrite4(cword / 2 + TOP_BIT, destination, base + cwordPtr);
    ghost var d1 := destination[..];
    PatchSlice(d0, d1, base, cwordPtr, dst, cword / 2 + TOP_BIT);
    assert destination[base..base + dst] == d1[base..base + dst];
  }

  lemma TailInEnd(x: seq<byte>, d: seq<byte>, base: nat, dst: nat, pr: Progress, lits: nat, cword: nat, cwordPtr: nat)
    requires x != [] && TailIn(x, d, base, dst, pr, |x|, lits, cword, cwordPtr)
    ensures base + dst <= |d| && dst <= |x| + SLACK && cwordPtr + CWORD_LEN <= dst
    ensures cword == PendingWord(pr.group) && |pr.group| <= ITEMS_PER_CWORD
    ensures Patched(d[base..base + dst], cwordPtr, (1 + 2 * Bits(pr.group)) / 2 + TOP_BIT) == Stream(0, Items(x))
  {
    hide Inv, Stream;
    InvFacts(x, pr, |x|, lits, cword, cwordPtr, d[base..base + dst]);
    FinishIsStream(x, pr, lits, cword, cwordPtr, d[base..base + dst]);
  }

  lemma InvFacts(x: seq<byte>, pr: Progress, src: nat, lits: nat, cword: nat, cwordPtr: nat, out: seq<byte>)
    requires Inv(x, pr, src, lits, cword, cwordPtr, out)
    ensures src <= |x| && TableBelow(pr.table, src) && cwordPtr + CWORD_LEN <= |out|
    ensures cword == PendingWord(pr.group) && |pr.group| <= ITEMS_PER_CWORD
    ensures cword % 2 == 1 <==> |pr.group| == ITEMS_PER_CWORD
  {
    PendingWordFull(pr.group);
  }

  lemma LateItem(x: seq<byte>, p: nat, t: Table, lits: nat)
    requires p < |x| && TableBelow(t, p) && !MayStartMatch(x, p)
    ensures FirstItem(x, p, t, lits) == Lit(x[p])
  {
  }

  /** The tail's positions are entered in the table as well, while three bytes follow. */
  method EnterTail(x: seq<byte>, state: CompressState, src: nat, ghost t: Table)
    requires src < |x| && state.Stands(x, t)
    modifies state.cache, state.offset
    ensures state.Stands(x, Enter(x, t, src))
  {
    hide FoldWord, HashFunc;
    if src + 3 < |x| {
      var fetch := Read3(x, src);
      var hash := HashFunc(fetch);
      state.offset[hash] := src;
      state.cache[hash] := fetch;
    }
  }

  /** The shifts that bring the first bit of an open group to the bottom of the word. */
  method ShiftOut(cword0: nat, ghost g: seq<Item>) returns (cword: nat)
    requires |g| <= ITEMS_PER_CWORD && cword0 == PendingWord(g)
    ensures cword == 1 + 2 * Bits(g)
  {
    hide Pow2, Bits;
    PendingWordIsBits(g);
    cword := cword0;
    ghost var m := ITEMS_PER_CWORD - |g|;
    while cword % 2 != 1
      invariant 0 <= m && cword == Pow2(m) * (1 + 2 * Bits(g))
      decreases m
    {
      ShiftStep(m, Bits(g), cword);
      cword, m := cword / 2, m - 1;
    }
    ShiftStep(m, Bits(g), cword);
  }

  lemma ShiftStep(m: nat, b: nat, w: nat)
    requires w == Pow2(m) * (1 + 2 * b)
    ensures m == 0 ==> w == 1 + 2 * b
    ensures w % 2 == 1 <==> m == 0
    ensures m > 0 ==> w / 2 == Pow2(m - 1) * (1 + 2 * b)
  {
    if m > 0 {
      OddProduct(Pow2(m - 1), b);
      Halve(Pow2(m - 1), 1 + 2 * b);
    }
  }

  lemma StartGivesUp(x: seq<byte>, out: seq<byte>)
    requires MayStartMatch(x, 0) && |out| == CWORD_LEN
    ensures StillGivesUp(x, Progress([], [], map[]), 0, 0, out) == Core(x).None?
  {
    ParseUnfold(x, 0, map[], 0);
  }

  /** The header, field by field; the bits ORed into the first byte are distinct. */
  method WriteHeader(destination: array<byte>, size: nat, r: nat, compressed: nat)
    requires size <= MAX_SIZE && compressed <= 1 && r <= 0xFFFF_FFFF && 9 <= destination.Length
    modifies destination
    ensures var h := if size < SMALL then [Flags(size, compressed == 1), r % 0x100, size % 0x100]
                     else [Flags(size, compressed == 1)] + Bytes4(r) + Bytes4(size);
            destination[..] == h + old(destination[..])[HeaderLen(size)..]
  {
    if size < SMALL {
      destination[0] := compressed;
      destination[1] := r % 0x100;
      destination[2] := size % 0x100;
    } else {
      destination[0] := 2 + compressed;
      FastWrite4(r, destination, 1);
      FastWrite4(size, destination, 5);
    }
    destination[0] := destination[0] + 4;
    destination[0] := destination[0] + 64;
  }

  /** `qlz_compress`: 0 for a size it does not take, and else the length of the packet, which is then
      in the destination. */
  method Compress(x: seq<byte>, destination: array<byte>, state: CompressState) returns (r: nat)
    requires state.Valid() && |x| + 400 <= destination.Length
    modifies destination, state.cache, state.offset
    ensures !Compressible(x) ==> r == 0
    ensures Compressible(x) ==> r == PacketLen(x) && r <= |x| + 400 && Holds(destination[..], x)
  {
    hide Core, Holds, Header, Payload, PacketLen;
    if |x| == 0 || |x| > MAX_SIZE {
      return 0;
    }
    OutputBound(x);
    PacketCases(x);
    var base := if |x| < SMALL then 3 else 9;
    state.Reset(x);
    r := CompressCore(x, destination, base, state);
    r := base + r;
    var compressed := 1;
    if r == base {
      CopyIn(x, destination, base);
      r := |x| + base;
      compressed := 0;
    }
    ghost var d0 := destination[..];
    assert d0[base..base + |Payload(x)|] == destination[base..base + |Payload(x)|];
    WriteHeader(destination, |x|, r, compressed);
    HeaderSlices(d0, destination[..], Header(x), Payload(x));
    HoldsIntro(destination[..], x);
  }

  lemma PacketCases(x: seq<byte>)
    ensures match Core(x)
            case None => Payload(x) == x && PacketLen(x) == HeaderLen(|x|) + |x|
            case Some(s) => Payload(x) == s && PacketLen(x) == HeaderLen(|x|) + if |s| < MIN_CORE then MIN_CORE else |s|
    ensures Header(x) == if |x| < SMALL then [Flags(|x|, Core(x).Some?), PacketLen(x) % 0x100, |x| % 0x100]
                         else [Flags(|x|, Core(x).Some?)] + Bytes4(PacketLen(x)) + Bytes4(|x|)
  {
    hide Core;
  }

  lemma HoldsIntro(buf: seq<byte>, x: seq<byte>)
    requires |buf| >= PacketLen(x) && |Header(x)| + |Payload(x)| <= |buf|
    requires buf[..|Header(x)|] == Header(x)
    requires buf[|Header(x)|..|Header(x)| + |Payload(x)|] == Payload(x)
    ensures Holds(buf, x)
  {
    hide Core;
  }

  lemma HeaderSlices(d0: seq<byte>, d1: seq<byte>, h: seq<byte>, p: seq<byte>)
    requires |h| + |p| <= |d0| && d1 == h + d0[|h|..] && d0[|h|..|h| + |p|] == p
    ensures |d1| == |d0| && d1[..|h|] == h && d1[|h|..|h| + |p|] == p
  {
    assert d1[|h|..] == d0[|h|..];
    assert d1[|h|..|h| + |p|] == d1[|h|..][..|p|] && d0[|h|..|h| + |p|] == d0[|h|..][..|p|];
  }

  method CopyIn(x: seq<byte>, destination: array<byte>, base: nat)
    requires base + |x| <= destination.Length
    modifies destination
    ensures destination[base..base + |x|] == x
  {
    for i := 0 to |x|
      invariant destination[base..base + i] == x[..i]
    {
      destination[base + i] := x[i];
    }
  }
}
