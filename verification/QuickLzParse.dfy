/** What QuickLZ level 1 compression means, without buffers and control words: the greedy parse of
    the input into literals and copies, and the rule for giving up on a poor ratio. */
module QuickLzParse {
  import opened Basics
  import opened QuickLzFormat

  /** The compressor's dictionary: the last position entered in each hash bucket. A bucket that is
      absent is one whose pointer is still null in this run. */
  type Table = map<nat, nat>

  ghost predicate TableBelow(t: Table, p: nat) {
    forall h :: h in t ==> t[h] < p
  }

  /** `same(src, n)`: the n bytes after s[p] repeat it. */
  ghost predicate Same(x: seq<byte>, p: nat, n: nat)
    requires p + n < |x|
  {
    forall i :: p <= i <= p + n ==> x[i] == x[p]
  }

  /** Copies start at or before this position, so that ten bytes at least remain after it. */
  predicate MayStartMatch(x: seq<byte>, p: nat) {
    p + UNCONDITIONAL_MATCHLEN + UNCOMPRESSED_END < |x|
  }

  /** The condition of the main loop for taking the bucket's entry as a copy source. */
  ghost predicate TakesMatch(x: seq<byte>, p: nat, t: Table, lits: nat)
    requires MayStartMatch(x, p) && TableBelow(t, p)
  {
    var h := HashAt(x, p);
    && h in t
    && Read3(x, t[h]) == Read3(x, p)
    && (p - t[h] > 2 || (p == t[h] + 1 && lits >= 3 && p > 3 && Same(x, p - 3, 6)))
  }

  lemma GrowCopy(x: seq<byte>, o: nat, p: nat, k: nat)
    requires o < p && p + k < |x|
    requires x[o..o + k] == x[p..p + k] && x[o + k] == x[p + k]
    ensures x[o..o + k + 1] == x[p..p + k + 1]
  {
    assert x[o..o + k + 1] == x[o..o + k] + [x[o + k]];
    assert x[p..p + k + 1] == x[p..p + k] + [x[p + k]];
  }

  /** How far the copy reaches when it is known to reach k and may not pass limit. */
  ghost function Extend(x: seq<byte>, o: nat, p: nat, k: nat, limit: nat): (len: nat)
    requires o < p && p + limit < |x| && k <= limit
    ensures k <= len <= limit
    decreases limit - k
  {
    if k < limit && x[o + k] == x[p + k] then Extend(x, o, p, k + 1, limit) else k
  }

  lemma {:induction false} ExtendCopies(x: seq<byte>, o: nat, p: nat, k: nat, limit: nat)
    requires o < p && p + limit < |x| && k <= limit
    requires x[o..o + k] == x[p..p + k]
    ensures var len := Extend(x, o, p, k, limit); x[o..o + len] == x[p..p + len]
    decreases limit - k
  {
    if k < limit && x[o + k] == x[p + k] {
      GrowCopy(x, o, p, k);
      ExtendCopies(x, o, p, k + 1, limit);
    }
  }

  /** The cap on the length of a copy: one byte can hold it, and the last four bytes stay literal. */
  ghost function Limit(x: seq<byte>, p: nat): nat
    requires MayStartMatch(x, p)
  {
    var q := |x| - UNCOMPRESSED_END - p;
    if q > 255 then 255 else q
  }

  /** The copy length: the bytes after the first three are tried one by one; only from the sixth on
      is the cap looked at. */
  ghost function MatchLen(x: seq<byte>, o: nat, p: nat): (len: nat)
    requires MayStartMatch(x, p) && o < p
    ensures 3 <= len <= 255 && p + len + UNCOMPRESSED_END <= |x|
  {
    if x[o + 3] != x[p + 3] then 3
    else if x[o + 4] != x[p + 4] then 4
    else if x[o + 5] != x[p + 5] then 5
    else Extend(x, o, p, 6, Limit(x, p))
  }

  /** A copy of that length repeats what is already there. */
  lemma MatchLenCopies(x: seq<byte>, o: nat, p: nat)
    requires MayStartMatch(x, p) && o < p && Read3(x, o) == Read3(x, p)
    ensures var len := MatchLen(x, o, p); x[o..o + len] == x[p..p + len]
  {
    hide Read3, Extend;
    ThreeCopied(x, o, p);
    if x[o + 3] == x[p + 3] {
      GrowCopy(x, o, p, 3);
      if x[o + 4] == x[p + 4] {
        GrowCopy(x, o, p, 4);
        if x[o + 5] == x[p + 5] {
          GrowCopy(x, o, p, 5);
          ExtendCopies(x, o, p, 6, Limit(x, p));
        }
      }
    }
  }

  lemma ThreeCopied(x: seq<byte>, o: nat, p: nat)
    requires o < p && p + 3 <= |x| && Read3(x, o) == Read3(x, p)
    ensures x[o..o + 3] == x[p..p + 3]
  {
    EqualReadsEqualBytes(x, o, p);
    hide Read3;
    assert x[o..o + 3] == [x[o], x[o + 1], x[o + 2]] && x[p..p + 3] == [x[p], x[p + 1], x[p + 2]];
  }

  /** The dictionary after position p has been entered; the last three bytes of the input cannot be
      hashed. */
  ghost function Enter(x: seq<byte>, t: Table, p: nat): (t': Table)
    ensures TableBelow(t, p) ==> TableBelow(t', p + 1)
  {
    if p + 3 < |x| then t[HashAt(x, p) := p] else t
  }

  /** Entering a run of consecutive positions. */
  ghost function EnterAll(x: seq<byte>, t: Table, a: nat, b: nat): (t': Table)
    requires a <= b
    ensures TableBelow(t, a) ==> TableBelow(t', b)
    decreases b - a
  {
    if a == b then t else EnterAll(x, Enter(x, t, a), a + 1, b)
  }

  /** What the compressor emits at position p. */
  ghost function FirstItem(x: seq<byte>, p: nat, t: Table, lits: nat): (it: Item)
    requires p < |x| && TableBelow(t, p)
    ensures it.Valid() && p + it.Width() <= |x|
    ensures it.Lit? ==> it.b == x[p]
    ensures it.Match? ==> p + it.len + UNCOMPRESSED_END <= |x| && MayStartMatch(x, p)
  {
    if MayStartMatch(x, p) && TakesMatch(x, p, t, lits) then
      Match(HashAt(x, p), MatchLen(x, t[HashAt(x, p)], p))
    else
      Lit(x[p])
  }

  /** The greedy parse from position p, with dictionary t and `lits` literals since the last copy. */
  ghost function Parse(x: seq<byte>, p: nat, t: Table, lits: nat): (items: seq<Item>)
    requires p <= |x| && TableBelow(t, p)
    decreases |x| - p
  {
    if p == |x| then []
    else
      var it := FirstItem(x, p, t, lits);
      [it] + Parse(x, p + it.Width(), Enter(x, t, p), if it.Lit? then lits + 1 else 0)
  }

  ghost function Items(x: seq<byte>): seq<Item> {
    Parse(x, 0, map[], 0)
  }

  // ----- when compression is given up

  /** The ratio test made when a control word is full: past the half of the input, the output may
      not exceed 31/32 of what has been read. */
  ghost predicate PoorRatio(n: nat, p: nat, size: nat) {
    p > n / 2 && size > p - p / 32
  }

  /** Whether some ratio test fails from here on: p bytes are read, `size` bytes are written and k
      items of the control word are to come. */
  ghost predicate GivesUp(x: seq<byte>, p: nat, k: nat, size: nat, items: seq<Item>)
    decreases |items|, if k == 0 then 1 else 0
  {
    if items == [] || !MayStartMatch(x, p) then false
    else if k == 0 then PoorRatio(|x|, p, size) || GivesUp(x, p, ITEMS_PER_CWORD, size + CWORD_LEN, items)
    else GivesUp(x, p + items[0].Width(), k - 1, size + |items[0].Code()|, items[1..])
  }

  /** The compressor's core: the stream of the greedy parse, unless the ratio is too poor. */
  ghost function Core(x: seq<byte>): Option<seq<byte>> {
    if GivesUp(x, 0, 0, 0, Items(x)) then None else Some(Stream(0, Items(x)))
  }

  // ----- the parse

  lemma ParseUnfold(x: seq<byte>, p: nat, t: Table, lits: nat)
    requires p < |x| && TableBelow(t, p)
    ensures var items := Parse(x, p, t, lits);
            var it := FirstItem(x, p, t, lits);
            && items != [] && items[0] == it
            && items[1..] == Parse(x, p + it.Width(), Enter(x, t, p), if it.Lit? then lits + 1 else 0)
  {
  }

  /** Every parse covers its input and names only buckets that exist. */
  lemma {:induction false} ParseCovers(x: seq<byte>, p: nat, t: Table, lits: nat)
    requires p <= |x| && TableBelow(t, p)
    ensures AllValid(Parse(x, p, t, lits))
    ensures Cover(Parse(x, p, t, lits)) == |x| - p
    decreases |x| - p
  {
    if p < |x| {
      ParseUnfold(x, p, t, lits);
      var it := FirstItem(x, p, t, lits);
      ParseCovers(x, p + it.Width(), Enter(x, t, p), if it.Lit? then lits + 1 else 0);
    }
  }

  /** A parse has four items at least, of four bytes at least, or one for each byte of a shorter rest. */
  lemma {:induction false} ParseEndsInLiterals(x: seq<byte>, p: nat, t: Table, lits: nat)
    requires p <= |x| && TableBelow(t, p)
    ensures var least := if |x| - p < UNCOMPRESSED_END then |x| - p else UNCOMPRESSED_END;
            |Parse(x, p, t, lits)| >= least && |Body(Parse(x, p, t, lits))| >= least
    decreases |x| - p
  {
    hide FirstItem, Enter;
    if p < |x| {
      ParseUnfold(x, p, t, lits);
      var it := FirstItem(x, p, t, lits);
      ParseEndsInLiterals(x, p + it.Width(), Enter(x, t, p), if it.Lit? then lits + 1 else 0);
    }
  }

  /** Past the last position where a copy may start, everything is literal. */
  lemma {:induction false} TailIsLiteral(x: seq<byte>, p: nat, t: Table, lits: nat)
    requires p <= |x| && TableBelow(t, p) && !MayStartMatch(x, p)
    ensures AllLits(Parse(x, p, t, lits))
    ensures |Parse(x, p, t, lits)| == |x| - p
    ensures forall i :: 0 <= i < |x| - p ==> Parse(x, p, t, lits)[i] == Lit(x[p + i])
    decreases |x| - p
  {
    if p < |x| {
      ParseUnfold(x, p, t, lits);
      TailIsLiteral(x, p + 1, Enter(x, t, p), lits + 1);
    }
  }

  /** Reading past n literals enters their positions and nothing else. */
  lemma {:induction false} SkipLiterals(x: seq<byte>, p: nat, t: Table, lits: nat, n: nat)
    requires p + n <= |x| && TableBelow(t, p)
    requires n <= |Parse(x, p, t, lits)| && AllLits(Parse(x, p, t, lits)[..n])
    ensures Parse(x, p, t, lits)[n..] == Parse(x, p + n, EnterAll(x, t, p, p + n), lits + n)
    decreases n
  {
    hide FirstItem, Enter;
    if n > 0 {
      var items := Parse(x, p, t, lits);
      ParseUnfold(x, p, t, lits);
      assert items[..n][0] == items[0];
      assert items[1..][..n - 1] == items[..n][1..];
      SkipLiterals(x, p + 1, Enter(x, t, p), lits + 1, n - 1);
      assert items[n..] == items[1..][n - 1..];
    }
  }

  lemma {:induction false} SkippedBytes(x: seq<byte>, p: nat, t: Table, lits: nat, n: nat)
    requires p + n <= |x| && TableBelow(t, p)
    requires n <= |Parse(x, p, t, lits)| && AllLits(Parse(x, p, t, lits)[..n])
    ensures Body(Parse(x, p, t, lits)[..n]) == x[p..p + n]
    decreases n
  {
    hide FirstItem, Enter;
    if n > 0 {
      var items := Parse(x, p, t, lits);
      ParseUnfold(x, p, t, lits);
      assert items[..n][0] == items[0];
      assert items[1..][..n - 1] == items[..n][1..];
      SkippedBytes(x, p + 1, Enter(x, t, p), lits + 1, n - 1);
      assert x[p..p + n] == [x[p]] + x[p + 1..p + n];
    }
  }

  // ----- the dictionary

  lemma EnterNone(x: seq<byte>, t: Table, a: nat)
    ensures EnterAll(x, t, a, a) == t
  {
  }

  lemma {:induction false} EnterAllSplit(x: seq<byte>, t: Table, a: nat, b: nat, c: nat)
    requires a <= b <= c
    ensures EnterAll(x, EnterAll(x, t, a, b), b, c) == EnterAll(x, t, a, c)
    decreases b - a
  {
    if a < b {
      EnterAllSplit(x, Enter(x, t, a), a + 1, b, c);
    }
  }

  lemma EnterAllLast(x: seq<byte>, t: Table, a: nat, b: nat)
    requires a <= b
    ensures EnterAll(x, t, a, b + 1) == Enter(x, EnterAll(x, t, a, b), b)
  {
    EnterAllSplit(x, t, a, b, b + 1);
  }

  /** An entry after a run is either from the run or the one that was there before. */
  lemma {:induction false} EnterAllLookup(x: seq<byte>, t: Table, a: nat, b: nat, h: nat)
    requires a <= b && h in EnterAll(x, t, a, b)
    ensures var o := EnterAll(x, t, a, b)[h]; a <= o < b || (h in t && t[h] == o)
    decreases b - a
  {
    if a < b {
      EnterAllLookup(x, Enter(x, t, a), a + 1, b, h);
    }
  }

  /** Position q is entered in bucket h. */
  ghost predicate EnteredIn(x: seq<byte>, q: nat, h: nat) {
    q + 3 < |x| && HashAt(x, q) == h
  }

  /** After a run of positions has been entered, a bucket holds the last of them that hashes to it, or, if
      none does, what it held before. */
  lemma {:induction false} EnterAllIsLast(x: seq<byte>, t: Table, a: nat, b: nat, h: nat)
    requires a <= b
    ensures var t' := EnterAll(x, t, a, b);
            if exists q: nat :: a <= q < b && EnteredIn(x, q, h)
            then h in t' && a <= t'[h] < b && EnteredIn(x, t'[h], h) && forall q :: t'[h] < q < b ==> !EnteredIn(x, q, h)
            else (h in t' <==> h in t) && (h in t ==> t'[h] == t[h])
    decreases b - a
  {
    hide HashAt, EnterAll, Enter, EnteredIn, TableBelow;
    if a < b {
      EnterAllIsLast(x, t, a, b - 1, h);
      EnterAllLast(x, t, a, b - 1);
      EnterLookup(x, EnterAll(x, t, a, b - 1), b - 1, h);
    } else {
      EnterNone(x, t, a);
    }
  }

  lemma EnterLookup(x: seq<byte>, t: Table, p: nat, h: nat)
    ensures EnteredIn(x, p, h) ==> h in Enter(x, t, p) && Enter(x, t, p)[h] == p
    ensures !EnteredIn(x, p, h) ==> (h in Enter(x, t, p) <==> h in t) && (h in t ==> Enter(x, t, p)[h] == t[h])
  {
  }
}
