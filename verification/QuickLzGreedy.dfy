/** What the greedy parse takes and when it is given up, without dictionary and counters: by the items
    themselves and where they start. */
module QuickLzGreedy {
  import opened Basics
  import opened QuickLzFormat
  import opened QuickLzParse

  /** Where the i-th item starts in the input. */
  ghost function StartOf(items: seq<Item>, i: nat): nat
    requires i <= |items|
  {
    Cover(items[..i])
  }

  lemma NextStart(items: seq<Item>, i: nat)
    requires i < |items|
    ensures StartOf(items, 0) == 0 && StartOf(items, i + 1) == StartOf(items, i) + items[i].Width()
  {
    assert items[..0] == [];
    CoverAppend(items[..i], [items[i]]);
    assert items[..i + 1] == items[..i] + [items[i]] && [items[i]][1..] == [];
    assert Cover([items[i]]) == items[i].Width() + Cover([]);
  }

  /** The dictionary when the i-th item is looked for. */
  ghost function TableAt(x: seq<byte>, items: seq<Item>, i: nat): Table
    requires i <= |items|
  {
    if i == 0 then map[] else Enter(x, TableAt(x, items, i - 1), StartOf(items, i - 1))
  }

  ghost function LitsBefore(items: seq<Item>, i: nat): nat
    requires i <= |items|
  {
    if i == 0 || !items[i - 1].Lit? then 0 else LitsBefore(items, i - 1) + 1
  }

  lemma {:induction false} ParseAt(x: seq<byte>, i: nat)
    requires i <= |Items(x)|
    ensures var items := Items(x);
            var p, t := StartOf(items, i), TableAt(x, items, i);
            p <= |x| && TableBelow(t, p) && items[i..] == Parse(x, p, t, LitsBefore(items, i))
  {
    hide FirstItem, Enter, TableBelow, Parse;
    var items := Items(x);
    if i == 0 {
      EmptyBelow();
      assert items[..0] == [] && items[0..] == items;
    } else {
      ParseAt(x, i - 1);
      var p, t, lits := StartOf(items, i - 1), TableAt(x, items, i - 1), LitsBefore(items, i - 1);
      ParseAtEnd(x, p, t, lits);
      ParseUnfold(x, p, t, lits);
      NextStart(items, i - 1);
      assert items[i - 1..][0] == items[i - 1] && items[i - 1..][1..] == items[i..];
      EnterBelow(x, t, p, items[i - 1].Width());
    }
  }

  lemma EmptyBelow()
    ensures TableBelow(map[], 0)
  {
  }

  lemma ParseAtEnd(x: seq<byte>, p: nat, t: Table, lits: nat)
    requires p <= |x| && TableBelow(t, p)
    ensures Parse(x, p, t, lits) == [] <==> p == |x|
  {
  }

  lemma EnterBelow(x: seq<byte>, t: Table, p: nat, w: nat)
    requires TableBelow(t, p) && w >= 1
    ensures TableBelow(Enter(x, t, p), p + w)
  {
  }

  /** The j-th item is the last before the i-th that starts at a position of hash h. */
  ghost predicate LastAlike(x: seq<byte>, items: seq<Item>, i: nat, h: nat, j: nat)
    requires i <= |items|
  {
    j < i && EnteredIn(x, StartOf(items, j), h) && forall m :: j < m < i ==> !EnteredIn(x, StartOf(items, m), h)
  }

  lemma AlikeBefore(x: seq<byte>, items: seq<Item>, i: nat, h: nat, j: nat)
    requires 0 < i <= |items| && !EnteredIn(x, StartOf(items, i - 1), h)
    ensures LastAlike(x, items, i, h, j) <==> LastAlike(x, items, i - 1, h, j)
  {
    hide EnteredIn, StartOf;
    if LastAlike(x, items, i - 1, h, j) {
      forall m | j < m < i
        ensures !EnteredIn(x, StartOf(items, m), h)
      {
      }
    }
  }

  lemma {:induction false} TableIsLast(x: seq<byte>, items: seq<Item>, i: nat, h: nat)
    requires i <= |items|
    ensures var t := TableAt(x, items, i);
            && (h in t <==> exists j :: LastAlike(x, items, i, h, j))
            && (h in t ==> forall j :: LastAlike(x, items, i, h, j) ==> t[h] == StartOf(items, j))
  {
    hide Enter, EnteredIn, StartOf;
    if i > 0 {
      TableIsLast(x, items, i - 1, h);
      EnterLookup(x, TableAt(x, items, i - 1), StartOf(items, i - 1), h);
      if EnteredIn(x, StartOf(items, i - 1), h) {
        assert LastAlike(x, items, i, h, i - 1);
      } else {
        forall j
          ensures LastAlike(x, items, i, h, j) <==> LastAlike(x, items, i - 1, h, j)
        {
          AlikeBefore(x, items, i, h, j);
        }
        var before := i - 1;
        if j :| LastAlike(x, items, before, h, j) {
          assert LastAlike(x, items, i, h, j);
        }
      }
    }
  }

  lemma LitsAndOne(items: seq<Item>, it: Item)
    ensures AllLits(items + [it]) <==> AllLits(items) && it.Lit?
  {
    assert (items + [it])[|items|] == it;
    assert forall i :: 0 <= i < |items| ==> (items + [it])[i] == items[i];
  }

  lemma {:induction false} LitsAre(items: seq<Item>, i: nat, n: nat)
    requires i <= |items|
    ensures LitsBefore(items, i) >= n <==> i >= n && AllLits(items[i - n..i])
    decreases n
  {
    if n > 0 && i > 0 {
      LitsAre(items, i - 1, n - 1);
      if i >= n {
        assert items[i - n..i] == items[i - 1 - (n - 1)..i - 1] + [items[i - 1]];
        LitsAndOne(items[i - n..i - 1], items[i - 1]);
      }
    }
  }

  /** The j-th item starts where the i-th may be copied from: it is the last one alike, the next three bytes
      agree, and it does not start too near, unless in a run of one byte. */
  ghost predicate Source(x: seq<byte>, items: seq<Item>, i: nat, j: nat)
    requires i < |items| && MayStartMatch(x, StartOf(items, i))
  {
    var p := StartOf(items, i);
    && LastAlike(x, items, i, HashAt(x, p), j)
    && var o := StartOf(items, j);
       && o < p && x[o..o + 3] == x[p..p + 3]
       && (p - o > 2 || (p == o + 1 && p > 3 && i >= 3 && AllLits(items[i - 3..i]) && Same(x, p - 3, 6)))
  }

  lemma ThreeBytes(x: seq<byte>, o: nat, p: nat)
    requires o + 3 <= |x| && p + 3 <= |x|
    ensures Read3(x, o) == Read3(x, p) <==> x[o..o + 3] == x[p..p + 3]
  {
    EqualReadsEqualBytes(x, o, p);
    assert x[o..o + 3] == [x[o], x[o + 1], x[o + 2]] && x[p..p + 3] == [x[p], x[p + 1], x[p + 2]];
  }

  lemma SourceTaken(x: seq<byte>, i: nat, j: nat)
    requires i < |Items(x)| && StartOf(Items(x), i) <= |x| && MayStartMatch(x, StartOf(Items(x), i))
    requires TableBelow(TableAt(x, Items(x), i), StartOf(Items(x), i))
    requires LastAlike(x, Items(x), i, HashAt(x, StartOf(Items(x), i)), j)
    ensures var items := Items(x);
            TakesMatch(x, StartOf(items, i), TableAt(x, items, i), LitsBefore(items, i)) <==> Source(x, items, i, j)
  {
    hide Items, TableAt, HashAt, Read3, LastAlike, Same, StartOf;
    var items := Items(x);
    var p, t := StartOf(items, i), TableAt(x, items, i);
    TableIsLast(x, items, i, HashAt(x, p));
    AlikeStarts(x, items, i, HashAt(x, p), j);
    ThreeBytes(x, StartOf(items, j), p);
    LitsAre(items, i, 3);
  }

  lemma AlikeStarts(x: seq<byte>, items: seq<Item>, i: nat, h: nat, j: nat)
    requires i <= |items| && LastAlike(x, items, i, h, j)
    ensures j < i && StartOf(items, j) + 3 < |x|
  {
  }

  /** The copy goes on as far as the bytes agree and the cap allows. */
  lemma {:induction false} ExtendsFully(x: seq<byte>, o: nat, p: nat, k: nat, limit: nat)
    requires o < p && p + limit < |x| && k <= limit
    ensures var len := Extend(x, o, p, k, limit); len == limit || x[o + len] != x[p + len]
    decreases limit - k
  {
    if k < limit && x[o + k] == x[p + k] {
      ExtendsFully(x, o, p, k + 1, limit);
    }
  }

  lemma MatchLenFull(x: seq<byte>, o: nat, p: nat)
    requires MayStartMatch(x, p) && o < p
    ensures var len := MatchLen(x, o, p); len == Limit(x, p) || x[o + len] != x[p + len]
  {
    if x[o + 3] == x[p + 3] && x[o + 4] == x[p + 4] && x[o + 5] == x[p + 5] {
      ExtendsFully(x, o, p, 6, Limit(x, p));
    }
  }

  /** The parse is greedy. Where more than ten bytes are left, an item is a copy just when there is something to
      copy from, and it is then as long as the bytes agree, up to 255 and to four short of the end; otherwise it
      is the next byte. */
  lemma GreedyIff(x: seq<byte>, i: nat)
    requires i < |Items(x)|
    ensures var items := Items(x);
            var p := StartOf(items, i);
            && p < |x|
            && (items[i].Lit? ==> items[i].b == x[p])
            && (items[i].Match? <==> p + 10 < |x| && exists j :: Source(x, items, i, j))
            && (items[i].Match? ==> exists j :: Source(x, items, i, j) && CopiesFully(x, StartOf(items, j), p, items[i].len))
  {
    hide Items, StartOf, HashAt, TakesMatch, Source, TableAt, LitsBefore, TableBelow, CopiesFully;
    var items := Items(x);
    var p, t, lits := StartOf(items, i), TableAt(x, items, i), LitsBefore(items, i);
    ParseAt(x, i);
    ParseAtEnd(x, p, t, lits);
    ParseUnfold(x, p, t, lits);
    assert items[i..][0] == items[i];
    if MayStartMatch(x, p) {
      TableIsLast(x, items, i, HashAt(x, p));
      if HashAt(x, p) in t {
        var j :| LastAlike(x, items, i, HashAt(x, p), j);
        SourceTaken(x, i, j);
        SourceIsLast(x, items, i, j);
        if TakesMatch(x, p, t, lits) {
          SourceCopied(x, i, j);
        }
      } else {
        NoneAlike(x, i);
      }
    }
  }

  /** A copy of that length is true, and cannot be made longer. */
  ghost predicate CopiesFully(x: seq<byte>, o: nat, p: nat, len: nat)
    requires MayStartMatch(x, p) && o < p
  {
    && 3 <= len <= 255 && p + len + 4 <= |x| && x[o..o + len] == x[p..p + len]
    && (len == 255 || p + len + 4 == |x| || x[o + len] != x[p + len])
  }

  lemma SourceIsLast(x: seq<byte>, items: seq<Item>, i: nat, j: nat)
    requires i < |items| && MayStartMatch(x, StartOf(items, i)) && LastAlike(x, items, i, HashAt(x, StartOf(items, i)), j)
    ensures forall m :: Source(x, items, i, m) ==> m == j
  {
    hide HashAt, StartOf, Same;
  }

  lemma NoneAlike(x: seq<byte>, i: nat)
    requires i < |Items(x)| && MayStartMatch(x, StartOf(Items(x), i))
    requires HashAt(x, StartOf(Items(x), i)) !in TableAt(x, Items(x), i)
    requires TableBelow(TableAt(x, Items(x), i), StartOf(Items(x), i))
    ensures !TakesMatch(x, StartOf(Items(x), i), TableAt(x, Items(x), i), LitsBefore(Items(x), i))
    ensures forall j :: !Source(x, Items(x), i, j)
  {
    hide Items, TableAt, HashAt, LastAlike, Same, StartOf;
    TableIsLast(x, Items(x), i, HashAt(x, StartOf(Items(x), i)));
  }

  lemma SourceCopied(x: seq<byte>, i: nat, j: nat)
    requires i < |Items(x)| && MayStartMatch(x, StartOf(Items(x), i))
    requires TableBelow(TableAt(x, Items(x), i), StartOf(Items(x), i))
    requires Source(x, Items(x), i, j)
    ensures var p, o, h := StartOf(Items(x), i), StartOf(Items(x), j), HashAt(x, StartOf(Items(x), i));
            && h in TableAt(x, Items(x), i) && TableAt(x, Items(x), i)[h] == o < p
            && CopiesFully(x, o, p, MatchLen(x, o, p))
  {
    hide Items, TableAt, HashAt, Same, StartOf, MatchLen, Read3;
    var p, o := StartOf(Items(x), i), StartOf(Items(x), j);
    TableIsLast(x, Items(x), i, HashAt(x, p));
    AlikeStarts(x, Items(x), i, HashAt(x, p), j);
    ThreeBytes(x, o, p);
    MatchLenCopies(x, o, p);
    MatchLenFull(x, o, p);
  }

  // ----- giving up

  /** A ratio test is made before each further group of 31 items, and fails. */
  ghost predicate FailsAt(x: seq<byte>, items: seq<Item>, m: nat) {
    && m < |items| && m % ITEMS_PER_CWORD == 0
    && MayStartMatch(x, StartOf(items, m))
    && var read, written := StartOf(items, m), |Stream(0, items[..m])|;
       read > |x| / 2 && written > read - read / 32
  }

  /** A test fails from the m-th item on, with k items of the control word to come. */
  ghost predicate FailsFrom(x: seq<byte>, items: seq<Item>, m: nat, k: nat) {
    exists m' :: m <= m' && (m' == m ==> k == 0) && FailsAt(x, items, m')
  }

  lemma NoMoreTests(x: seq<byte>, items: seq<Item>, m: nat, k: nat)
    requires m <= |items| && (m < |items| ==> !MayStartMatch(x, StartOf(items, m)))
    ensures !FailsFrom(x, items, m, k)
  {
    forall m' | m <= m' < |items|
      ensures !FailsAt(x, items, m')
    {
      StartsGrow(items, m, m');
    }
  }

  lemma TestNow(x: seq<byte>, items: seq<Item>, m: nat)
    requires m < |items| && m % ITEMS_PER_CWORD == 0 && MayStartMatch(x, StartOf(items, m))
    ensures FailsFrom(x, items, m, 0) <==>
              PoorRatio(|x|, StartOf(items, m), SizeAt(items, m, 0)) || FailsFrom(x, items, m, ITEMS_PER_CWORD)
  {
    hide StartOf;
    if PoorRatio(|x|, StartOf(items, m), |Stream(0, items[..m])|) {
      assert FailsAt(x, items, m);
    }
  }

  lemma TestLater(x: seq<byte>, items: seq<Item>, m: nat, k: nat)
    requires m < |items| && 0 < k <= ITEMS_PER_CWORD && (m + k) % ITEMS_PER_CWORD == 0
    ensures FailsFrom(x, items, m, k) <==> FailsFrom(x, items, m + 1, k - 1)
  {
    hide StartOf;
    if k > 1 {
      assert (m + 1) % ITEMS_PER_CWORD != 0;
    }
  }

  lemma {:induction false} GivesUpFrom(x: seq<byte>, items: seq<Item>, m: nat, k: nat)
    requires m <= |items| && k <= ITEMS_PER_CWORD && (m + k) % ITEMS_PER_CWORD == 0 && AllValid(items)
    ensures GivesUp(x, StartOf(items, m), k, SizeAt(items, m, k), items[m..]) <==> FailsFrom(x, items, m, k)
    decreases |items| - m, if k == 0 then 1 else 0
  {
    hide StartOf, PoorRatio, SizeAt, FailsFrom, FailsAt;
    if m == |items| || !MayStartMatch(x, StartOf(items, m)) {
      NoMoreTests(x, items, m, k);
    } else if k == 0 {
      GivesUpFrom(x, items, m, ITEMS_PER_CWORD);
      SizeOpens(items, m);
      OpensGroup(x, items, m);
      TestNow(x, items, m);
      hide GivesUp;
    } else {
      GivesUpFrom(x, items, m + 1, k - 1);
      NextStart(items, m);
      SizeGrows(items, m, k);
      TestLater(x, items, m, k);
      assert items[m..][0] == items[m] && items[m..][1..] == items[m + 1..];
    }
  }

  /** The bytes written when the m-th item is next and k items of the control word are to come; a control word
      whose items are all written is not yet followed by the next. */
  ghost function SizeAt(items: seq<Item>, m: nat, k: nat): nat
    requires m <= |items|
  {
    if k == ITEMS_PER_CWORD then |Stream(0, items[..m])| + CWORD_LEN else |Stream(0, items[..m])|
  }

  lemma SizeOpens(items: seq<Item>, m: nat)
    requires m < |items|
    ensures SizeAt(items, m, ITEMS_PER_CWORD) == SizeAt(items, m, 0) + CWORD_LEN
    ensures SizeAt(items, m, 0) == |Stream(0, items[..m])|
  {
  }

  lemma OpensGroup(x: seq<byte>, items: seq<Item>, m: nat)
    requires m < |items| && MayStartMatch(x, StartOf(items, m))
    ensures var p, z := StartOf(items, m), SizeAt(items, m, 0);
            GivesUp(x, p, 0, z, items[m..]) <==>
              PoorRatio(|x|, p, z) || GivesUp(x, p, ITEMS_PER_CWORD, z + CWORD_LEN, items[m..])
  {
  }

  /** One more item of the group lengthens the stream by its code. */
  lemma SizeGrows(items: seq<Item>, m: nat, k: nat)
    requires m < |items| && 0 < k <= ITEMS_PER_CWORD && (m + k) % ITEMS_PER_CWORD == 0
    ensures SizeAt(items, m + 1, k - 1) == SizeAt(items, m, k) + |items[m].Code()|
  {
    var start := m + k - ITEMS_PER_CWORD;
    var g, r := items[..start], items[start..m];
    assert items[..m] == g + r && items[..m + 1] == g + (r + [items[m]]);
    StreamCloseGroup(g, r + [items[m]]);
    BodySnoc(r, items[m]);
    if r != [] {
      StreamCloseGroup(g, r);
    } else {
      assert g + r == g;
    }
  }

  lemma {:induction false} StartsGrow(items: seq<Item>, m: nat, m': nat)
    requires m <= m' <= |items|
    ensures StartOf(items, m) <= StartOf(items, m')
    decreases m'
  {
    if m < m' {
      StartsGrow(items, m, m' - 1);
      NextStart(items, m' - 1);
    }
  }

  /** Compression is given up just when some ratio test fails: at a full control word, past the half of the
      input, with a match still possible, the stream so far is longer than 31/32 of what it stands for. */
  lemma GivenUpIff(x: seq<byte>)
    ensures Core(x).None? <==> exists m :: FailsAt(x, Items(x), m)
  {
    var items := Items(x);
    ParseCovers(x, 0, map[], 0);
    hide Items, FailsAt;
    GivesUpFrom(x, items, 0, 0);
    NothingYet(items);
    assert FailsFrom(x, items, 0, 0) <==> exists m :: FailsAt(x, items, m);
  }

  lemma NothingYet(items: seq<Item>)
    ensures StartOf(items, 0) == 0 && SizeAt(items, 0, 0) == 0 && items[0..] == items
  {
    assert items[..0] == [];
  }
}
