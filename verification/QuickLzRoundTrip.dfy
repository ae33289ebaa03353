/** The decompressor undoes the compressor. The stream names hash buckets, not distances, so the proof
    follows the two dictionaries: the decompressor's lags behind by up to two literals, and where it
    does, the copy still comes out the same. */
module QuickLzRoundTrip {
  import opened Basics
  import opened QuickLzFormat
  import opened QuickLzParse
  import opened QuickLzDecoder

  /** The decompressor's table holds at least what dictionary t holds; other buckets may be stale. */
  ghost predicate Agrees(table: seq<int>, t: Table) {
    && |table| == HASH_VALUES
    && forall h :: h in t ==> h < HASH_VALUES && table[h] == t[h]
  }

  ghost predicate StreamAt(buf: seq<byte>, src: nat, k: nat, items: seq<Item>) {
    var s := Stream(k, items);
    src + |s| <= |buf| && buf[src..src + |s|] == s
  }

  ghost function Min(a: nat, b: nat): nat {
    if a < b then a else b
  }

  /** The items the compressor emits from the decompressor's position on, when t is its dictionary
      without the literals the decompressor has not entered yet. */
  ghost function Ahead(x: seq<byte>, s: State, t: Table, lits: nat): seq<Item>
    requires s.Valid() && s.pos <= |x| && TableBelow(t, s.hashed + 1)
  {
    Parse(x, s.pos, EnterAll(x, t, s.hashed + 1, s.pos), lits)
  }

  /** Dictionary agreement: what is entered is equal, and what is missing are the last literals, two
      of them at most. */
  ghost predicate InStep(x: seq<byte>, s: State, t: Table, lits: nat) {
    && s.Valid() && |s.dst| == |x|
    && s.dst[..s.pos] == x[..s.pos]
    && TableBelow(t, s.hashed + 1) && Agrees(s.table, t)
    && lits <= s.pos
    && s.hashed == s.pos - 1 - Min(lits, 2)
    && (s.pos == 0 || s.pos + UNCOMPRESSED_END <= |x|)
    && (lits >= 3 ==> HashAt(x, s.hashed) in t && t[HashAt(x, s.hashed)] == s.hashed)
  }

  /** The simulation relation: the decompressor stands before item 0 of the items ahead, k of which
      are still described by its control word. */
  ghost predicate Sim(x: seq<byte>, buf: seq<byte>, s: State, k: nat, t: Table, lits: nat) {
    && InStep(x, s, t, lits)
    && s.pos < |x|
    && k <= ITEMS_PER_CWORD && s.cword == ControlWord(k, Ahead(x, s, t, lits))
    && StreamAt(buf, s.src, k, Ahead(x, s, t, lits))
    && s.src + 4 + (if k == 0 then CWORD_LEN else 0) <= |buf|
  }

  // ----- bytes of the stream

  /** The two parts of a slice that is known to be a concatenation. */
  lemma SliceSplit(buf: seq<byte>, src: nat, a: seq<byte>, b: seq<byte>)
    requires src + |a + b| <= |buf| && buf[src..src + |a + b|] == a + b
    ensures src + |a| <= |buf| && buf[src..src + |a|] == a
    ensures src + |a| + |b| <= |buf| && buf[src + |a|..src + |a| + |b|] == b
  {
    assert buf[src..src + |a|] == buf[src..src + |a + b|][..|a|];
    assert buf[src + |a|..src + |a| + |b|] == buf[src..src + |a + b|][|a|..];
  }

  lemma ShortToken(v: nat, rest: nat, h: nat, n: nat)
    requires v == n + 16 * h && n < 16 && h < HASH_VALUES
    ensures (v + 0x1_0000 * rest) % 16 == n && (v + 0x1_0000 * rest) / 16 % HASH_VALUES == h
    ensures v % 0x100 + 0x100 * (v / 0x100 % 0x100) == v
  {
    assert (v + 0x1_0000 * rest) / 16 == h + 0x1000 * rest;
  }

  lemma TokenOfCode(buf: seq<byte>, src: nat, h: nat, len: nat)
    requires h < HASH_VALUES && 3 <= len <= 255 && src + 4 <= |buf|
    requires var c := Match(h, len).Code(); buf[src..src + |c|] == c
    ensures Token(buf, src) == (h, len, |Match(h, len).Code()|)
  {
    var c := Match(h, len).Code();
    assert buf[src] == buf[src..src + |c|][0] == c[0] && buf[src + 1] == buf[src..src + |c|][1] == c[1];
    var rest := buf[src + 2] as nat + 0x100 * buf[src + 3] as nat;
    if len < 18 {
      ShortToken(len - 2 + 16 * h, rest, h, len - 2);
      assert Read4(buf, src) == len - 2 + 16 * h + 0x1_0000 * rest;
    } else {
      assert buf[src + 2] == buf[src..src + |c|][2] == c[2];
      LongToken(h, len);
      ShortToken(16 * h, rest, h, 0);
      assert Read4(buf, src) == 16 * h + 0x1_0000 * rest;
    }
  }

  lemma AddMultiple(q: nat, r: nat)
    ensures (0x100 * q + r) / 0x100 == q + r / 0x100 && (0x100 * q + r) % 0x100 == r % 0x100
  {
  }

  lemma LongToken(h: nat, len: nat)
    requires h < HASH_VALUES && len <= 255
    ensures var v := 0x1_0000 * len + 16 * h;
            v % 0x100 == 16 * h % 0x100 && v / 0x100 % 0x100 == 16 * h / 0x100 % 0x100 && v / 0x1_0000 % 0x100 == len
  {
    var v, low := 0x1_0000 * len + 16 * h, 16 * h;
    AddMultiple(0x100 * len, low);
    AddMultiple(len, low / 0x100);
    assert v / 0x1_0000 == v / 0x100 / 0x100;
  }

  lemma StreamHead(buf: seq<byte>, src: nat, k: nat, items: seq<Item>)
    requires StreamAt(buf, src, k, items) && items != [] && k > 0
    ensures var c := items[0].Code(); src + |c| <= |buf| && buf[src..src + |c|] == c
    ensures StreamAt(buf, src + |items[0].Code()|, k - 1, items[1..])
  {
    SliceSplit(buf, src, items[0].Code(), Stream(k - 1, items[1..]));
  }

  lemma StreamOpen(items: seq<Item>)
    requires items != []
    ensures Stream(0, items) == Bytes4(ControlWord(ITEMS_PER_CWORD, items)) + Stream(ITEMS_PER_CWORD, items)
  {
  }

  lemma StreamRefill(buf: seq<byte>, src: nat, items: seq<Item>)
    requires StreamAt(buf, src, 0, items) && items != []
    ensures src + CWORD_LEN <= |buf| && Read4(buf, src) == ControlWord(ITEMS_PER_CWORD, items)
    ensures StreamAt(buf, src + CWORD_LEN, ITEMS_PER_CWORD, items)
  {
    StreamOpen(items);
    hide Stream, ControlWord;
    SliceSplit(buf, src, Bytes4(ControlWord(ITEMS_PER_CWORD, items)), Stream(ITEMS_PER_CWORD, items));
    ControlWordFits(items);
    Read4OfBytes4(ControlWord(ITEMS_PER_CWORD, items), buf, src);
  }

  /** n literals at the head of the stream, all under the current control word. */
  lemma {:induction false} StreamLiterals(buf: seq<byte>, src: nat, k: nat, items: seq<Item>, n: nat)
    requires StreamAt(buf, src, k, items) && n <= |items| && n <= k
    requires AllLits(items[..n])
    ensures src + n <= |buf| && buf[src..src + n] == Body(items[..n])
    ensures StreamAt(buf, src + n, k - n, items[n..])
    decreases n
  {
    hide Stream;
    if n == 0 {
      assert items[0..] == items;
    } else {
      assert items[..n][0] == items[0];
      StreamHead(buf, src, k, items);
      assert items[1..][..n - 1] == items[..n][1..];
      StreamLiterals(buf, src + 1, k - 1, items[1..], n - 1);
      assert items[1..][n - 1..] == items[n..];
      assert buf[src..src + n] == buf[src..src + 1] + buf[src + 1..src + n];
    }
  }

  lemma {:induction false} StreamLength(k: nat, items: seq<Item>)
    ensures |Stream(k, items)| >= |Body(items)| + (if k == 0 && items != [] then CWORD_LEN else 0)
    decreases |items|, if k == 0 then 1 else 0
  {
    if items != [] {
      if k == 0 {
        StreamLength(ITEMS_PER_CWORD, items);
      } else {
        StreamLength(k - 1, items[1..]);
      }
    }
  }

  // ----- control words

  lemma ControlWordHead(k: nat, items: seq<Item>)
    requires k > 0 && items != []
    ensures ControlWord(k, items) % 2 == (if items[0].Match? then 1 else 0)
    ensures ControlWord(k, items) / 2 == ControlWord(k - 1, items[1..])
  {
  }

  lemma ShiftNone(w: nat)
    ensures Shift(w, 0) == w
  {
  }

  lemma ShiftOnce(k: nat, items: seq<Item>, n: nat)
    requires 0 < k && items != [] && items[0].Lit? && n > 0
    ensures Shift(ControlWord(k, items), n) == Shift(ControlWord(k - 1, items[1..]), n - 1)
  {
    hide ControlWord;
    ControlWordHead(k, items);
  }

  /** Passing over n literals shifts the control word by n. */
  lemma {:induction false} ShiftLiterals(k: nat, items: seq<Item>, n: nat)
    requires n <= k && n <= |items| && AllLits(items[..n])
    ensures Shift(ControlWord(k, items), n) == ControlWord(k - n, items[n..])
    decreases n
  {
    hide ControlWord, Shift;
    if n == 0 {
      assert items[0..] == items;
      ShiftNone(ControlWord(k, items));
    } else {
      assert items[..n][0] == items[0];
      ShiftOnce(k, items, n);
      var rest := items[1..];
      assert rest[..n - 1] == items[..n][1..];
      ShiftLiterals(k - 1, rest, n - 1);
      assert rest[n - 1..] == items[n..];
    }
  }

  /** How many literals lead, four at most and no more than the control word describes. */
  ghost function Leading(k: nat, items: seq<Item>, most: nat): (n: nat)
    ensures n <= k && n <= most && n <= |items| && AllLits(items[..n])
    ensures n < k && n < most && n < |items| ==> items[n].Match?
    decreases most
  {
    if k == 0 || most == 0 || items == [] || items[0].Match? then 0
    else
      var n := Leading(k - 1, items[1..], most - 1);
      assert items[..n + 1] == [items[0]] + items[1..][..n];
      n + 1
  }

  lemma LowBits(w: nat)
    ensures var r := w % 16;
            w % 2 == r % 2 && w / 2 % 2 == r / 2 % 2 && w / 4 % 2 == r / 4 % 2 && w / 8 % 2 == r / 8
  {
    var q, r := w / 16, w % 16;
    HalfOf(8 * q, w, r);
    HalfOf(4 * q, w / 2, r / 2);
    HalfOf(2 * q, w / 4, r / 4);
    HalfOf(q, w / 8, r / 8);
  }

  lemma HalfOf(q: nat, w: nat, r: nat)
    requires w == 2 * q + r
    ensures w / 2 == q + r / 2 && w % 2 == r % 2
  {
  }

  lemma BitLutCounts(w: nat, n: nat)
    requires 1 <= n <= 4
    requires w % 2 == 0
    requires n > 1 <==> w / 2 % 2 == 0
    requires n > 2 ==> w / 4 % 2 == 0
    requires n == 2 ==> w / 4 % 2 == 1
    requires n == 3 ==> w / 8 % 2 == 1
    requires n > 3 ==> w / 8 % 2 == 0
    ensures BITLUT[w % 16] == n
  {
    LowBits(w);
    BitLutOfNibble(w % 16);
  }

  lemma BitLutOfNibble(r: nat)
    requires r < 16
    ensures BITLUT[r] == if r % 2 == 1 then 0 else if r / 2 % 2 == 1 then 1 else if r / 4 % 2 == 1 then 2
                         else if r / 8 == 1 then 3 else 4
  {
  }

  /** Bit i of the control word tells whether item i is a match; the sentinel is the bit at k. */
  lemma {:induction false} ControlWordBit(k: nat, items: seq<Item>, i: nat)
    requires i <= k && i <= |items| && AllLits(items[..i])
    requires i == k || i < |items|
    ensures Shift(ControlWord(k, items), i) % 2 == (if i == k || items[i].Match? then 1 else 0)
  {
    hide ControlWord;
    ShiftLiterals(k, items, i);
    if i < k {
      ControlWordHead(k - i, items[i..]);
    } else {
      ControlWordSentinel(items[i..]);
    }
  }

  lemma ControlWordSentinel(items: seq<Item>)
    ensures ControlWord(0, items) == 1
  {
  }

  lemma ShiftUnfolded(w: nat)
    ensures Shift(w, 0) == w && Shift(w, 1) == w / 2 && Shift(w, 2) == w / 4 && Shift(w, 3) == w / 8
  {
    assert Shift(w, 1) == Shift(w / 2, 0);
    assert Shift(w, 2) == Shift(w / 2, 1) == Shift(w / 2 / 2, 0);
    assert Shift(w, 3) == Shift(w / 2, 2) == Shift(w / 2 / 2, 1) == Shift(w / 2 / 2 / 2, 0);
  }

  /** The bitlut entry is the number of literals that follow, four at most. */
  lemma LeadingLiterals(k: nat, items: seq<Item>)
    requires k > 0 && |items| >= 4 && items[0].Lit?
    ensures var n := BITLUT[ControlWord(k, items) % 16];
            && 1 <= n <= 4 && n <= k && AllLits(items[..n])
            && Shift(ControlWord(k, items), n) == ControlWord(k - n, items[n..])
  {
    hide ControlWord, Shift;
    var n := Leading(k, items, 4);
    var w := ControlWord(k, items);
    ShiftUnfolded(w);
    ShiftLiterals(k, items, n);
    forall i | 0 <= i <= n && (i < n || n < 4)
      ensures Shift(w, i) % 2 == if i == n then 1 else 0
    {
      assert AllLits(items[..i]) by {
        assert items[..i] == items[..n][..i];
      }
      ControlWordBit(k, items, i);
      assert i < n ==> items[i] == items[..n][i];
    }
    BitLutCounts(w, n);
  }

  // ----- the dictionary

  lemma HashDependsOnBytes(x: seq<byte>, y: seq<byte>, p: nat)
    requires p + 3 <= |x| && p + 3 <= |y| && x[..p + 3] == y[..p + 3]
    ensures HashAt(x, p) == HashAt(y, p)
  {
    assert forall i :: 0 <= i < p + 3 ==> x[..p + 3][i] == x[i] && y[..p + 3][i] == y[i];
  }

  /** Catching up: the table is brought to the dictionary of the positions up to max. */
  lemma {:induction false} HashUpToAgrees(x: seq<byte>, dst: seq<byte>, table: seq<int>, t: Table, hashed: int, max: int)
    requires -1 <= hashed <= max && max + 3 < |x| && |dst| == |x|
    requires dst[..max + 3] == x[..max + 3]
    requires Agrees(table, t)
    ensures Agrees(HashUpTo(dst, table, hashed, max), EnterAll(x, t, hashed + 1, max + 1))
    decreases max - hashed
  {
    if hashed < max {
      var p := hashed + 1;
      assert dst[..p + 3] == dst[..max + 3][..p + 3] && x[..p + 3] == x[..max + 3][..p + 3];
      HashDependsOnBytes(dst, x, p);
      HashUpToAgrees(x, dst, table[HashAt(dst, p) := p], Enter(x, t, p), p, max);
    }
  }

  lemma {:induction false} CopyUpRepeats(x: seq<byte>, dst: seq<byte>, from: nat, to: nat, n: nat)
    requires |dst| == |x| && from < to && to + n <= |x|
    requires dst[..to] == x[..to] && x[from..from + n] == x[to..to + n]
    ensures CopyUp(dst, from, to, n)[..to + n] == x[..to + n]
    decreases n
  {
    if n > 0 {
      assert x[from] == x[from..from + n][0] && x[to] == x[to..to + n][0];
      assert dst[from] == dst[..to][from] && x[from] == x[..to][from];
      var dst' := dst[to := dst[from]];
      assert dst'[..to + 1] == dst[..to] + [x[to]] && x[..to + 1] == x[..to] + [x[to]];
      assert x[from + 1..from + n] == x[from..from + n][1..] && x[to + 1..to + n] == x[to..to + n][1..];
      CopyUpRepeats(x, dst', from + 1, to + 1, n - 1);
    }
  }

  /** A run of one byte repeats itself at every distance. */
  lemma {:induction false} RunRepeats(x: seq<byte>, p: nat, len: nat)
    requires 3 <= p && p + 3 < |x| && p + len <= |x|
    requires Same(x, p - 3, 6) && x[p - 1..p - 1 + len] == x[p..p + len]
    ensures x[p - 3..p - 3 + len] == x[p..p + len]
    ensures forall i :: p - 3 <= i < p + len ==> x[i] == x[p]
    decreases len
  {
    if len > 0 {
      assert x[p - 1..p - 1 + (len - 1)] == x[p - 1..p - 1 + len][..len - 1];
      assert x[p..p + (len - 1)] == x[p..p + len][..len - 1];
      RunRepeats(x, p, len - 1);
      assert x[p + len - 1] == x[p..p + len][len - 1] == x[p - 1..p - 1 + len][len - 1] == x[p + len - 2];
    }
  }

  /** Dictionary agreement at a copy. The decompressor finds the compressor's source when that lies
      three bytes back or more; when it is the byte just before, the decompressor finds the one three
      bytes back, inside a run of equal bytes. Either way the bucket was filled in this run. */
  lemma SourceAgrees(x: seq<byte>, s: State, t: Table, lits: nat)
    requires InStep(x, s, t, lits) && MayStartMatch(x, s.pos)
    requires TakesMatch(x, s.pos, EnterAll(x, t, s.hashed + 1, s.pos), lits)
    ensures var h := HashAt(x, s.pos);
            var o := EnterAll(x, t, s.hashed + 1, s.pos)[h];
            && h in t && s.table[h] == t[h]
            && (s.pos - o >= 3 ==> t[h] == o)
            && (s.pos - o < 3 ==> o == s.pos - 1 && t[h] == s.pos - 3)
            && x[t[h]..t[h] + MatchLen(x, o, s.pos)] == x[s.pos..s.pos + MatchLen(x, o, s.pos)]
  {
    hide HashFunc, MatchLen;
    var p := s.pos;
    var h, all := HashAt(x, p), EnterAll(x, t, s.hashed + 1, p);
    var o := all[h];
    MatchLenCopies(x, o, p);
    EnterAllLookup(x, t, s.hashed + 1, p, h);
    if p - o < 3 {
      EqualReadsEqualBytes(x, p - 3, p);
      assert x[p] == x[p - 3] && x[p + 1] == x[p - 3] && x[p + 2] == x[p - 3];
      RunRepeats(x, p, MatchLen(x, o, p));
    }
  }

  // ----- one iteration

  lemma RefillKeeps(x: seq<byte>, buf: seq<byte>, s: State, k: nat, t: Table, lits: nat)
    requires Sim(x, buf, s, k, t, lits)
    ensures s.cword == 1 <==> k == 0
    ensures s.cword == 1 ==> s.src + CWORD_LEN <= |buf|
    ensures Sim(x, buf, Refill(buf, s), if k == 0 then ITEMS_PER_CWORD else k, t, lits)
  {
    hide FirstItem, Stream, EnterAll, Parse;
    var items := Ahead(x, s, t, lits);
    ParseUnfold(x, s.pos, EnterAll(x, t, s.hashed + 1, s.pos), lits);
    if k == 0 {
      StreamRefill(buf, s.src, items);
    }
  }

  lemma RoomAhead(x: seq<byte>, buf: seq<byte>, src: nat, k: nat, p: nat, t: Table, lits: nat)
    requires p + UNCOMPRESSED_END <= |x| && TableBelow(t, p)
    requires StreamAt(buf, src, k, Parse(x, p, t, lits))
    ensures src + 4 + (if k == 0 then CWORD_LEN else 0) <= |buf|
  {
    hide FirstItem;
    ParseEndsInLiterals(x, p, t, lits);
    ParseUnfold(x, p, t, lits);
    StreamLength(k, Parse(x, p, t, lits));
  }

  /** A copy decoded from the right token leaves the two dictionaries in step. */
  lemma CopyInStep(x: seq<byte>, buf: seq<byte>, s: State, t: Table, lits: nat)
    requires InStep(x, s, t, lits) && MayStartMatch(x, s.pos) && s.src + 4 <= |buf|
    requires TakesMatch(x, s.pos, EnterAll(x, t, s.hashed + 1, s.pos), lits)
    requires var h := HashAt(x, s.pos);
             var len := MatchLen(x, EnterAll(x, t, s.hashed + 1, s.pos)[h], s.pos);
             Token(buf, s.src).0 == h && Token(buf, s.src).1 == len
    ensures CopyInBounds(buf, s)
    ensures InStep(x, CopyStep(buf, s), EnterAll(x, t, s.hashed + 1, s.pos + 1), 0)
  {
    hide MatchLen, EnterAll, CopyUp, HashUpTo, TakesMatch, Token;
    var p := s.pos;
    var h, len, size := Token(buf, s.src).0, Token(buf, s.src).1, Token(buf, s.src).2;
    SourceAgrees(x, s, t, lits);
    CopyUpRepeats(x, s.dst, t[h], p, len);
    var dst := CopyUp(s.dst, t[h], p, len);
    assert dst[..p + 3] == dst[..p + len][..p + 3] && x[..p + 3] == x[..p + len][..p + 3];
    HashUpToAgrees(x, dst, s.table, t, s.hashed, p);
  }

  lemma FirstIsMatch(x: seq<byte>, p: nat, t: Table, lits: nat)
    requires p < |x| && TableBelow(t, p)
    requires FirstItem(x, p, t, lits).Match?
    ensures MayStartMatch(x, p) && TakesMatch(x, p, t, lits)
    ensures FirstItem(x, p, t, lits) == Match(HashAt(x, p), MatchLen(x, t[HashAt(x, p)], p))
  {
  }

  lemma CopyKeeps(x: seq<byte>, buf: seq<byte>, s: State, k: nat, t: Table, lits: nat)
    requires Sim(x, buf, s, k, t, lits) && k > 0
    requires Ahead(x, s, t, lits)[0].Match?
    ensures CopyInBounds(buf, s)
    ensures Sim(x, buf, CopyStep(buf, s), k - 1, EnterAll(x, t, s.hashed + 1, s.pos + 1), 0)
  {
    hide MatchLen, Stream, ControlWord, Enter, EnterAll, CopyUp, HashUpTo, Parse, TakesMatch, Token,
         FirstItem;
    var p := s.pos;
    var all := EnterAll(x, t, s.hashed + 1, p);
    var items := Ahead(x, s, t, lits);
    ParseUnfold(x, p, all, lits);
    FirstIsMatch(x, p, all, lits);
    StreamHead(buf, s.src, k, items);
    TokenOfCode(buf, s.src, items[0].hash, items[0].len);
    ControlWordHead(k, items);
    CopyInStep(x, buf, s, t, lits);
    EnterAllLast(x, t, s.hashed + 1, p);
    var s', t' := CopyStep(buf, s), EnterAll(x, t, s.hashed + 1, p + 1);
    EnterNone(x, t', s'.pos);
    RoomAhead(x, buf, s'.src, k - 1, s'.pos, t', 0);
  }

  /** Literals read leave the two dictionaries in step: the positions three back are caught up with. */
  lemma LiteralInStep(x: seq<byte>, buf: seq<byte>, s: State, t: Table, lits: nat, n: nat)
    requires InStep(x, s, t, lits) && s.src + 4 <= |buf| && LiteralsByFour(s)
    requires s.cword % 2 == 0 && n == BITLUT[s.cword % 16] && 1 <= n <= 4
    requires buf[s.src..s.src + n] == x[s.pos..s.pos + n]
    ensures var s' := LiteralStep(buf, s);
            && s.hashed <= s'.hashed
            && InStep(x, s', EnterAll(x, t, s.hashed + 1, s'.hashed + 1), lits + n)
  {
    hide EnterAll, HashUpTo, Shift, HashAt;
    var s' := LiteralStep(buf, s);
    assert s'.dst[..s'.pos] == s.dst[..s.pos] + buf[s.src..s.src + n];
    assert x[..s'.pos] == x[..s.pos] + x[s.pos..s.pos + n];
    if s.hashed < s'.hashed {
      HashUpToAgrees(x, s'.dst, s.table, t, s.hashed, s'.hashed);
      EnterAllLast(x, t, s.hashed + 1, s'.hashed);
    } else {
      EnterNone(x, t, s.hashed + 1);
      HashUpToNothing(s'.dst, s.table, s.hashed, s'.pos - 3);
    }
  }

  lemma HashUpToNothing(dst: seq<byte>, table: seq<int>, hashed: int, max: int)
    requires -1 <= hashed && max <= hashed && max + 3 <= |dst| && |table| == HASH_VALUES
    ensures HashUpTo(dst, table, hashed, max) == table
  {
  }

  /** The n literals that the control word announces, and what the compressor does after them. */
  lemma LiteralsAhead(x: seq<byte>, buf: seq<byte>, s: State, k: nat, t: Table, lits: nat, n: nat)
    requires Sim(x, buf, s, k, t, lits) && k > 0
    requires Ahead(x, s, t, lits)[0].Lit? && LiteralsByFour(s)
    requires n == BITLUT[s.cword % 16]
    ensures s.cword % 2 == 0 && 1 <= n <= 4 && n <= k
    ensures buf[s.src..s.src + n] == x[s.pos..s.pos + n]
    ensures var rest := Parse(x, s.pos + n, EnterAll(x, t, s.hashed + 1, s.pos + n), lits + n);
            StreamAt(buf, s.src + n, k - n, rest) && Shift(s.cword, n) == ControlWord(k - n, rest)
  {
    hide EnterAll, Shift, Stream, ControlWord, Enter, Parse, FirstItem;
    var p := s.pos;
    var all := EnterAll(x, t, s.hashed + 1, p);
    var items := Ahead(x, s, t, lits);
    ParseEndsInLiterals(x, p, all, lits);
    ControlWordHead(k, items);
    LeadingLiterals(k, items);
    SkipLiterals(x, p, all, lits, n);
    SkippedBytes(x, p, all, lits, n);
    StreamLiterals(buf, s.src, k, items, n);
    EnterAllSplit(x, t, s.hashed + 1, p, p + n);
  }

  lemma LiteralKeeps(x: seq<byte>, buf: seq<byte>, s: State, k: nat, t: Table, lits: nat)
    requires Sim(x, buf, s, k, t, lits) && k > 0
    requires Ahead(x, s, t, lits)[0].Lit? && LiteralsByFour(s)
    ensures s.cword % 2 == 0
    ensures var n := BITLUT[s.cword % 16];
            var s' := LiteralStep(buf, s);
            n <= k && s.hashed <= s'.hashed
            && Sim(x, buf, s', k - n, EnterAll(x, t, s.hashed + 1, s'.hashed + 1), lits + n)
  {
    hide EnterAll, HashUpTo, Shift, Stream, ControlWord, Enter, Parse, FirstItem, StreamAt, HashAt;
    var n := BITLUT[s.cword % 16];
    LiteralsAhead(x, buf, s, k, t, lits, n);
    LiteralInStep(x, buf, s, t, lits, n);
    var s' := LiteralStep(buf, s);
    var t' := EnterAll(x, t, s.hashed + 1, s'.hashed + 1);
    EnterAllSplit(x, t, s.hashed + 1, s'.hashed + 1, s'.pos);
    RoomAhead(x, buf, s'.src, k - n, s'.pos, EnterAll(x, t', s'.hashed + 1, s'.pos), lits + n);
  }

  // ----- the tail

  /** The all-literal tail: the control words passed over unread are all zero but for the sentinel. */
  lemma {:induction false} TailDecodes(x: seq<byte>, buf: seq<byte>, src: nat, k: nat, cword: nat,
                                       dst: seq<byte>, p: nat, items: seq<Item>)
    requires p <= |x| && |dst| == |x| && dst[..p] == x[..p]
    requires |items| == |x| - p && forall i :: 0 <= i < |items| ==> items[i] == Lit(x[p + i])
    requires k <= ITEMS_PER_CWORD && cword == ControlWord(k, items)
    requires StreamAt(buf, src, k, items)
    ensures Tail(buf, src, cword, dst, p) == Done(x)
    decreases |items|
  {
    hide Stream, ControlWord;
    if p == |x| {
      assert dst[..p] == dst && x[..p] == x;
    } else {
      var src', k' := src, k;
      ControlWordNotOne(k, items);
      if k == 0 {
        StreamRefill(buf, src, items);
        ControlWordAllLits(ITEMS_PER_CWORD, items);
        Pow2Of31();
        src', k' := src + CWORD_LEN, ITEMS_PER_CWORD;
      }
      ControlWordHead(k', items);
      StreamHead(buf, src', k', items);
      assert buf[src'] == buf[src'..src' + 1][0] == x[p];
      var dst' := dst[p := buf[src']];
      assert dst'[..p + 1] == dst[..p] + [x[p]] && x[..p + 1] == x[..p] + [x[p]];
      TailDecodes(x, buf, src' + 1, k' - 1, ControlWord(k' - 1, items[1..]), dst', p + 1, items[1..]);
    }
  }

  lemma ControlWordNotOne(k: nat, items: seq<Item>)
    ensures ControlWord(k, items) == 1 <==> k == 0
  {
  }

  /** At a literal too near the end for copies, what is ahead is the rest of the input. */
  lemma TailKeeps(x: seq<byte>, buf: seq<byte>, s: State, k: nat, t: Table, lits: nat)
    requires Sim(x, buf, s, k, t, lits) && k > 0
    requires Ahead(x, s, t, lits)[0].Lit? && !LiteralsByFour(s)
    ensures Tail(buf, s.src, s.cword, s.dst, s.pos) == Done(x)
  {
    hide EnterAll, Stream, ControlWord, Enter, Parse, FirstItem, Tail;
    var p := s.pos;
    var all := EnterAll(x, t, s.hashed + 1, p);
    var items := Ahead(x, s, t, lits);
    if MayStartMatch(x, p) {
      ParseUnfold(x, p, all, lits);
      TailIsLiteral(x, p + 1, Enter(x, all, p), lits + 1);
    } else {
      TailIsLiteral(x, p, all, lits);
    }
    TailDecodes(x, buf, s.src, k, s.cword, s.dst, p, items);
  }

  // ----- the round trip of the core

  lemma {:induction false} LoopDecodes(x: seq<byte>, buf: seq<byte>, s: State, k: nat, t: Table, lits: nat)
    requires Sim(x, buf, s, k, t, lits)
    ensures Loop(buf, s) == Done(x)
    decreases |buf| - s.src
  {
    hide HashFunc, EnterAll, Stream, ControlWord, Enter, Parse, FirstItem, Tail, CopyStep, LiteralStep, CopyInBounds;
    RefillKeeps(x, buf, s, k, t, lits);
    var k1 := if k == 0 then ITEMS_PER_CWORD else k;
    var s1 := Refill(buf, s);
    var items := Ahead(x, s1, t, lits);
    ParseUnfold(x, s1.pos, EnterAll(x, t, s1.hashed + 1, s1.pos), lits);
    ControlWordHead(k1, items);
    if items[0].Match? {
      CopyKeeps(x, buf, s1, k1, t, lits);
      LoopDecodes(x, buf, CopyStep(buf, s1), k1 - 1, EnterAll(x, t, s1.hashed + 1, s1.pos + 1), 0);
    } else if LiteralsByFour(s1) {
      LiteralKeeps(x, buf, s1, k1, t, lits);
      var s2, n := LiteralStep(buf, s1), BITLUT[s1.cword % 16];
      LoopDecodes(x, buf, s2, k1 - n, EnterAll(x, t, s1.hashed + 1, s2.hashed + 1), lits + n);
    } else {
      TailKeeps(x, buf, s1, k1, t, lits);
    }
  }

  /** Whatever the table and the destination held before, decoding the stream of x gives x. */
  lemma CoreRoundTrip(x: seq<byte>, buf: seq<byte>, src: nat, dst: seq<byte>, table: seq<int>)
    requires x != [] && |dst| == |x| && |table| == HASH_VALUES
    requires var s := Stream(0, Items(x));
             src + |s| <= |buf| && src + 8 <= |buf| && buf[src..src + |s|] == s
    ensures Loop(buf, State(src, 1, dst, 0, -1, table)) == Done(x)
  {
    hide Stream, Parse, Loop;
    var s := State(src, 1, dst, 0, -1, table);
    EnterNone(x, map[], 0);
    ControlWordSentinel(Items(x));
    LoopDecodes(x, buf, s, 0, map[], 0);
  }
}
