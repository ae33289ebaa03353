/** How long the compressed stream can get: the ratio test made when a control word is full, and the
    four literal bytes at the end, keep it within 24 bytes of the input. */
module QuickLzBound {
  import opened Basics
  import opened QuickLzFormat
  import opened QuickLzParse

  const SLACK: nat := 24

  /** What a passed ratio test leaves: p0 bytes read, z0 bytes written, and the control word full. In
      the first half of the input there is no test, only one control word to 31 items at most. */
  ghost predicate Passed(n: nat, p0: nat, z0: nat) {
    p0 <= n && z0 <= if p0 <= n / 2 then p0 + 4 * (p0 / ITEMS_PER_CWORD) else p0 - p0 / 32
  }

  /** j items later, at p bytes read and z written. */
  ghost predicate Budget(n: nat, p0: nat, z0: nat, j: nat, p: nat, z: nat) {
    && Passed(n, p0, z0) && j <= ITEMS_PER_CWORD
    && p0 + j <= p <= n
    && z <= z0 + CWORD_LEN + (p - p0) && z <= z0 + CWORD_LEN + 3 * j
  }

  lemma BudgetRoom(n: nat, p0: nat, z0: nat, j: nat, p: nat, z: nat)
    requires Budget(n, p0, z0, j, p, z)
    ensures z + CWORD_LEN <= n + SLACK
    ensures n - p <= 10 ==> z + (n - p) + CWORD_LEN <= n + SLACK
  {
    if p0 <= n / 2 && p0 / ITEMS_PER_CWORD > 4 {
      assert 4 * (p0 / ITEMS_PER_CWORD) <= 4 * p0 / 31;
    }
  }

  lemma BudgetItem(n: nat, p0: nat, z0: nat, j: nat, p: nat, z: nat, it: Item)
    requires Budget(n, p0, z0, j, p, z) && j < ITEMS_PER_CWORD && it.Valid() && p + it.Width() <= n
    ensures Budget(n, p0, z0, j + 1, p + it.Width(), z + |it.Code()|)
  {
  }

  lemma BudgetPass(n: nat, p0: nat, z0: nat, p: nat, z: nat)
    requires Budget(n, p0, z0, ITEMS_PER_CWORD, p, z) && !PoorRatio(n, p, z)
    ensures Budget(n, p, z, 0, p, z + CWORD_LEN)
  {
    assert p / ITEMS_PER_CWORD >= p0 / ITEMS_PER_CWORD + 1;
  }

  lemma BudgetStart(n: nat)
    ensures Budget(n, 0, 0, 0, 0, CWORD_LEN)
  {
  }

  lemma {:induction false} BodyFits(items: seq<Item>)
    requires AllValid(items)
    ensures |Body(items)| <= Cover(items) && |items| <= Cover(items)
  {
    if items != [] {
      BodyFits(items[1..]);
    }
  }

  /** At most one control word is opened by the last items. */
  lemma {:induction false} ShortStream(k: nat, items: seq<Item>)
    requires |items| <= ITEMS_PER_CWORD
    ensures |Stream(k, items)| <= |Body(items)| + CWORD_LEN
    decreases |items|, if k == 0 then 1 else 0
  {
    if items != [] {
      if k == 0 {
        StreamOfShortGroup(ITEMS_PER_CWORD, items);
      } else {
        ShortStream(k - 1, items[1..]);
      }
    }
  }

  /** From any point within budget on, unless compression is given up. */
  lemma {:induction false} StreamWithinBudget(x: seq<byte>, p: nat, k: nat, z: nat, items: seq<Item>, p0: nat, z0: nat)
    requires k <= ITEMS_PER_CWORD && Budget(|x|, p0, z0, ITEMS_PER_CWORD - k, p, z)
    requires AllValid(items) && Cover(items) == |x| - p
    requires !GivesUp(x, p, k, z, items)
    ensures z + |Stream(k, items)| <= |x| + SLACK
    decreases |items|, if k == 0 then 1 else 0
  {
    BudgetRoom(|x|, p0, z0, ITEMS_PER_CWORD - k, p, z);
    if items == [] {
    } else if !MayStartMatch(x, p) {
      BodyFits(items);
      ShortStream(k, items);
    } else if k == 0 {
      BudgetPass(|x|, p0, z0, p, z);
      StreamWithinBudget(x, p, ITEMS_PER_CWORD, z + CWORD_LEN, items, p, z);
    } else {
      BudgetItem(|x|, p0, z0, ITEMS_PER_CWORD - k, p, z, items[0]);
      StreamWithinBudget(x, p + items[0].Width(), k - 1, z + |items[0].Code()|, items[1..], p0, z0);
    }
  }

  lemma CoreWithinBound(x: seq<byte>)
    requires Core(x).Some?
    ensures |Core(x).value| <= |x| + SLACK
  {
    ParseCovers(x, 0, map[], 0);
    var items := Items(x);
    if MayStartMatch(x, 0) {
      BudgetStart(|x|);
      StreamWithinBudget(x, 0, ITEMS_PER_CWORD, CWORD_LEN, items, 0, 0);
    } else {
      BodyFits(items);
      ShortStream(0, items);
    }
  }
}
