/** The QuickLZ level 1 stream: bytes, hash buckets, items, and the control-word layout that both
    the compressor and the decompressor follow. */
module QuickLzFormat {
  import opened Basics

  const HASH_VALUES := 4096
  const CWORD_LEN := 4
  const UNCONDITIONAL_MATCHLEN := 6
  const UNCOMPRESSED_END := 4
  const ITEMS_PER_CWORD := 31
  const TOP_BIT := 0x8000_0000

  /** Little-endian reads, as `fast_read` does them byte by byte. */
  function Read3(s: seq<byte>, p: nat): (r: nat)
    requires p + 3 <= |s|
    ensures r < 0x100_0000
  {
    s[p] as nat + 0x100 * s[p + 1] as nat + 0x1_0000 * s[p + 2] as nat
  }

  function Read4(s: seq<byte>, p: nat): (r: nat)
    requires p + 4 <= |s|
    ensures r < 0x1_0000_0000
  {
    s[p] as nat + 0x100 * s[p + 1] as nat + 0x1_0000 * s[p + 2] as nat + 0x100_0000 * s[p + 3] as nat
  }

  /** Little-endian writes; what does not fit is cut off, as the casts in `fast_write` cut it off. */
  function Bytes2(v: nat): (s: seq<byte>) {
    [v % 0x100, v / 0x100 % 0x100]
  }

  function Bytes3(v: nat): (s: seq<byte>) {
    [v % 0x100, v / 0x100 % 0x100, v / 0x1_0000 % 0x100]
  }

  function Bytes4(v: nat): (s: seq<byte>)
    ensures |s| == 4
  {
    [v % 0x100, v / 0x100 % 0x100, v / 0x1_0000 % 0x100, v / 0x100_0000 % 0x100]
  }

  lemma Read4OfBytes4(v: nat, s: seq<byte>, p: nat)
    requires v < 0x1_0000_0000
    requires p + 4 <= |s| && s[p..p + 4] == Bytes4(v)
    ensures Read4(s, p) == v
  {
    var b := s[p..p + 4];
    assert b[0] == s[p] && b[1] == s[p + 1] && b[2] == s[p + 2] && b[3] == s[p + 3];
    assert v / 0x1_0000 == v / 0x100 / 0x100;
    assert v / 0x100_0000 == v / 0x100 / 0x100 / 0x100;
  }

  /** The shift, exclusive or and mask of `hash_func`; only the low 24 bits of a word reach it. */
  function FoldWord(i: bv24): (h: bv24)
    ensures h < 0x1000
  {
    ((i >> 12) ^ i) & 0xFFF
  }

  /** `hash_func`. */
  function HashFunc(f: nat): (h: nat)
    requires f < 0x100_0000
    ensures h < HASH_VALUES
  {
    FoldWord(f as bv24) as nat
  }

  /** `hashat`. */
  function HashAt(s: seq<byte>, p: nat): (h: nat)
    requires p + 3 <= |s|
    ensures h < HASH_VALUES
  {
    HashFunc(Read3(s, p))
  }

  lemma EqualReadsEqualBytes(s: seq<byte>, p: nat, q: nat)
    requires p + 3 <= |s| && q + 3 <= |s|
    ensures Read3(s, p) == Read3(s, q) <==> s[p] == s[q] && s[p + 1] == s[q + 1] && s[p + 2] == s[q + 2]
  {
  }

  function High(i: bv24): bv24 {
    i >> 12
  }

  function Low(i: bv24): bv24 {
    i & 0xFFF
  }

  function Xor(a: bv24, b: bv24): bv24 {
    a ^ b
  }

  /** The hash loses nothing but what it folds: of two words that agree in one half of twelve bits, it tells
      every difference in the other. */
  lemma FoldTells(i: bv24, j: bv24)
    requires Low(i) == Low(j) || High(i) == High(j)
    ensures FoldWord(i) == FoldWord(j) <==> i == j
  {
    hide High, Low, Xor, FoldWord;
    FoldIs(i);
    FoldIs(j);
    Halves(i, j);
    XorTells(High(i), Low(i), High(j), Low(j));
  }

  lemma FoldIs(i: bv24)
    ensures FoldWord(i) == Xor(High(i), Low(i))
  {
  }

  lemma Halves(i: bv24, j: bv24)
    ensures i == j <==> High(i) == High(j) && Low(i) == Low(j)
  {
  }

  lemma XorTells(a: bv24, b: bv24, c: bv24, d: bv24)
    requires a == c || b == d
    ensures Xor(a, b) == Xor(c, d) <==> a == c && b == d
  {
    hide Xor;
    XorBack(a, b);
    XorBack(c, d);
  }

  lemma XorBack(a: bv24, b: bv24)
    ensures Xor(Xor(a, b), a) == b && Xor(Xor(a, b), b) == a
  {
  }

  /** One step of the stream: a literal byte, or a copy named by its hash bucket and its length. */
  datatype Item = Lit(b: byte) | Match(hash: nat, len: nat) {
    ghost predicate Valid() {
      Match? ==> hash < HASH_VALUES && 3 <= len <= 255
    }

    /** How many bytes of the original this item stands for. */
    ghost function Width(): nat {
      if Lit? then 1 else len
    }

    /** The item's bytes in the stream: short matches keep their length in the low nibble. */
    ghost function Code(): (s: seq<byte>)
      ensures 1 <= |s| <= 3
      ensures Valid() ==> |s| <= Width()
    {
      match this
      case Lit(b) => [b]
      case Match(h, n) =>
        if n < 2 then Bytes2(0)
        else if n < 18 then Bytes2(n - 2 + 16 * h)
        else Bytes3(0x1_0000 * n + 16 * h)
    }
  }

  ghost predicate AllValid(items: seq<Item>) {
    forall i :: 0 <= i < |items| ==> items[i].Valid()
  }

  ghost predicate AllLits(items: seq<Item>) {
    forall i :: 0 <= i < |items| ==> items[i].Lit?
  }

  ghost function Cover(items: seq<Item>): nat {
    if items == [] then 0 else items[0].Width() + Cover(items[1..])
  }

  ghost function Body(items: seq<Item>): seq<byte> {
    if items == [] then [] else items[0].Code() + Body(items[1..])
  }

  /** The control word over the next `k` items: bit i is set when item i is a match, missing items
      count as literals, and a sentinel bit stands above the last item. */
  ghost function ControlWord(k: nat, items: seq<Item>): (w: nat)
    ensures w >= 1 && (k > 0 ==> w >= 2)
    decreases k + |items|
  {
    if k == 0 then 1
    else if items == [] then 2 * ControlWord(k - 1, [])
    else (if items[0].Match? then 1 else 0) + 2 * ControlWord(k - 1, items[1..])
  }

  /** The stream from the point where `k` items of the current control word are still to come. */
  ghost function Stream(k: nat, items: seq<Item>): seq<byte>
    decreases |items|, if k == 0 then 1 else 0
  {
    if items == [] then []
    else if k == 0 then Bytes4(ControlWord(ITEMS_PER_CWORD, items)) + Stream(ITEMS_PER_CWORD, items)
    else items[0].Code() + Stream(k - 1, items[1..])
  }

  // ----- control words

  function Pow2(n: nat): (r: nat)
    ensures r >= 1
  {
    if n == 0 then 1 else 2 * Pow2(n - 1)
  }

  lemma {:induction false} ControlWordBound(k: nat, items: seq<Item>)
    ensures ControlWord(k, items) < 2 * Pow2(k)
  {
    if k > 0 {
      ControlWordBound(k - 1, if items == [] then [] else items[1..]);
    }
  }

  lemma ControlWordFits(items: seq<Item>)
    ensures ControlWord(ITEMS_PER_CWORD, items) < 0x1_0000_0000
  {
    ControlWordBound(ITEMS_PER_CWORD, items);
    Pow2Of31();
  }

  lemma Pow2Of31()
    ensures Pow2(31) == TOP_BIT
  {
    assert Pow2(8) == 0x100;
    assert Pow2(16) == 0x1_0000;
    assert Pow2(24) == 0x100_0000;
  }

  /** Items beyond the k-th do not matter, and neither do missing ones: they count as literals. */
  lemma {:induction false} ControlWordPrefix(k: nat, g: seq<Item>, r: seq<Item>)
    requires |g| >= k
    ensures ControlWord(k, g + r) == ControlWord(k, g)
  {
    if k > 0 {
      assert (g + r)[1..] == g[1..] + r;
      ControlWordPrefix(k - 1, g[1..], r);
    }
  }

  lemma {:induction false} ControlWordAllLits(k: nat, items: seq<Item>)
    requires AllLits(items)
    ensures ControlWord(k, items) == Pow2(k)
  {
    if k > 0 {
      ControlWordAllLits(k - 1, if items == [] then [] else items[1..]);
    }
  }

  /** Which items are matches, as a binary number with item 0 lowest. */
  ghost function Bits(items: seq<Item>): nat {
    if items == [] then 0 else (if items[0].Match? then 1 else 0) + 2 * Bits(items[1..])
  }

  lemma {:induction false} BitsSnoc(g: seq<Item>, it: Item)
    ensures Bits(g + [it]) == Bits(g) + (if it.Match? then Pow2(|g|) else 0)
  {
    if g == [] {
      assert g + [it] == [it] && [it][1..] == [];
    } else {
      assert (g + [it])[1..] == g[1..] + [it];
      BitsSnoc(g[1..], it);
    }
  }

  lemma {:induction false} ControlWordIsBits(k: nat, g: seq<Item>)
    requires |g| <= k
    ensures ControlWord(k, g) == Bits(g) + Pow2(k)
  {
    if k > 0 {
      ControlWordIsBits(k - 1, if g == [] then [] else g[1..]);
    }
  }

  // ----- the stream

  lemma {:induction false} BodySnoc(g: seq<Item>, it: Item)
    ensures Body(g + [it]) == Body(g) + it.Code()
  {
    if g == [] {
      assert g + [it] == [it] && [it][1..] == [];
      assert Body([it]) == it.Code() + Body([]);
    } else {
      assert (g + [it])[1..] == g[1..] + [it];
      BodySnoc(g[1..], it);
    }
  }

  lemma {:induction false} CoverAppend(g: seq<Item>, r: seq<Item>)
    ensures Cover(g + r) == Cover(g) + Cover(r)
  {
    if g == [] {
      assert g + r == r;
    } else {
      assert (g + r)[1..] == g[1..] + r;
      CoverAppend(g[1..], r);
    }
  }

  lemma {:induction false} StreamOfShortGroup(k: nat, g: seq<Item>)
    requires |g| <= k
    ensures Stream(k, g) == Body(g)
  {
    if g != [] {
      StreamOfShortGroup(k - 1, g[1..]);
    }
  }

  lemma StreamOpenGroup(g: seq<Item>, r: seq<Item>)
    requires |g| >= ITEMS_PER_CWORD
    ensures Stream(0, g + r) == Bytes4(ControlWord(ITEMS_PER_CWORD, g)) + Stream(ITEMS_PER_CWORD, g + r)
    ensures Stream(0, g) == Bytes4(ControlWord(ITEMS_PER_CWORD, g)) + Stream(ITEMS_PER_CWORD, g)
  {
    ControlWordPrefix(ITEMS_PER_CWORD, g, r);
  }

  lemma StreamCons(k: nat, g: seq<Item>, r: seq<Item>)
    requires k > 0 && g != []
    ensures Stream(k, g + r) == g[0].Code() + Stream(k - 1, g[1..] + r)
    ensures Stream(k, g) == g[0].Code() + Stream(k - 1, g[1..])
  {
    assert (g + r)[1..] == g[1..] + r;
  }

  lemma Associative(a: seq<byte>, b: seq<byte>, c: seq<byte>)
    ensures a + (b + c) == (a + b) + c
  {
  }

  /** Complete groups keep their bytes whatever follows them. */
  lemma {:induction false} StreamAppend(k: nat, m: nat, g: seq<Item>, r: seq<Item>)
    requires |g| == k + m * ITEMS_PER_CWORD
    ensures Stream(k, g + r) == Stream(k, g) + Stream(0, r)
    decreases m, k
  {
    if k > 0 {
      StreamAppend(k - 1, m, g[1..], r);
      StreamCons(k, g, r);
      Associative(g[0].Code(), Stream(k - 1, g[1..]), Stream(0, r));
    } else if m > 0 {
      var w := ITEMS_PER_CWORD;
      StreamAppend(w, m - 1, g, r);
      StreamOpenGroup(g, r);
      Associative(Bytes4(ControlWord(w, g)), Stream(w, g), Stream(0, r));
    } else {
      assert g + r == r;
    }
  }

  /** Closing a group: the finished groups, the control word, then the group's items. */
  lemma StreamCloseGroup(g: seq<Item>, r: seq<Item>)
    requires |g| % ITEMS_PER_CWORD == 0
    requires 0 < |r| <= ITEMS_PER_CWORD
    ensures Stream(0, g + r) == Stream(0, g) + Bytes4(ControlWord(ITEMS_PER_CWORD, r)) + Body(r)
  {
    StreamAppend(0, |g| / ITEMS_PER_CWORD, g, r);
    StreamOfShortGroup(ITEMS_PER_CWORD, r);
  }
}
