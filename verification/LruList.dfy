/** The pager's list of page frames in the order of their last use: an intrusive doubly linked list in
    which only the backward links are exact. */
module LruList {

  // ----- the order

  /** Every frame exactly once. */
  ghost predicate Permutation(order: seq<nat>, n: nat) {
    && |order| == n
    && (forall i :: 0 <= i < n ==> order[i] < n)
    && (forall i, j :: 0 <= i < j < n ==> order[i] != order[j])
    && forall f :: 0 <= f < n ==> f in order
  }

  ghost function IndexOf(order: seq<nat>, f: nat): (i: nat)
    requires f in order
    ensures i < |order| && order[i] == f
    ensures forall j :: 0 <= j < i ==> order[j] != f
  {
    if order[0] == f then 0
    else
      assert f in order[1..];
      1 + IndexOf(order[1..], f)
  }

  /** The frame taken out of its place and put last. */
  ghost function Touch(order: seq<nat>, f: nat): (order': seq<nat>)
    requires f in order
    ensures |order'| == |order|
  {
    var i := IndexOf(order, f);
    order[..i] + order[i + 1..] + [f]
  }

  lemma TouchAt(order: seq<nat>, f: nat, i: nat)
    requires f in order && i < |order|
    ensures Touch(order, f)[i] ==
            if i == |order| - 1 then f else if i < IndexOf(order, f) then order[i] else order[i + 1]
  {
  }

  lemma TouchHas(order: seq<nat>, n: nat, f: nat, g: nat)
    requires Permutation(order, n) && f < n && g < n
    ensures g in Touch(order, f)
  {
    var k, j := IndexOf(order, f), IndexOf(order, g);
    var at := if g == f then n - 1 else if j < k then j else j - 1;
    TouchAt(order, f, at);
    assert Touch(order, f)[at] == g;
  }

  lemma TouchPermutes(order: seq<nat>, n: nat, f: nat)
    requires Permutation(order, n) && f < n
    ensures Permutation(Touch(order, f), n)
    ensures Touch(order, f)[n - 1] == f
  {
    var o := Touch(order, f);
    forall i | 0 <= i < n
      ensures o[i] < n
    {
      TouchAt(order, f, i);
    }
    forall i, j | 0 <= i < j < n
      ensures o[i] != o[j]
    {
      TouchAt(order, f, i);
      TouchAt(order, f, j);
    }
    forall g | 0 <= g < n
      ensures g in o
    {
      TouchHas(order, n, f, g);
    }
    TouchAt(order, f, n - 1);
  }

  /** Where every frame stands after a touch. */
  lemma TouchIndex(order: seq<nat>, n: nat, f: nat, g: nat)
    requires Permutation(order, n) && f < n && g < n
    ensures g in Touch(order, f)
    ensures IndexOf(Touch(order, f), g) ==
            if g == f then n - 1
            else if IndexOf(order, g) < IndexOf(order, f) then IndexOf(order, g) else IndexOf(order, g) - 1
  {
    TouchPermutes(order, n, f);
    var at := if g == f then n - 1
              else if IndexOf(order, g) < IndexOf(order, f) then IndexOf(order, g) else IndexOf(order, g) - 1;
    TouchAt(order, f, at);
    IndexUnique(Touch(order, f), n, at);
  }

  lemma TouchFirst(order: seq<nat>)
    requires order != []
    ensures Touch(order, order[0]) == order[1..] + [order[0]]
  {
    assert IndexOf(order, order[0]) == 0;
  }

  lemma IndexUnique(order: seq<nat>, n: nat, i: nat)
    requires Permutation(order, n) && i < n
    ensures IndexOf(order, order[i]) == i
  {
  }

  // ----- who is evicted

  /** A run in which each step moves one frame to the end, or none; `moved` has n for none. The frame
      evicted for a new page is always the first. */
  ghost predicate Run(orders: seq<seq<nat>>, moved: seq<nat>, n: nat) {
    && |orders| == |moved| + 1
    && (forall k :: 0 <= k < |orders| ==> Permutation(orders[k], n))
    && forall k :: 0 <= k < |moved| ==> moved[k] <= n && orders[k + 1] == After(orders[k], moved[k], n)
  }

  ghost function After(order: seq<nat>, f: nat, n: nat): seq<nat>
    requires Permutation(order, n)
  {
    if f < n then Touch(order, f) else order
  }

  ghost predicate MovedWithin(moved: seq<nat>, a: nat, b: nat, g: nat)
    requires b <= |moved|
  {
    exists m :: a <= m < b && moved[m] == g
  }

  /** What stands behind a frame was moved after it. */
  lemma {:induction false} BehindWasMoved(orders: seq<seq<nat>>, moved: seq<nat>, n: nat, a: nat, b: nat, f: nat, g: nat)
    requires Run(orders, moved, n) && 0 < a <= b <= |moved| && moved[a - 1] == f < n && g < n && g != f
    requires !MovedWithin(moved, a, b, f)
    requires IndexOf(orders[b], f) < IndexOf(orders[b], g)
    ensures MovedWithin(moved, a, b, g)
    decreases b
  {
    hide Touch, IndexOf;
    var before, h := orders[b - 1], moved[b - 1];
    assert orders[b - 1 + 1] == After(before, h, n);
    if h < n {
      TouchIndex(before, n, h, f);
      TouchIndex(before, n, h, g);
    }
    if b > a && h != g {
      assert h != f;
      assert !MovedWithin(moved, a, b - 1, f);
      BehindWasMoved(orders, moved, n, a, b - 1, f, g);
      var m :| a <= m < b - 1 && moved[m] == g;
      assert a <= m < b && moved[m] == g;
    } else if b > a {
      assert a <= b - 1 < b && moved[b - 1] == g;
    }
  }

  /** A frame is evicted only after every other frame has been moved behind it since its own last move,
      the one just before a: least recently used, first out. */
  lemma EvictedLast(orders: seq<seq<nat>>, moved: seq<nat>, n: nat, a: nat, b: nat, f: nat)
    requires Run(orders, moved, n) && n >= 2 && 0 < a <= b <= |moved| && moved[a - 1] == f < n
    requires !MovedWithin(moved, a, b, f)
    requires orders[b][0] == f
    ensures forall g :: 0 <= g < n && g != f ==> MovedWithin(moved, a, b, g)
  {
    forall g | 0 <= g < n && g != f
      ensures MovedWithin(moved, a, b, g)
    {
      IndexUnique(orders[b], n, 0);
      BehindWasMoved(orders, moved, n, a, b, f, g);
    }
  }

  function Ascending(n: nat): (o: seq<nat>) {
    seq(n, i => i)
  }

  lemma AscendingPermutes(n: nat)
    ensures Permutation(Ascending(n), n)
  {
    forall f | 0 <= f < n
      ensures f in Ascending(n)
    {
      assert Ascending(n)[f] == f;
    }
  }

  // ----- the linked list

  const NULL := -1

  /** The backward links list every frame from the tail to the head. The forward links agree with them,
      but of the tail's it is only said that it is a link. */
  ghost predicate Linked(prev: seq<int>, next: seq<int>, head: int, tail: int, o: seq<nat>) {
    && |o| >= 2 && |prev| == |next| == |o| && Permutation(o, |o|)
    && head == o[0] && tail == o[|o| - 1] && NULL <= next[tail] < |o|
    && (forall i :: 0 <= i < |o| ==> prev[o[i]] == if i == 0 then NULL else o[i - 1])
    && forall i :: 0 <= i < |o| - 1 ==> next[o[i]] == o[i + 1]
  }

  lemma LinksOf(prev: seq<int>, next: seq<int>, head: int, tail: int, o: seq<nat>, k: nat)
    requires Linked(prev, next, head, tail, o) && k < |o|
    ensures prev[o[k]] == if k == 0 then NULL else o[k - 1]
    ensures k < |o| - 1 ==> next[o[k]] == o[k + 1]
    ensures o[k] == tail <==> k == |o| - 1
    ensures o[k] == head <==> k == 0
  {
  }

  lemma AscendingLinked(n: nat)
    requires n >= 2
    ensures Linked(seq(n, (i: nat) => i as int - 1), seq(n, (i: nat) => if i + 1 < n then i + 1 else NULL),
                   0, n - 1, Ascending(n))
  {
    AscendingPermutes(n);
  }

  lemma HeadAt(prev: seq<int>, next: seq<int>, head: int, tail: int, o: seq<nat>, i: nat)
    requires Linked(prev, next, head, tail, o) && i < |o|
    ensures var o', h' := o[1..] + [o[0]], next[head];
            && 0 <= h' < |o| && 0 <= head < |o| && 0 <= tail < |o|
            && prev[h' := NULL][head := tail][o'[i]] == (if i == 0 then NULL else o'[i - 1])
            && (i < |o| - 1 ==> next[tail := head][head := NULL][o'[i]] == o'[i + 1])
  {
    var n := |o|;
    LinksOf(prev, next, head, tail, o, 0);
    LinksOf(prev, next, head, tail, o, n - 1);
    if i < n - 1 {
      LinksOf(prev, next, head, tail, o, i + 1);
    }
  }

  /** The pointer updates that move the head behind the tail. */
  lemma MoveHeadLinks(prev: seq<int>, next: seq<int>, head: int, tail: int, o: seq<nat>)
    requires Linked(prev, next, head, tail, o)
    ensures var h' := next[head];
            && 0 <= h' < |o|
            && Linked(prev[h' := NULL][head := tail], next[tail := head][head := NULL], h', head, Touch(o, o[0]))
  {
    TouchPermutes(o, |o|, o[0]);
    TouchFirst(o);
    LinksOf(prev, next, head, tail, o, 0);
    HeadAt(prev, next, head, tail, o, 0);
    hide IndexOf, Touch;
    var o', h' := o[1..] + [o[0]], next[head];
    var p, x := prev[h' := NULL][head := tail], next[tail := head][head := NULL];
    forall i | 0 <= i < |o|
      ensures p[o'[i]] == if i == 0 then NULL else o'[i - 1]
      ensures i < |o| - 1 ==> x[o'[i]] == o'[i + 1]
    {
      HeadAt(prev, next, head, tail, o, i);
    }
  }

  /** o' is o with the k-th frame put last. */
  ghost predicate PutLast(o: seq<nat>, o': seq<nat>, k: nat) {
    && k < |o| == |o'| && o'[|o| - 1] == o[k]
    && forall i :: 0 <= i < |o| - 1 ==> o'[i] == o[if i < k then i else i + 1]
  }

  lemma TouchPutsLast(o: seq<nat>, n: nat, k: nat)
    requires Permutation(o, n) && k < n
    ensures PutLast(o, Touch(o, o[k]), k)
  {
    IndexUnique(o, n, k);
    forall i | 0 <= i < n
      ensures Touch(o, o[k])[i] == if i == n - 1 then o[k] else if i < k then o[i] else o[i + 1]
    {
      TouchAt(o, o[k], i);
    }
  }

  lemma MiddlePrev(prev: seq<int>, next: seq<int>, head: int, tail: int, o: seq<nat>, o': seq<nat>, k: nat, i: nat)
    requires Linked(prev, next, head, tail, o) && 0 < k < |o| - 1 && PutLast(o, o', k) && i < |o|
    ensures prev[o[k + 1] := o[k - 1]][o[k] := tail][o'[i]] == if i == 0 then NULL else o'[i - 1]
  {
    var n := |o|;
    LinksOf(prev, next, head, tail, o, if i == n - 1 then k else if i < k then i else i + 1);
    assert o[n - 1] == tail && o'[n - 2] == o[n - 1];
  }

  lemma MiddleNext(prev: seq<int>, next: seq<int>, head: int, tail: int, o: seq<nat>, o': seq<nat>, k: nat, i: nat)
    requires Linked(prev, next, head, tail, o) && 0 < k < |o| - 1 && PutLast(o, o', k) && i < |o| - 1
    ensures next[o[k - 1] := o[k + 1]][tail := o[k]][o'[i]] == o'[i + 1]
  {
    var n := |o|;
    LinksOf(prev, next, head, tail, o, if i < k then i else i + 1);
    LinksOf(prev, next, head, tail, o, k - 1);
  }

  /** The pointer updates that move a frame from the middle behind the tail. */
  lemma MoveMiddleLinks(prev: seq<int>, next: seq<int>, head: int, tail: int, o: seq<nat>, k: nat)
    requires Linked(prev, next, head, tail, o) && 0 < k < |o| - 1
    ensures var f, b, a := o[k], o[k - 1], o[k + 1];
            Linked(prev[a := b][f := tail], next[b := a][tail := f], head, f, Touch(o, f))
  {
    var n := |o|;
    TouchPermutes(o, n, o[k]);
    TouchPutsLast(o, n, k);
    var o' := Touch(o, o[k]);
    assert o'[0] == o[0];
    forall i | 0 <= i < n
      ensures prev[o[k + 1] := o[k - 1]][o[k] := tail][o'[i]] == if i == 0 then NULL else o'[i - 1]
    {
      MiddlePrev(prev, next, head, tail, o, o', k, i);
    }
    forall i | 0 <= i < n - 1
      ensures next[o[k - 1] := o[k + 1]][tail := o[k]][o'[i]] == o'[i + 1]
    {
      MiddleNext(prev, next, head, tail, o, o', k, i);
    }
    var p, x := prev[o[k + 1] := o[k - 1]][o[k] := tail], next[o[k - 1] := o[k + 1]][tail := o[k]];
    assert Linked(p, x, head, o[k], o');
  }

  /** What the tail's forward link is: null, left over from the middle of the list, or, once the list has
      been linked to itself, a matter of no more use. */
  datatype TailLink = Fresh | Stale | Looped

  ghost function LinkOf(prev: seq<int>, next: seq<int>, head: int, tail: int, o: seq<nat>): TailLink {
    if !Linked(prev, next, head, tail, o) then Looped else if next[tail] == NULL then Fresh else Stale
  }

  /** What `move_vram_cache_page_to_tail` makes of it. */
  ghost function MovedLink(order: seq<nat>, link: TailLink, f: nat): TailLink
    requires order != []
  {
    if f == order[|order| - 1] then if link == Fresh then Fresh else Looped
    else if f == order[0] then Fresh
    else Stale
  }

  /** k steps back. */
  ghost function Back(prev: seq<int>, f: int, k: nat): int {
    if k == 0 then f
    else
      var g := Back(prev, f, k - 1);
      if 0 <= g < |prev| then prev[g] else NULL
  }

  /** The same pointer updates made for the tail itself, on account of its stale forward link: the list is
      no list in any order any more, and the way back from the tail never leaves it. */
  lemma MoveTailLoops(prev: seq<int>, next: seq<int>, head: int, tail: int, o: seq<nat>, o': seq<nat>, k: nat)
    requires Linked(prev, next, head, tail, o) && next[tail] != NULL
    ensures 0 <= tail < |o| && 0 <= prev[tail] < |o| && 0 <= next[tail] < |o|
    ensures var b, a := prev[tail], next[tail];
            var p, x := prev[a := b][tail := tail], next[b := a][tail := tail];
            !Linked(p, x, head, tail, o') && Back(p, tail, k) == tail
  {
    var n := |o|;
    LinksOf(prev, next, head, tail, o, n - 1);
    var b, a := prev[tail], next[tail];
    var p, x := prev[a := b][tail := tail], next[b := a][tail := tail];
    if Linked(p, x, head, tail, o') {
      NoSelfLink(p, x, head, tail, o');
    }
    BackStays(p, tail, k);
  }

  lemma NoSelfLink(prev: seq<int>, next: seq<int>, head: int, tail: int, o: seq<nat>)
    requires Linked(prev, next, head, tail, o)
    ensures 0 <= tail < |o| && prev[tail] != tail
  {
    LinksOf(prev, next, head, tail, o, |o| - 1);
  }

  lemma {:induction false} BackStays(prev: seq<int>, f: int, k: nat)
    requires 0 <= f < |prev| && prev[f] == f
    ensures Back(prev, f, k) == f
  {
    if k > 0 {
      BackStays(prev, f, k - 1);
    }
  }

  lemma TouchTail(order: seq<nat>, n: nat)
    requires Permutation(order, n) && n > 0
    ensures Touch(order, order[n - 1]) == order
  {
    IndexUnique(order, n, n - 1);
  }

  ghost predicate HasPage(pages: seq<nat>, f: nat, page: nat) {
    f < |pages| && pages[f] == page
  }

  /** The place nearest the tail, among the first k, of a frame that holds the page; -1 if none does. */
  ghost function LastPlace(order: seq<nat>, pages: seq<nat>, page: nat, k: nat): (i: int)
    requires k <= |order|
    ensures -1 <= i < k
    ensures i >= 0 ==> HasPage(pages, order[i], page)
    ensures forall j :: i < j < k ==> !HasPage(pages, order[j], page)
  {
    if k == 0 then -1 else if HasPage(pages, order[k - 1], page) then k - 1 else LastPlace(order, pages, page, k - 1)
  }

  /** What is kept of a frame besides its links: its page, where that is stored, and whether it was
      written since it was loaded. */
  datatype Info = Info(page: nat, sector: nat, offset: nat, dirty: bool)

  const UNUSED := Info(0, 0, 0, false)

  class FrameList {
    const prev: array<int>
    const next: array<int>
    const info: array<Info>
    var head: int
    var tail: int
    var cur: int
    ghost var order: seq<nat>

    ghost const Repr: set<object> := {this, prev, next, info}

    constructor (n: nat)
      requires n >= 2
      ensures Valid() && Link() == Fresh && fresh(Repr) && prev.Length == n
      ensures order == Ascending(n) && info[..] == seq(n, _ => UNUSED)
    {
      prev := new int[n];
      next := new int[n];
      info := new Info[n](_ => UNUSED);
      head, cur, tail := 0, 0, 0;
      order := [];
      new;
      Reset();
    }

    ghost predicate Shaped() {
      prev != next && prev.Length == next.Length == info.Length >= 2
    }

    ghost predicate Valid()
      reads this, prev, next
    {
      Shaped() && Linked(prev[..], next[..], head, tail, order)
    }

    ghost function Link(): (link: TailLink)
      reads this, prev, next
      ensures Shaped() ==> (Valid() <==> link != Looped)
    {
      LinkOf(prev[..], next[..], head, tail, order)
    }

    lemma Has(f: nat)
      requires Valid() && f < prev.Length
      ensures f in order
    {
    }

    /** How `vmMgr_ReleaseAllPage` sets the frames up: unused, in the order of their numbers. */
    method Reset()
      requires Shaped()
      modifies this, prev, next, info
      ensures Valid() && Link() == Fresh
      ensures order == Ascending(prev.Length) && info[..] == seq(prev.Length, _ => UNUSED)
    {
      var n := prev.Length;
      forall i | 0 <= i < n { prev[i] := NULL; }
      forall i | 0 <= i < n { next[i] := NULL; }
      for i := 0 to n
        invariant forall j :: 0 <= j < i ==> prev[j] == j - 1 && info[j] == UNUSED
        invariant forall j :: 0 <= j < n ==> next[j] == if j + 1 < i then j + 1 else NULL
        invariant forall j :: i <= j < n ==> prev[j] == NULL
      {
        info[i] := UNUSED;
        if i > 0 {
          next[i - 1] := i;
          prev[i] := i - 1;
        }
      }
      head, cur, tail := 0, 0, n - 1;
      order := Ascending(n);
      AscendingLinked(n);
      assert prev[..] == seq(n, (i: nat) => i as int - 1);
      assert next[..] == seq(n, (i: nat) => if i + 1 < n then i + 1 else NULL);
    }

    /** `get_vram_page_and_move_to_tail`, and the same for ROM frames. */
    method GetPageAndMoveToTail()
      requires Valid()
      modifies this, prev, next
      ensures Valid() && Link() == Fresh
      ensures cur == old(head) == old(order)[0] && order == Touch(old(order), old(order)[0])
    {
      hide Touch;
      ghost var p, x, h := prev[..], next[..], next[head];
      MoveHeadLinks(p, x, head, tail, order);
      cur := head;
      head := next[head];
      prev[head] := NULL;
      next[tail] := cur;
      prev[cur] := tail;
      next[cur] := NULL;
      assert prev[..] == p[h := NULL][cur := tail] && next[..] == x[tail := cur][cur := NULL];
      tail := cur;
      order := Touch(order, order[0]);
    }

    /** `move_vram_cache_page_to_tail`. In the middle of the list the item keeps its old forward link. Asked
        of a tail that was moved this way, the code takes it for another item of the middle and links it
        to itself: that is exactly when no list is left. */
    method MoveToTail(item: nat)
      requires Valid() && item < prev.Length
      modifies this, prev, next
      ensures Shaped() && order == Touch(old(order), item) && tail == item
      ensures Link() == MovedLink(old(order), old(Link()), item)
      ensures Valid() <==> !(item == old(tail) && old(Link()) == Stale)
      ensures !Valid() ==> forall k: nat :: Back(prev[..], tail, k) == tail
    {
      ghost var o, n := order, prev.Length;
      ghost var k := IndexOf(o, item);
      LinksOf(prev[..], next[..], head, tail, o, k);
      TouchTail(o, n);
      if next[item] == NULL && prev[item] != NULL {
        return;
      }
      if prev[item] != NULL && next[item] != NULL {
        MoveFromMiddle(item, k);
        return;
      }
      if next[item] != NULL && prev[item] == NULL {
        GetPageAndMoveToTail();
      }
    }

    /** The case with a link either way: an item of the middle, or a tail whose forward link is stale. */
    method MoveFromMiddle(item: nat, ghost k: nat)
      requires Valid() && 0 < k < |order| && item == order[k] && next[item] != NULL
      modifies this, prev, next
      ensures Shaped() && order == Touch(old(order), item) && tail == item
      ensures Link() == if k == |order| - 1 then Looped else Stale
      ensures !Valid() ==> forall k: nat :: Back(prev[..], tail, k) == tail
    {
      hide Touch;
      ghost var p, x, h, o, t := prev[..], next[..], head, order, tail;
      LinksOf(p, x, head, tail, order, k);
      TouchTail(o, |o|);
      ghost var a, b := next[item], prev[item];
      next[prev[item]] := next[item];
      prev[next[item]] := prev[item];
      prev[item] := tail;
      next[tail] := item;
      assert prev[..] == p[a := b][item := t] && next[..] == x[b := a][t := item];
      tail := item;
      order := Touch(order, item);
      if k < |o| - 1 {
        MoveMiddleLinks(p, x, h, t, o, k);
      } else {
        forall j: nat
          ensures !Linked(prev[..], next[..], head, tail, order) && Back(prev[..], tail, j) == tail
        {
          MoveTailLoops(p, x, h, t, o, order, j);
        }
      }
    }

    ghost function Pages(): (pages: seq<nat>)
      reads info
      ensures |pages| == info.Length && forall f :: 0 <= f < info.Length ==> pages[f] == info[f].page
    {
      seq(info.Length, f requires 0 <= f < info.Length reads info => info[f].page)
    }

    /** `search_vram_cache_page_by_vaddr`: the frame nearest the tail that holds the page. */
    method Search(page: nat) returns (f: int)
      requires Valid()
      ensures var i := LastPlace(order, Pages(), page, |order|);
              f == if i < 0 then NULL else order[i]
      ensures f != NULL ==> 0 <= f < info.Length && info[f].page == page
      ensures f == NULL ==> forall i :: 0 <= i < info.Length ==> info[i].page != page
    {
      f := tail;
      ghost var k := |order| - 1;
      while f != NULL
        invariant -1 <= k < |order|
        invariant f == if k == -1 then NULL else order[k]
        invariant LastPlace(order, Pages(), page, |order|) == LastPlace(order, Pages(), page, k + 1)
        decreases k + 1
      {
        if info[f].page == page {
          return;
        }
        LinksOf(prev[..], next[..], head, tail, order, k);
        f := prev[f];
        k := k - 1;
      }
      forall i | 0 <= i < info.Length
        ensures info[i].page != page
      {
        assert order[IndexOf(order, i)] == i;
      }
    }
  }
}
