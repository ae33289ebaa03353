/** The event group of event_groups.c: the bits and the list of waiting tasks, which is edited while it is
    walked. */
module EventGroup {
  import opened EventBits
  import Rings
  import L = List

  function WordOf(v: nat): bv32 {
    if v <= L.MAX_DELAY then v as bv32 else 0
  }

  function ValueOf(w: bv32): (v: nat)
    ensures v <= L.MAX_DELAY && WordOf(v) == w
  {
    w as nat
  }

  function WaiterOf(x: L.Item): Waiter
    reads x`value
  {
    Waiter(x.owner, WordOf(x.value))
  }

  function WaitersOf(items: seq<L.Item>): (r: seq<Waiter>)
    reads items`value
    ensures |r| == |items|
  {
    if items == [] then [] else [WaiterOf(items[0])] + WaitersOf(items[1..])
  }

  lemma WaitersAppend(a: seq<L.Item>, b: seq<L.Item>)
    ensures WaitersOf(a + b) == WaitersOf(a) + WaitersOf(b)
  {
    hide WaiterOf;
    if a == [] {
      assert a + b == b;
    } else {
      WaitersAppend(a[1..], b);
      assert (a + b)[1..] == a[1..] + b;
    }
  }

  lemma PlusAssoc(a: bv32, b: bv32, c: bv32)
    ensures Plus(Plus(a, b), c) == Plus(a, Plus(b, c))
  {
  }

  lemma PlusZero(a: bv32)
    ensures Plus(0, a) == a && Plus(a, 0) == a
  {
  }

  lemma ReleasedNodes(nodes: seq<L.Item>, p: nat)
    requires p + 1 < |nodes|
    ensures nodes[1..][..p] + nodes[1..][p + 1..] == nodes[1..p + 1] + nodes[p + 2..]
  {
  }

  /** The outcome of the walk from what is done of it and the rest. */
  ghost predicate Remains(orig: seq<Waiter>, bits: bv32, kept: seq<Waiter>, rest: seq<Waiter>, clear: bv32, freed: seq<Waiter>) {
    && Kept(orig, bits) == kept + Kept(rest, bits)
    && Released(orig, bits) == freed + Released(rest, bits)
    && ToClear(orig, bits) == Plus(clear, ToClear(rest, bits))
  }

  lemma RemainsNext(orig: seq<Waiter>, bits: bv32, kept: seq<Waiter>, w: Waiter, rest: seq<Waiter>, clear: bv32, freed: seq<Waiter>)
    requires Remains(orig, bits, kept, [w] + rest, clear, freed)
    ensures Met(bits, w) ==> Remains(orig, bits, kept, rest, Plus(clear, Clears(w)), freed + [w])
    ensures !Met(bits, w) ==> Remains(orig, bits, kept + [w], rest, clear, freed)
  {
    hide Met, Clears, Plus;
    var list := [w] + rest;
    assert list[0] == w && list[1..] == rest;
    PlusAssoc(clear, Clears(w), ToClear(rest, bits));
    PlusZero(ToClear(rest, bits));
    assert kept + ([w] + Kept(rest, bits)) == (kept + [w]) + Kept(rest, bits);
    assert freed + ([w] + Released(rest, bits)) == (freed + [w]) + Released(rest, bits);
    assert kept + ([] + Kept(rest, bits)) == kept + Kept(rest, bits);
    assert freed + ([] + Released(rest, bits)) == freed + Released(rest, bits);
  }

  lemma AfterRelease(nodes: seq<L.Item>, was: seq<L.Item>, p: nat)
    requires p + 1 < |was| && nodes != [] && nodes[0] == was[0] && nodes[1..] == was[1..p + 1] + was[p + 2..]
    ensures forall n :: n in nodes ==> n in was
    ensures forall n :: n in was && n !in nodes ==> n == was[p + 1]
    ensures |nodes| == |was| - 1 && nodes[1..p + 1] == was[1..p + 1] && nodes[p + 1..] == was[p + 2..]
  {
    assert nodes == [was[0]] + (was[1..p + 1] + was[p + 2..]);
    assert was == [was[0]] + (was[1..p + 1] + ([was[p + 1]] + was[p + 2..]));
  }

  lemma SplitWalk(nodes: seq<L.Item>, p: nat)
    requires p + 1 < |nodes|
    ensures WaitersOf(nodes[1..p + 2]) == WaitersOf(nodes[1..p + 1]) + [WaiterOf(nodes[p + 1])]
    ensures WaitersOf(nodes[p + 1..]) == [WaiterOf(nodes[p + 1])] + WaitersOf(nodes[p + 2..])
  {
    hide WordOf;
    assert nodes[1..p + 2] == nodes[1..p + 1] + [nodes[p + 1]];
    WaitersAppend(nodes[1..p + 1], [nodes[p + 1]]);
    assert nodes[p + 1..][1..] == nodes[p + 2..];
    assert WaitersOf([nodes[p + 1]]) == [WaiterOf(nodes[p + 1])];
  }

  class EventGroup {
    var eventBits: bv32
    const list: L.List

    ghost function View(): Group
      requires list.nodes != []
      reads this, list, list.nodes
    {
      Group(eventBits, WaitersOf(list.nodes[1..]))
    }

    constructor ()
      ensures list.Valid() && View() == Group(0, []) && fresh(list) && fresh(list.nodes)
    {
      eventBits := 0;
      list := new L.List();
    }

    /** `vTaskRemoveFromUnorderedEventList` of the p-th waiter. */
    method Release(x: L.Item, ghost p: nat, value: bv32)
      requires list.Valid() && p + 1 < |list.nodes| && x == list.nodes[p + 1]
      modifies list, list.nodes`next, list.nodes`prev, x`value, x`container
      ensures list.Valid() && x.container == null && x.value == ValueOf(value) && x !in list.nodes
      ensures old(list.at) == 0 ==> list.at == 0
      ensures list.nodes[1..] == old(list.nodes[1..p + 1] + list.nodes[p + 2..]) && list.nodes[0] == old(list.nodes[0])
    {
      hide L.Circular, ValueOf, WordOf;
      ghost var was := list.nodes;
      ReleasedNodes(was, p);
      list.NotEnd(p + 1);
      x.value := ValueOf(value);
      var _ := list.Remove(x, p);
    }

    /** The test of the walk: whether the waiter is released, and the bits it then wants cleared. */
    static method Test(word: bv32, bits: bv32, ghost t: nat) returns (released: bool, clears: bv32)
      ensures released == Met(bits, Waiter(t, word))
      ensures released ==> clears == Clears(Waiter(t, word))
    {
      hide Minus, AnyOf, AllOf, ControlOf;
      var controlBits := ControlOf(word);
      var bitsWaitedFor := Minus(word, CONTROL);
      ControlSame(word);
      released := false;
      clears := 0;
      if !AnyOf(controlBits, WAIT_FOR_ALL) {
        if AnyOf(bits, bitsWaitedFor) {
          released := true;
        }
      } else if AllOf(bits, bitsWaitedFor) {
        released := true;
      }
      if released && AnyOf(controlBits, CLEAR_ON_EXIT) {
        clears := bitsWaitedFor;
      }
    }

    /** One item of the walk: what it waits for decides whether it is released. */
    method Visit(x: L.Item, ghost p: nat, toClear: bv32) returns (released: bool, clear: bv32)
      requires list.Valid() && p + 1 < |list.nodes| && x == list.nodes[p + 1]
      modifies list, list.nodes`next, list.nodes`prev, x`value, x`container
      ensures list.Valid() && list.nodes[0] == old(list.nodes[0])
      ensures old(list.at) == 0 ==> list.at == 0
      ensures released == Met(eventBits, old(WaiterOf(x)))
      ensures clear == if released then Plus(toClear, Clears(old(WaiterOf(x)))) else toClear
      ensures released ==> x.container == null && x.value == ValueOf(Told(eventBits)) && x !in list.nodes
      ensures list.nodes[1..] == if released then old(list.nodes[1..p + 1] + list.nodes[p + 2..]) else old(list.nodes[1..])
      ensures !released ==> list.nodes == old(list.nodes) && x.value == old(x.value)
    {
      hide Met, Clears, Told, Plus, WordOf, ValueOf;
      var clears;
      released, clears := Test(WordOf(x.value), eventBits, x.owner);
      clear := toClear;
      if released {
        clear := Plus(clear, clears);
        Release(x, p, Told(eventBits));
      }
    }

    /** What is left of the walk, behind the p-th node, determines the outcome of all of it. */
    ghost predicate Walked(orig: seq<Waiter>, bits: bv32, p: nat, clear: bv32, freed: seq<Waiter>)
      requires p < |list.nodes|
      reads list, list.nodes
    {
      Remains(orig, bits, WaitersOf(list.nodes[1..p + 1]), WaitersOf(list.nodes[p + 1..]), clear, freed)
    }

    lemma WalkStarts(orig: seq<Waiter>, bits: bv32)
      requires list.nodes != [] && orig == WaitersOf(list.nodes[1..])
      ensures Walked(orig, bits, 0, 0, [])
    {
      hide Plus, Met;
      PlusZero(ToClear(orig, bits));
      assert list.nodes[1..1] == [] && list.nodes[0 + 1..] == list.nodes[1..];
    }

    lemma WalkEnds(orig: seq<Waiter>, bits: bv32, clear: bv32, freed: seq<Waiter>)
      requires list.nodes != [] && Walked(orig, bits, |list.nodes| - 1, clear, freed)
      ensures Kept(orig, bits) == WaitersOf(list.nodes[1..])
      ensures Released(orig, bits) == freed && ToClear(orig, bits) == clear
    {
      hide Plus, Met;
      PlusZero(clear);
      assert list.nodes[1..|list.nodes|] == list.nodes[1..];
    }

    /** One turn of the walk. The next item is looked up before this one may be removed, so that the walk
        goes on from the right place. */
    method Advance(ghost orig: seq<Waiter>, ghost p: nat, toClear: bv32, ghost freed: seq<Waiter>, item: L.Item)
      returns (ghost p': nat, clear: bv32, ghost freed': seq<Waiter>, next: L.Item)
      requires list.Valid() && p + 1 < |list.nodes| && item == list.nodes[p + 1]
      requires Walked(orig, eventBits, p, toClear, freed)
      modifies list, list.nodes
      ensures list.Valid() && p' < |list.nodes| && next == L.Behind(list.nodes, p')
      ensures old(list.at) == 0 ==> list.at == 0
      ensures Walked(orig, eventBits, p', clear, freed')
      ensures |list.nodes| - p' < old(|list.nodes|) - p
      ensures forall n :: n in list.nodes ==> n in old(list.nodes)
      ensures forall n :: n in old(list.nodes) && n !in list.nodes ==>
                n == item && n.container == null && n.value == ValueOf(Told(eventBits))
    {
      hide L.Circular, L.OwnedBy, Met, Clears, Plus, Told, ValueOf, WordOf, Remains, WaitersOf;
      ghost var was, w := list.nodes, WaiterOf(item);
      list.NextOf(p + 1);
      SplitWalk(was, p);
      ghost var kept, rest := WaitersOf(was[1..p + 1]), WaitersOf(was[p + 2..]);
      RemainsNext(orig, eventBits, kept, w, rest, toClear, freed);
      next := item.next;
      var released;
      released, clear := Visit(item, p, toClear);
      if released {
        p', freed' := p, freed + [w];
        AfterRelease(list.nodes, was, p);
      } else {
        p', freed' := p + 1, freed;
      }
    }

    /** The walk of `xEventGroupSetBits`, with the bits to be cleared after it. */
    method Walk() returns (toClear: bv32, ghost freed: seq<Waiter>)
      requires list.Valid()
      modifies list, list.nodes
      ensures list.Valid() && (old(list.at) == 0 ==> list.at == 0)
      ensures WaitersOf(list.nodes[1..]) == Kept(old(View()).waiting, eventBits)
      ensures freed == Released(old(View()).waiting, eventBits) && toClear == ToClear(old(View()).waiting, eventBits)
      ensures forall n :: n in old(list.nodes) && n !in list.nodes ==>
                n.container == null && n.value == ValueOf(Told(eventBits))
      ensures forall i :: 0 <= i < |list.nodes| ==> list.nodes[i] in old(list.nodes)
    {
      hide L.Circular, L.OwnedBy, Met, Clears, Plus, Told, ValueOf, WordOf, Walked, WaitersOf;
      ghost var orig := View().waiting;
      toClear := 0;
      freed := [];
      ghost var p: nat := 0;
      list.HeadNext();
      var item := list.end.next;
      WalkStarts(orig, eventBits);
      list.NextOf(p);
      while item != list.end
        invariant list.Valid() && (old(list.at) == 0 ==> list.at == 0)
        invariant p < |list.nodes| && item == L.Behind(list.nodes, p)
        invariant Walked(orig, eventBits, p, toClear, freed)
        invariant forall i :: 0 <= i < |list.nodes| ==> list.nodes[i] in old(list.nodes)
        invariant forall n :: n in old(list.nodes) && n !in list.nodes ==>
                    n.container == null && n.value == ValueOf(Told(eventBits))
        decreases |list.nodes| - p
      {
        list.NextOf(p);
        ghost var before := list.nodes;
        p, toClear, freed, item := Advance(orig, p, toClear, freed, item);
        forall i | 0 <= i < |list.nodes|
          ensures list.nodes[i] in old(list.nodes)
        {
          assert list.nodes[i] in before;
        }
      }
      list.NextOf(p);
      WalkEnds(orig, eventBits, toClear, freed);
    }

    /** `xEventGroupSetBits` */
    method SetBits(bitsToSet: bv32) returns (ghost freed: seq<Waiter>)
      requires list.Valid()
      modifies this, list, list.nodes
      ensures list.Valid() && (old(list.at) == 0 ==> list.at == 0)
      ensures View() == EventBits.SetBits(old(View()), bitsToSet)
      ensures freed == Released(old(View()).waiting, Plus(old(eventBits), bitsToSet))
      ensures forall n :: n in old(list.nodes) && n !in list.nodes ==>
                n.container == null && n.value == ValueOf(Told(Plus(old(eventBits), bitsToSet)))
      ensures forall n :: n in list.nodes ==> n in old(list.nodes)
    {
      hide L.Circular, L.OwnedBy, Met, Plus, Minus, Told, ValueOf, WaitersOf, Kept, Released, ToClear;
      eventBits := Plus(eventBits, bitsToSet);
      var toClear;
      toClear, freed := Walk();
      eventBits := Minus(eventBits, toClear);
    }

    /** The list's cursor stays on the end marker, so that a new waiter goes to the end. */
    method Enlist(x: L.Item, word: bv32)
      requires list.Valid() && list.at == 0 && x.container == null && x != list.end
      modifies list, list.nodes, x
      ensures list.Valid() && list.at == 0 && View() == old(View()).(waiting := old(View()).waiting + [Waiter(x.owner, word)])
    {
      hide L.Circular, L.OwnedBy, WordOf, ValueOf;
      ghost var was := list.nodes;
      list.Outside(x);
      x.value := ValueOf(word);
      list.InsertEnd(x);
      assert list.nodes[1..] == was[1..] + [x];
      WaitersAppend(was[1..], [x]);
      assert WaitersOf([x]) == [WaiterOf(x)];
    }

    /** `xEventGroupWaitBits`, up to where the task blocks. */
    method WaitBits(x: L.Item, bitsToWaitFor: bv32, clearOnExit: bool, waitForAllBits: bool, blocking: bool) returns (answer: Answer)
      requires list.Valid() && list.at == 0 && x.container == null && x != list.end && Usable(bitsToWaitFor)
      modifies this, list, list.nodes, x
      ensures list.Valid() && list.at == 0
      ensures (View(), answer) == EventBits.WaitBits(old(View()), x.owner, bitsToWaitFor, clearOnExit, waitForAllBits, blocking)
    {
      hide TestWaitCondition, Minus, Usable, WordFor, WaitersOf;
      if TestWaitCondition(eventBits, bitsToWaitFor, waitForAllBits) {
        answer := Returned(eventBits);
        if clearOnExit {
          eventBits := Minus(eventBits, bitsToWaitFor);
        }
      } else if !blocking {
        answer := Returned(eventBits);
      } else {
        Enlist(x, WordFor(bitsToWaitFor, clearOnExit, waitForAllBits));
        answer := Blocked;
      }
    }

    /** `xEventGroupSync`, up to where the task blocks. */
    method Sync(x: L.Item, bitsToSet: bv32, bitsToWaitFor: bv32, blocking: bool) returns (answer: Answer)
      requires list.Valid() && list.at == 0 && x.container == null && x != list.end && Usable(bitsToWaitFor)
      requires x !in list.nodes
      modifies this, list, list.nodes, x
      ensures list.Valid() && list.at == 0
      ensures (View(), answer) == EventBits.Sync(old(View()), x.owner, bitsToSet, bitsToWaitFor, blocking)
    {
      hide AllOf, Plus, Minus, Usable, WordFor, WaitersOf, EventBits.SetBits;
      var originalBitValue := eventBits;
      var _ := SetBits(bitsToSet);
      if AllOf(Plus(originalBitValue, bitsToSet), bitsToWaitFor) {
        answer := Returned(Plus(originalBitValue, bitsToSet));
        eventBits := Minus(eventBits, bitsToWaitFor);
      } else if blocking {
        Enlist(x, WordFor(bitsToWaitFor, true, true));
        answer := Blocked;
      } else {
        answer := Returned(eventBits);
      }
    }
  }

  function ControlOf(word: bv32): bv32 {
    word & CONTROL
  }

  lemma ControlSame(word: bv32)
    ensures AnyOf(ControlOf(word), WAIT_FOR_ALL) == AnyOf(word, WAIT_FOR_ALL)
    ensures AnyOf(ControlOf(word), CLEAR_ON_EXIT) == AnyOf(word, CLEAR_ON_EXIT)
  {
    assert (word & CONTROL) & WAIT_FOR_ALL == word & WAIT_FOR_ALL;
    assert (word & CONTROL) & CLEAR_ON_EXIT == word & CLEAR_ON_EXIT;
  }
}
