/** The kernel's circular doubly linked list of list.c. */
module List {
  import opened Rings

  const MAX_DELAY := 0xFFFF_FFFF

  class Item {
    var value: nat
    var next: Item?
    var prev: Item?
    var container: List?
    const owner: nat

    /** `vListInitialiseItem` */
    constructor (owner: nat, value: nat)
      ensures this.owner == owner && this.value == value && container == null
    {
      this.owner := owner;
      this.value := value;
      next, prev, container := null, null, null;
    }
  }

  /** The node behind the i-th. */
  function Behind(nodes: seq<Item>, i: nat): Item
    requires i < |nodes|
  {
    if i + 1 == |nodes| then nodes[0] else nodes[i + 1]
  }

  ghost predicate Distinct(nodes: seq<Item>) {
    forall i, j :: 0 <= i < j < |nodes| ==> nodes[i] != nodes[j]
  }

  /** The nodes form one ring, backwards as well as forwards. */
  ghost predicate Circular(nodes: seq<Item>)
    reads nodes`next, nodes`prev
  {
    && nodes != [] && Distinct(nodes)
    && forall i :: 0 <= i < |nodes| ==> nodes[i].next == Behind(nodes, i) && Behind(nodes, i).prev == nodes[i]
  }

  function Values(nodes: seq<Item>): (v: seq<nat>)
    reads nodes
    ensures |v| == |nodes| && forall i :: 0 <= i < |nodes| ==> v[i] == nodes[i].value
  {
    seq(|nodes|, i requires 0 <= i < |nodes| reads nodes => nodes[i].value)
  }

  /** The nodes with x behind the p-th. */
  function Inserted(nodes: seq<Item>, p: nat, x: Item): seq<Item>
    requires p < |nodes|
  {
    nodes[..p + 1] + [x] + nodes[p + 1..]
  }

  /** The nodes without that behind the p-th. */
  function Removed(nodes: seq<Item>, p: nat): seq<Item>
    requires p + 1 < |nodes|
  {
    nodes[..p + 1] + nodes[p + 2..]
  }

  /** The items, without the end marker, know their list. */
  ghost predicate OwnedBy(l: List, nodes: seq<Item>)
    reads nodes`container, nodes`value
  {
    forall i :: 1 <= i < |nodes| ==> nodes[i].container == l && nodes[i].value <= MAX_DELAY
  }

  lemma OwnedInserted(l: List, nodes: seq<Item>, p: nat, x: Item)
    requires p < |nodes| && OwnedBy(l, nodes) && x.container == l && x.value <= MAX_DELAY
    ensures OwnedBy(l, Inserted(nodes, p, x))
  {
  }

  lemma OwnedRemoved(l: List, nodes: seq<Item>, p: nat)
    requires p + 1 < |nodes| && OwnedBy(l, nodes)
    ensures OwnedBy(l, Removed(nodes, p))
  {
  }

  lemma InsertedAt(nodes: seq<Item>, p: nat, x: Item, at: nat)
    requires p < |nodes| && at < |nodes|
    ensures |Inserted(nodes, p, x)| == |nodes| + 1 && Inserted(nodes, p, x)[0] == nodes[0]
    ensures Inserted(nodes, p, x)[if at > p then at + 1 else at] == nodes[at]
  {
  }

  lemma RemovedAt(nodes: seq<Item>, p: nat, at: nat)
    requires p + 1 < |nodes| && at < |nodes|
    ensures |Removed(nodes, p)| == |nodes| - 1 && Removed(nodes, p)[0] == nodes[0]
    ensures Removed(nodes, p)[if at > p then at - 1 else at] == if at == p + 1 then nodes[p] else nodes[at]
  {
  }

  lemma InsertedItems(nodes: seq<Item>, p: nat, x: Item, at: nat)
    requires p < |nodes| && at < |nodes|
    ensures Ring(Inserted(nodes, p, x)[1..], if at > p then at + 1 else at) == InsertAt(Ring(nodes[1..], at), p, x)
  {
  }

  lemma RemovedItems(nodes: seq<Item>, p: nat, at: nat)
    requires p + 1 < |nodes| && at < |nodes|
    ensures Ring(Removed(nodes, p)[1..], if at > p then at - 1 else at) == RemoveAt(Ring(nodes[1..], at), p)
  {
  }

  class List {
    var count: nat
    var index: Item
    const end: Item
    /** The end marker and then the items, in order. */
    ghost var nodes: seq<Item>
    ghost var at: nat

    ghost predicate Valid()
      reads this, nodes
    {
      && Circular(nodes) && nodes[0] == end
      && count + 1 == |nodes|
      && at < |nodes| && index == nodes[at]
      && end.value == MAX_DELAY
      && OwnedBy(this, nodes)
    }

    ghost function View(): (r: Ring<Item>)
      requires nodes != []
      reads this
    {
      Ring(nodes[1..], at)
    }

    /** `vListInitialise` */
    constructor ()
      ensures Valid() && fresh(nodes) && View() == Ring([], 0)
    {
      end := new Item(0, MAX_DELAY);
      index := end;
      count := 0;
      nodes := [end];
      at := 0;
      new;
      end.next, end.prev := end, end;
    }

    /** Links x in behind the p-th node. */
    method LinkBehind(x: Item, before: Item, after: Item, ghost p: nat)
      requires Circular(nodes) && x !in nodes && p < |nodes|
      requires before == nodes[p] && after == Behind(nodes, p)
      modifies this`nodes, x`next, x`prev, before`next, after`prev
      ensures nodes == old(nodes)[..p + 1] + [x] + old(nodes)[p + 1..] && Circular(nodes)
    {
      x.next := after;
      after.prev := x;
      x.prev := before;
      before.next := x;
      nodes := nodes[..p + 1] + [x] + nodes[p + 1..];
    }

    lemma HeadNext()
      requires Valid()
      ensures end.next == Behind(nodes, 0)
    {
    }

    lemma NextOf(p: nat)
      requires Valid() && p < |nodes|
      ensures nodes[p].next == Behind(nodes, p) && (Behind(nodes, p) == end <==> p + 1 == |nodes|)
    {
    }

    lemma Outside(x: Item)
      requires Valid() && x.container == null && x != end
      ensures x !in nodes
    {
    }

    lemma NotEnd(p: nat)
      requires Valid() && 0 < p < |nodes|
      ensures nodes[p] != end && nodes[p].container == this
    {
    }

    /** The node before the cursor. */
    lemma BeforeIndex() returns (p: nat)
      requires Valid()
      ensures p < |nodes| && index.prev == nodes[p] && index == Behind(nodes, p)
      ensures p == if at == 0 then |nodes| - 1 else at - 1
    {
      p := if at == 0 then |nodes| - 1 else at - 1;
      assert Behind(nodes, p) == nodes[at];
    }

    /** All of the invariant but the count and the cursor, which still are those of other nodes. */
    ghost predicate Behindhand(was: seq<Item>)
      reads this, nodes, end
    {
      && Circular(nodes) && was != [] && nodes[0] == end && was[0] == end
      && count + 1 == |was| && at < |was| && index == was[at]
      && end.value == MAX_DELAY
    }

    /** What the invariant asks for the count and the cursor given as arguments. */
    ghost predicate ValidFor(n: nat, cursor: nat, node: Item)
      reads this, nodes, end
    {
      && Circular(nodes) && nodes[0] == end && OwnedBy(this, nodes)
      && n + 1 == |nodes| && cursor < |nodes| && node == nodes[cursor]
      && end.value == MAX_DELAY
    }

    method Settle(n: nat, node: Item, ghost cursor: nat)
      requires ValidFor(n, cursor, node)
      modifies this`count, this`index, this`at
      ensures Valid() && count == n && at == cursor && index == node
    {
      hide Circular, OwnedBy;
      count := n;
      index := node;
      at := cursor;
    }

    lemma AfterLink(x: Item, was: seq<Item>, p: nat)
      requires p < |was| && nodes == Inserted(was, p, x) && Behindhand(was) && OwnedBy(this, was)
      requires x.container == this && x.value <= MAX_DELAY
      ensures ValidFor(count + 1, if at > p then at + 1 else at, index)
      ensures Ring(nodes[1..], if at > p then at + 1 else at) == InsertAt(Ring(was[1..], at), p, x)
    {
      InsertedItems(was, p, x, at);
      InsertedAt(was, p, x, at);
      OwnedInserted(this, was, p, x);
      hide Circular, Inserted, InsertAt, OwnedBy;
    }

    method PutIn(x: Item, before: Item, after: Item, ghost p: nat)
      requires Valid() && x !in nodes && p < |nodes|
      requires before == nodes[p] && after == Behind(nodes, p)
      modifies this`nodes, x`next, x`prev, before`next, after`prev
      ensures nodes == Inserted(old(nodes), p, x) && Behindhand(old(nodes)) && OwnedBy(this, old(nodes))
    {
      ghost var was := nodes;
      LinkBehind(x, before, after, p);
      assert nodes[0] == was[0];
      hide Circular, OwnedBy;
    }

    /** The new node's bookkeeping. */
    method Enter(x: Item, before: Item, after: Item, ghost p: nat)
      requires Valid() && x !in nodes && x.value <= MAX_DELAY && p < |nodes|
      requires before == nodes[p] && after == Behind(nodes, p)
      modifies this`nodes, this`at, this`count, this`index, x`next, x`prev, x`container, before`next, after`prev
      ensures Valid() && x.container == this && index == old(index)
      ensures View() == InsertAt(old(View()), p, x)
    {
      hide OwnedBy, Circular, Inserted, InsertAt;
      ghost var was := nodes;
      PutIn(x, before, after, p);
      x.container := this;
      assert OwnedBy(this, was);
      hide Valid;
      AfterLink(x, was, p);
      hide ValidFor, Behindhand;
      Settle(count + 1, index, if at > p then at + 1 else at);
    }

    /** `vListInsertEnd` */
    method InsertEnd(x: Item)
      requires Valid() && x.container == null && x != end && x.value <= MAX_DELAY
      modifies this`nodes, this`at, this`count, this`index, x`next, x`prev, x`container, nodes`next, nodes`prev
      ensures Valid() && x.container == this && View() == Rings.InsertEnd(old(View()), x)
    {
      ghost var p := BeforeIndex();
      hide Circular;
      Enter(x, index.prev, index, p);
    }

    /** `vListInsert`. The search starts at the end marker and stops there at the latest, because the
        marker's value is greater than that searched for: the greatest value of all is dealt with apart. */
    method Insert(x: Item)
      requires Valid() && x.container == null && x != end && x.value <= MAX_DELAY
      modifies this`nodes, this`at, this`count, this`index, x`next, x`prev, x`container, nodes`next, nodes`prev
      ensures Valid() && x.container == this
      ensures View() == InsertAt(old(View()), InsertPos(old(Values(nodes[1..])), x.value), x)
    {
      ghost var p := 0;
      var it := end;
      if x.value == MAX_DELAY {
        p := |nodes| - 1;
        assert Behind(nodes, p) == end;
        it := end.prev;
      } else {
        while it.next.value <= x.value
          invariant p < |nodes| && it == nodes[p]
          invariant forall i :: 1 <= i <= p ==> nodes[i].value <= x.value
          decreases |nodes| - p
        {
          assert it.next == Behind(nodes, p);
          it := it.next;
          p := p + 1;
        }
      }
      assert it.next == Behind(nodes, p);
      InsertPosUnique(Values(nodes[1..]), x.value, p);
      hide Circular, InsertPos;
      Enter(x, it, it.next, p);
    }

    /** Takes the node behind the p-th out of the ring. */
    method Unlink(x: Item, ghost p: nat)
      requires Circular(nodes) && p + 1 < |nodes| && x == nodes[p + 1]
      modifies this`nodes, nodes`next, nodes`prev
      ensures nodes == Removed(old(nodes), p) && Circular(nodes)
      ensures x.prev == nodes[p]
    {
      assert x.prev == nodes[p] && x.next == Behind(nodes, p + 1) by {
        assert Behind(nodes, p) == x;
      }
      x.next.prev := x.prev;
      x.prev.next := x.next;
      nodes := Removed(nodes, p);
    }

    lemma DistinctOf(was: seq<Item>, p: nat)
      requires p + 1 < |was| && Distinct(was)
      ensures was[p + 1] !in Removed(was, p) && was[p + 1] != was[0]
      ensures forall i :: 0 <= i < |was| && was[i] == was[p + 1] ==> i == p + 1
    {
    }

    lemma AfterUnlink(x: Item, was: seq<Item>, p: nat)
      requires p + 1 < |was| && x == was[p + 1] && nodes == Removed(was, p) && Behindhand(was) && OwnedBy(this, was)
      requires Distinct(was) && x.prev == was[p]
      ensures x !in nodes && x != end
      ensures ValidFor(count - 1, if at > p then at - 1 else at, if index == x then x.prev else index)
      ensures Ring(nodes[1..], if at > p then at - 1 else at) == RemoveAt(Ring(was[1..], at), p)
    {
      RemovedItems(was, p, at);
      RemovedAt(was, p, at);
      OwnedRemoved(this, was, p);
      DistinctOf(was, p);
      hide Circular, Removed, RemoveAt, OwnedBy;
    }

    method TakeOut(x: Item, ghost p: nat)
      requires Valid() && p < |nodes| - 1 && x == nodes[p + 1]
      modifies this`nodes, nodes`next, nodes`prev
      ensures x !in nodes && x != end && x.prev != null
      ensures ValidFor(count - 1, if at > p then at - 1 else at, if index == x then x.prev else index)
      ensures Ring(nodes[1..], if at > p then at - 1 else at) == RemoveAt(old(View()), p)
    {
      ghost var was := nodes;
      Unlink(x, p);
      assert nodes[0] == was[0];
      hide Circular, OwnedBy, RemoveAt, Removed, ValidFor;
      AfterUnlink(x, was, p);
    }

    /** `uxListRemove` */
    method Remove(x: Item, ghost p: nat) returns (left: nat)
      requires Valid() && p < |nodes| - 1 && x == nodes[p + 1]
      modifies this`nodes, this`at, this`count, this`index, x`container, nodes`next, nodes`prev
      ensures Valid() && x.container == null && x !in nodes && left == count
      ensures View() == RemoveAt(old(View()), p)
    {
      hide Circular, OwnedBy, RemoveAt;
      TakeOut(x, p);
      hide Valid;
      x.container := null;
      assert ValidFor(count - 1, if at > p then at - 1 else at, if index == x then x.prev else index);
      hide ValidFor;
      Settle(count - 1, if index == x then x.prev else index, if at > p then at - 1 else at);
      left := count;
    }

    /** `listGET_OWNER_OF_NEXT_ENTRY` */
    method NextOwner() returns (owner: nat)
      requires Valid() && count > 0
      modifies this`index, this`at
      ensures Valid() && nodes == old(nodes) && View() == Step(old(View())) && owner == Current(View()).owner
    {
      index := index.next;
      at := if at + 1 == |nodes| then 0 else at + 1;
      if index == end {
        index := index.next;
        at := 1;
      }
      owner := index.owner;
    }
  }
}
