/** What the kernel's circular lists stand for: a sequence of items and a cursor, and the order in which
    the cursor will come to the items. */
module Rings {

  /** `at` is 0 when the cursor is on the end marker, and k when it is on the k-th item. */
  datatype Ring<T> = Ring(items: seq<T>, at: nat)

  ghost predicate Ok<T>(r: Ring<T>) {
    r.at <= |r.items|
  }

  /** The items in the order in which stepping on returns them. */
  function Upcoming<T>(r: Ring<T>): (u: seq<T>)
    requires r.at <= |r.items|
    ensures |u| == |r.items|
  {
    r.items[r.at..] + r.items[..r.at]
  }

  /** Insertion before the cursor, wherever that is. */
  function InsertEnd<T>(r: Ring<T>, x: T): (r': Ring<T>)
    requires r.at <= |r.items|
    ensures r'.at <= |r'.items|
  {
    if r.at == 0 then Ring(r.items + [x], 0)
    else Ring(r.items[..r.at - 1] + [x] + r.items[r.at - 1..], r.at + 1)
  }

  function InsertAt<T>(r: Ring<T>, p: nat, x: T): (r': Ring<T>)
    requires r.at <= |r.items| && p <= |r.items|
    ensures r'.at <= |r'.items|
  {
    Ring(r.items[..p] + [x] + r.items[p..], if r.at > p then r.at + 1 else r.at)
  }

  function RemoveAt<T>(r: Ring<T>, p: nat): (r': Ring<T>)
    requires r.at <= |r.items| && p < |r.items|
    ensures r'.at <= |r'.items|
  {
    Ring(r.items[..p] + r.items[p + 1..], if r.at > p then r.at - 1 else r.at)
  }

  /** The cursor steps on, over the end marker. */
  function Step<T>(r: Ring<T>): (r': Ring<T>)
    requires r.at <= |r.items| && r.items != []
    ensures 1 <= r'.at <= |r'.items|
  {
    r.(at := if r.at == |r.items| then 1 else r.at + 1)
  }

  function Current<T>(r: Ring<T>): T
    requires 1 <= r.at <= |r.items|
  {
    r.items[r.at - 1]
  }

  // ----- rotation

  /** Stepping on returns the first item to come and puts it last. */
  lemma StepRotates<T>(r: Ring<T>)
    requires Ok(r) && r.items != []
    ensures Current(Step(r)) == Upcoming(r)[0]
    ensures Upcoming(Step(r)) == Upcoming(r)[1..] + [Upcoming(r)[0]]
  {
    if r.at == |r.items| {
      assert Upcoming(r) == r.items;
    } else {
      assert Upcoming(r)[0] == r.items[r.at];
      assert Upcoming(r)[1..] == r.items[r.at + 1..] + r.items[..r.at];
      assert r.items[..r.at + 1] == r.items[..r.at] + [r.items[r.at]];
    }
  }

  /** A new item at the end comes after every other, the current one excepted. */
  lemma InsertEndComesLast<T>(r: Ring<T>, x: T)
    requires Ok(r)
    ensures Upcoming(InsertEnd(r, x)) ==
            if r.at == 0 then Upcoming(r) + [x]
            else Upcoming(r)[..|r.items| - 1] + [x] + [Current(r)]
  {
    if r.at == 0 {
      assert Upcoming(r) == r.items;
    } else {
      var u := Upcoming(r);
      assert u[..|r.items| - 1] == r.items[r.at..] + r.items[..r.at - 1];
      assert InsertEnd(r, x).items[r.at + 1..] == r.items[r.at..];
      assert InsertEnd(r, x).items[..r.at + 1] == r.items[..r.at - 1] + [x] + [r.items[r.at - 1]];
    }
  }

  /** Removing an item leaves the order of the others as it was, even when the cursor was on it. */
  lemma RemoveKeepsOrder<T>(r: Ring<T>, p: nat)
    requires Ok(r) && p < |r.items|
    ensures var u, k := Upcoming(r), if p < r.at then |r.items| - r.at + p else p - r.at;
            u[k] == r.items[p] && Upcoming(RemoveAt(r, p)) == u[..k] + u[k + 1..]
  {
    var u, k := Upcoming(r), if p < r.at then |r.items| - r.at + p else p - r.at;
    var r' := RemoveAt(r, p);
    if p < r.at {
      assert r'.items[r'.at..] == r.items[r.at..];
      assert r'.items[..r'.at] == r.items[..p] + r.items[p + 1..r.at];
      assert u[..k] == r.items[r.at..] + r.items[..p];
      assert u[k + 1..] == r.items[p + 1..r.at];
    } else {
      assert r'.items[r'.at..] == r.items[r.at..p] + r.items[p + 1..];
      assert r'.items[..r'.at] == r.items[..r.at];
      assert u[..k] == r.items[r.at..p];
      assert u[k + 1..] == r.items[p + 1..] + r.items[..r.at];
    }
  }

  function Steps<T>(r: Ring<T>, n: nat): (r': Ring<T>)
    requires r.at <= |r.items| && r.items != []
    ensures r'.items == r.items && r'.at <= |r.items|
  {
    if n == 0 then r else Step(Steps(r, n - 1))
  }

  lemma RotateOnce<T>(u: seq<T>, n: nat)
    requires 0 < n <= |u|
    ensures (u[n - 1..] + u[..n - 1])[0] == u[n - 1]
    ensures (u[n - 1..] + u[..n - 1])[1..] + [u[n - 1]] == u[n..] + u[..n]
  {
  }

  /** Round robin: as many steps as there are items return every item once, in the order foretold. */
  lemma {:induction false} FairRound<T>(r: Ring<T>, n: nat)
    requires Ok(r) && r.items != [] && n <= |r.items|
    ensures Upcoming(Steps(r, n)) == Upcoming(r)[n..] + Upcoming(r)[..n]
    ensures n > 0 ==> Current(Steps(r, n)) == Upcoming(r)[n - 1]
  {
    hide Upcoming, Step;
    if n > 0 {
      FairRound(r, n - 1);
      StepRotates(Steps(r, n - 1));
      RotateOnce(Upcoming(r), n);
    } else {
      assert Upcoming(r)[0..] + Upcoming(r)[..0] == Upcoming(r);
    }
  }

  // ----- sorted insertion

  ghost predicate Sorted(values: seq<nat>) {
    forall i, j :: 0 <= i < j < |values| ==> values[i] <= values[j]
  }

  /** Behind the items that are not greater, up to the first that is. */
  function InsertPos(values: seq<nat>, v: nat): (p: nat)
    ensures p <= |values|
    ensures forall i :: 0 <= i < p ==> values[i] <= v
    ensures p < |values| ==> values[p] > v
  {
    if values == [] || values[0] > v then 0 else 1 + InsertPos(values[1..], v)
  }

  lemma InsertPosUnique(values: seq<nat>, v: nat, p: nat)
    requires p <= |values| && (forall i :: 0 <= i < p ==> values[i] <= v) && (p < |values| ==> values[p] > v)
    ensures p == InsertPos(values, v)
  {
  }

  /** A sorted list stays sorted, and the new item stands behind all of its value: equal values keep
      their order of arrival. */
  lemma InsertSorted(values: seq<nat>, v: nat)
    requires Sorted(values)
    ensures var p := InsertPos(values, v);
            && Sorted(values[..p] + [v] + values[p..])
            && forall i :: p <= i < |values| ==> values[i] > v
  {
    hide InsertPos;
    var p := InsertPos(values, v);
    forall i | p <= i < |values|
      ensures values[i] > v
    {
      assert p < |values|;
      assert values[p] <= values[i];
    }
    var r := values[..p] + [v] + values[p..];
    forall i, j | 0 <= i < j < |r|
      ensures r[i] <= r[j]
    {
      assert r[i] == if i < p then values[i] else if i == p then v else values[i - 1];
      assert r[j] == if j < p then values[j] else if j == p then v else values[j - 1];
    }
  }
}
