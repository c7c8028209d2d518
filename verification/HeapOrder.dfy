/** Binary heaps laid out in a sequence, and the rotation of a path that `sort_r` of `lib/sort.c`
    uses to sift an element down. */
module HeapOrder {

  /** `cmp(x, y) >= 0`. */
  predicate Geq<T>(cmp: (T, T) -> int, x: T, y: T) {
    cmp(x, y) >= 0
  }

  /** The comparison is a total preorder on the elements of `e`. */
  ghost predicate Preorder<T>(cmp: (T, T) -> int, e: seq<T>) {
    (forall x, y :: x in e && y in e ==> Geq(cmp, x, y) || Geq(cmp, y, x))
    && forall x, y, z :: x in e && y in e && z in e && Geq(cmp, x, y) && Geq(cmp, y, z) ==> Geq(cmp, x, z)
  }

  function Par(j: int): int {
    (j - 1) / 2
  }

  /** Every node of the first `n` whose parent is at `a` or later is no greater than its parent. */
  ghost predicate Heap<T>(cmp: (T, T) -> int, e: seq<T>, a: int, n: int)
    requires 0 <= a && n <= |e|
  {
    forall j :: 0 < j < n && a <= Par(j) ==> Geq(cmp, e[Par(j)], e[j])
  }

  /** `x` is `b` or an ancestor of `b`. */
  predicate Above(x: int, b: int)
    requires 0 <= x
    decreases b
  {
    if b <= x then b == x else Above(x, Par(b))
  }

  /** The child of `x` on the way down to `b`. */
  function Toward(x: int, b: int): (c: int)
    requires 0 <= x < b && Above(x, b)
    ensures x < c <= b && Par(c) == x && Above(c, b)
    decreases b
  {
    assert Above(x, Par(b)) && (Par(b) <= x ==> Par(b) == x);
    if Par(b) == x then b else Toward(x, Par(b))
  }

  lemma {:induction false} AboveTrans(x: int, y: int, b: int)
    requires 0 <= x && 0 <= y && Above(x, y) && Above(y, b)
    ensures Above(x, b)
    decreases b
  {
    if b > y {
      AboveTrans(x, y, Par(b));
    }
  }

  /** Each node has one way down to `b`. */
  lemma {:induction false} TowardUnique(j: int, b: int)
    requires 0 < j <= b && Above(j, b)
    ensures Above(Par(j), b) && Toward(Par(j), b) == j
    decreases b
  {
    if b > j {
      TowardUnique(j, Par(b));
    }
  }

  /** The ancestors of a node are in line. */
  lemma {:induction false} InLine(x: int, y: int, b: int)
    requires 0 <= x <= y && Above(x, b) && Above(y, b)
    ensures Above(x, y)
    decreases b
  {
    if b > y {
      InLine(x, y, Par(b));
    }
  }

  /** `e` with the elements on the way from `a` to `b` moved up one place, that of `a` put at `b`. */
  function Rotated<T>(e: seq<T>, a: int, b: int): (r: seq<T>)
    requires 0 <= a <= b < |e| && Above(a, b)
    ensures |r| == |e|
  {
    seq(|e|, x requires 0 <= x < |e| =>
      if x == b then e[a] else if a <= x < b && Above(x, b) then e[Toward(x, b)] else e[x])
  }

  /** The way from `a` down to `b` leads over children not less than their siblings. */
  ghost predicate Greatest<T>(cmp: (T, T) -> int, e: seq<T>, a: int, b: int, n: int)
    requires 0 <= a && n <= |e|
  {
    forall j, k :: a < j < n && 0 < k < n && Above(j, b) && Par(k) == Par(j) && a <= Par(j) ==> Geq(cmp, e[j], e[k])
  }

  /** Rotating the path to the place of `e[a]` makes a heap from `a` on. */
  lemma {:induction false} RotateHeap<T>(cmp: (T, T) -> int, e: seq<T>, a: int, b: int, leaf: int, n: int)
    requires 0 <= a <= b <= leaf < n <= |e| && Above(a, b) && Above(b, leaf) && n <= 2 * leaf + 1
    requires Preorder(cmp, e) && Heap(cmp, e, a + 1, n) && Greatest(cmp, e, a, leaf, n)
    requires b != a ==> !Geq(cmp, e[a], e[b])
    requires b != leaf ==> Geq(cmp, e[a], e[Toward(b, leaf)])
    ensures Heap(cmp, Rotated(e, a, b), a, n)
  {
    var r := Rotated(e, a, b);
    forall j | 0 < j < n && a <= Par(j)
      ensures Geq(cmp, r[Par(j)], r[j])
    {
      RotateAt(cmp, e, a, b, leaf, n, j);
    }
  }

  lemma {:induction false} RotateAt<T>(cmp: (T, T) -> int, e: seq<T>, a: int, b: int, leaf: int, n: int, j: int)
    requires 0 <= a <= b <= leaf < n <= |e| && Above(a, b) && Above(b, leaf) && n <= 2 * leaf + 1
    requires Preorder(cmp, e) && Heap(cmp, e, a + 1, n) && Greatest(cmp, e, a, leaf, n)
    requires b != a ==> !Geq(cmp, e[a], e[b])
    requires b != leaf ==> Geq(cmp, e[a], e[Toward(b, leaf)])
    requires 0 < j < n && a <= Par(j)
    ensures Geq(cmp, Rotated(e, a, b)[Par(j)], Rotated(e, a, b)[j])
  {
    var r, p := Rotated(e, a, b), Par(j);
    if p == b {
      // the element of `a` in its new place
      var c := Toward(b, leaf);
      assert Geq(cmp, e[a], e[c]) && Geq(cmp, e[c], e[j]);
    } else if a <= p < b && Above(p, b) {
      var c := Toward(p, b);
      AboveTrans(c, b, leaf);
      AboveTrans(p, b, leaf);
      assert Geq(cmp, e[c], e[j]);
      if j == c {
        if c == b {
          assert Geq(cmp, e[b], e[a]);
        } else {
          assert Par(Toward(c, b)) == c;
          assert Geq(cmp, e[c], e[Toward(c, b)]);
        }
      } else if j <= b && Above(j, b) {
        TowardUnique(j, b);
      }
    } else if j <= b && Above(j, b) {
      TowardUnique(j, b);
    }
  }

  // ---------------------------------------------------------------- moving along the path

  function Swapped<T>(e: seq<T>, i: int, j: int): (r: seq<T>)
    requires 0 <= i < |e| && 0 <= j < |e|
    ensures |r| == |e|
  {
    e[i := e[j]][j := e[i]]
  }

  /** One more swap with the end of the path lengthens the rotation by one. */
  lemma {:induction false} RotateStep<T>(e: seq<T>, b: int, c: int)
    requires 0 < b <= c < |e| && Above(b, c)
    ensures Above(Par(b), c) && Par(b) < c && Swapped(Rotated(e, b, c), Par(b), c) == Rotated(e, Par(b), c)
  {
    TowardUnique(b, c);
    var p := Par(b);
    var r, r' := Swapped(Rotated(e, b, c), p, c), Rotated(e, p, c);
    forall x | 0 <= x < |e|
      ensures r[x] == r'[x]
    {
      if p < x < b && Above(x, c) {
        InLine(x, b, c);
        BetweenParent(x, b);
      }
    }
  }

  /** Nothing lies between a node and its parent on a path. */
  lemma {:induction false} BetweenParent(x: int, b: int)
    requires 0 < b && Par(b) < x < b
    ensures !Above(x, b)
  {}

  lemma {:induction false} SwapCount<T>(e: seq<T>, i: int, j: int)
    requires 0 <= i < |e| && 0 <= j < |e|
    ensures multiset(Swapped(e, i, j)) == multiset(e)
  {}

  /** A child that is not less than its sibling lengthens the path. */
  lemma {:induction false} GreatestStep<T>(cmp: (T, T) -> int, e: seq<T>, a: int, b: int, c: int, n: int)
    requires 0 <= a <= b < c < n <= |e| && Par(c) == b && Above(a, b) && Greatest(cmp, e, a, b, n) && Preorder(cmp, e)
    requires forall k :: 0 < k < n && Par(k) == b ==> Geq(cmp, e[c], e[k])
    ensures Greatest(cmp, e, a, c, n) && Above(a, c)
  {
    forall j, k | a < j < n && 0 < k < n && Above(j, c) && Par(k) == Par(j) && a <= Par(j)
      ensures Geq(cmp, e[j], e[k])
    {
      if j < c {
        assert Above(j, b);
      }
    }
  }

  // ---------------------------------------------------------------- the sorted part

  /** The root of a heap is its greatest element. */
  lemma {:induction false} RootGreatest<T>(cmp: (T, T) -> int, e: seq<T>, n: int, i: int)
    requires 0 <= i < n <= |e| && Heap(cmp, e, 0, n) && Preorder(cmp, e)
    ensures Geq(cmp, e[0], e[i])
    decreases i
  {
    if i > 0 {
      RootGreatest(cmp, e, n, Par(i));
    }
  }

  /** From `n` on the elements are in ascending order, and none before is greater. */
  ghost predicate Done<T>(cmp: (T, T) -> int, e: seq<T>, n: int)
    requires 0 <= n <= |e|
  {
    forall i, j :: 0 <= i < j < |e| && n <= j ==> Geq(cmp, e[j], e[i])
  }

  /** The greatest element goes to the end of the heap. */
  lemma {:induction false} TakeRoot<T>(cmp: (T, T) -> int, e: seq<T>, n: int)
    requires 0 < n <= |e| && Heap(cmp, e, 0, n) && Done(cmp, e, n) && Preorder(cmp, e)
    ensures Heap(cmp, Swapped(e, 0, n - 1), 1, n - 1) && Done(cmp, Swapped(e, 0, n - 1), n - 1)
  {
    var r := Swapped(e, 0, n - 1);
    forall i, j | 0 <= i < j < |e| && n - 1 <= j
      ensures Geq(cmp, r[j], r[i])
    {
      if j == n - 1 {
        RootGreatest(cmp, e, n, if i == 0 then n - 1 else i);
      }
    }
    forall j | 0 < j < n - 1 && 1 <= Par(j)
      ensures Geq(cmp, r[Par(j)], r[j])
    {
      assert Geq(cmp, e[Par(j)], e[j]);
    }
  }

  lemma {:induction false} RotateDone<T>(cmp: (T, T) -> int, e: seq<T>, a: int, b: int, n: int)
    requires 0 <= a <= b < n <= |e| && Above(a, b) && Done(cmp, e, n)
    ensures Done(cmp, Rotated(e, a, b), n)
  {
    var r := Rotated(e, a, b);
    forall i, j | 0 <= i < j < |e| && n <= j
      ensures Geq(cmp, r[j], r[i])
    {
      var k := if i == b then a else if a <= i < b && Above(i, b) then Toward(i, b) else i;
      assert r[i] == e[k] && r[j] == e[j] && k < j;
    }
  }

  lemma {:induction false} SamePreorder<T>(cmp: (T, T) -> int, e: seq<T>, r: seq<T>)
    requires Preorder(cmp, e) && multiset(e) == multiset(r)
    ensures Preorder(cmp, r)
  {
    forall x | x in r
      ensures x in e
    {
      assert x in multiset(r);
    }
  }

  ghost predicate Sorted<T>(cmp: (T, T) -> int, e: seq<T>) {
    forall i, j :: 0 <= i < j < |e| ==> Geq(cmp, e[j], e[i])
  }
}
