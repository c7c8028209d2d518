/** What the colours are for: no way down a red-black tree is long. */
module RbBalance {

  import opened RbShape
  import opened RbErase
  import RbTree

  function Twice(n: nat): nat {
    if n == 0 then 1 else 2 * Twice(n - 1)
  }

  /** A way down: each node on it is a child of the one before. */
  ghost predicate Down(r: seq<Rec>, way: seq<int>) {
    (forall j :: 0 <= j < |way| ==> 0 <= way[j] < |r|)
    && forall j :: 0 < j < |way| ==> way[j] == r[way[j - 1]].left || way[j] == r[way[j - 1]].right
  }

  /** A tree of black height `h` has at least 2^h - 1 nodes. */
  lemma {:induction false} Full(r: seq<Rec>, lo: int, hi: int, i: int, p: int, h: int)
    requires 0 <= lo <= hi <= |r| && Sub(r, lo, hi, i, p, h)
    ensures h >= 0 && Twice(h) <= hi - lo + 1
    decreases hi - lo
  {
    Height(r, lo, hi, i, p, h);
    if i != NIL {
      var k := if r[i].red then h else h - 1;
      Full(r, lo, i, r[i].left, i, k);
      Full(r, i + 1, hi, r[i].right, i, k);
    }
  }

  /** A way down a tree of black height `h` has at most 2h nodes, or one more if it begins with a red one. */
  lemma {:induction false} Shallow(r: seq<Rec>, lo: int, hi: int, i: int, p: int, h: int, way: seq<int>)
    requires 0 <= lo <= hi <= |r| && Sub(r, lo, hi, i, p, h) && 0 <= i < |r|
    requires Down(r, way) && way != [] && way[0] == i
    ensures |way| <= 2 * h + if r[i].red then 1 else 0
    decreases hi - lo
  {
    var k := if r[i].red then h else h - 1;
    Height(r, lo, i, r[i].left, i, k);
    if |way| > 1 {
      var way' := way[1..];
      assert Down(r, way') by {
        forall j | 0 < j < |way'|
          ensures way'[j] == r[way'[j - 1]].left || way'[j] == r[way'[j - 1]].right
        {
          assert way'[j] == way[j + 1] && way'[j - 1] == way[j];
        }
      }
      if way[1] == r[i].left {
        Shallow(r, lo, i, way[1], i, k, way');
      } else {
        Shallow(r, i + 1, hi, way[1], i, k, way');
      }
    }
  }

  /** From the root of a tree of n nodes every way down has at most 2 log(n + 1) nodes. */
  lemma {:induction false} Logarithmic(r: seq<Rec>, top: int, way: seq<int>)
    requires Valid(r, top) && Down(r, way) && way != [] && way[0] == top
    ensures Twice((|way| + 1) / 2) <= |r| + 1
  {
    var h: int :| Sub(r, 0, |r|, top, NIL, h);
    Full(r, 0, |r|, top, NIL, h);
    Shallow(r, 0, |r|, top, NIL, h, way);
    Grows((|way| + 1) / 2, h);
  }

  lemma {:induction false} Grows(m: nat, n: nat)
    requires m <= n
    ensures Twice(m) <= Twice(n)
    decreases n
  {
    if m < n {
      Grows(m, n - 1);
    }
  }

  // ---------------------------------------------------------------- on the heap

  ghost predicate WayDown(way: seq<RbTree.Node>)
    reads way
  {
    forall j :: 0 < j < |way| ==> way[j] == way[j - 1].left || way[j] == way[j - 1].right
  }

  ghost function Numbers(m: map<RbTree.Node, int>, way: seq<RbTree.Node>): seq<int> {
    seq(|way|, j requires 0 <= j < |way| => RbTree.Number(m, way[j]))
  }

  lemma {:induction false} WayNumbered(root: RbTree.Root, way: seq<RbTree.Node>, k: nat)
    requires root.Mirrors() && root.node in root.rank && way != [] && way[0] == root.node && WayDown(way) && k < |way|
    ensures way[k] in root.rank && 0 <= root.rank[way[k]] < |root.recs|
    ensures k > 0 ==> way[k - 1] in root.rank && 0 <= root.rank[way[k - 1]] < |root.recs|
    ensures k > 0 ==>
      var x := root.recs[root.rank[way[k - 1]]];
      root.rank[way[k]] == x.left || root.rank[way[k]] == x.right
  {
    if k > 0 {
      WayNumbered(root, way, k - 1);
      root.Look(way[k - 1]);
    }
    root.Look(way[k]);
  }

  /** In a tree of n nodes no way from the root down has more than 2 log(n + 1) nodes. */
  lemma {:induction false} Balanced(root: RbTree.Root, way: seq<RbTree.Node>)
    requires root.Valid() && way != [] && way[0] == root.node && WayDown(way)
    ensures Twice((|way| + 1) / 2) <= |root.order| + 1
  {
    var w := Numbers(root.rank, way);
    forall k: nat | k < |way|
      ensures 0 <= w[k] < |root.recs|
    {
      WayNumbered(root, way, k);
    }
    forall k: nat | 0 < k < |way|
      ensures w[k] == root.recs[w[k - 1]].left || w[k] == root.recs[w[k - 1]].right
    {
      WayNumbered(root, way, k);
    }
    Logarithmic(root.recs, root.Pos(root.node), w);
  }
}
