/** Ancestors in the resource tree of `kernel/resource.c`: which nodes lie below which, what removing a
    node takes away, and which busy regions `__release_region` can reach. */
module ResourcePaths {

  import opened ResourceShape

  const BUSY: bv32 := 0x8000_0000

  predicate Busy(r: Rec) {
    r.flags & BUSY != 0
  }

  /** The child of `q` that is `x` or above it; null if `x` is not below `q`. */
  ghost function Over(m: Image, root: Resource, rank: map<Resource, nat>, x: Resource, q: Resource): Resource?
    requires Wf(m, root, rank) && x in m
    decreases rank[root] - (assert Nested(m, root, rank, x); rank[x])
  {
    assert Nested(m, root, rank, x);
    if x == root then null else if m[x].parent == q then x
    else
      assert Nested(m, root, rank, m[x].parent);
      Over(m, root, rank, m[x].parent, q)
  }

  lemma {:induction false} OverFacts(m: Image, root: Resource, rank: map<Resource, nat>, x: Resource, q: Resource)
    requires Wf(m, root, rank) && x in m && Over(m, root, rank, x, q) != null
    ensures var c := Over(m, root, rank, x, q);
      Kid(m, root, c, q) && Inside(m[x], m[c]) && rank[x] <= rank[c] && q in m && rank[c] < rank[q]
    decreases rank[root] - (assert Nested(m, root, rank, x); rank[x])
  {
    assert Nested(m, root, rank, x);
    if m[x].parent != q {
      assert Nested(m, root, rank, m[x].parent);
      OverFacts(m, root, rank, m[x].parent, q);
    }
  }

  lemma {:induction false} OverRoot(m: Image, root: Resource, rank: map<Resource, nat>, x: Resource)
    requires Wf(m, root, rank) && x in m && x != root
    ensures Over(m, root, rank, x, root) != null
    decreases rank[root] - (assert Nested(m, root, rank, x); rank[x])
  {
    assert Nested(m, root, rank, x);
    if m[x].parent != root {
      assert Nested(m, root, rank, m[x].parent);
      OverRoot(m, root, rank, m[x].parent);
    }
  }

  lemma {:induction false} OverDown(m: Image, root: Resource, rank: map<Resource, nat>, x: Resource, q: Resource)
    requires Wf(m, root, rank) && x in m && Over(m, root, rank, x, q) != null && Over(m, root, rank, x, q) != x
    ensures Over(m, root, rank, x, Over(m, root, rank, x, q)) != null
    decreases rank[root] - (assert Nested(m, root, rank, x); rank[x])
  {
    assert Nested(m, root, rank, x);
    if m[x].parent != q {
      var p := m[x].parent;
      assert Nested(m, root, rank, p);
      if Over(m, root, rank, p, q) != p {
        OverDown(m, root, rank, p, q);
      }
    }
  }

  /** Two children of a node that share an address are the same. */
  lemma {:induction false} SameKid(m: Image, root: Resource, rank: map<Resource, nat>, q: Resource, a: Resource,
      b: Resource, x: int)
    requires Wf(m, root, rank) && Kid(m, root, a, q) && Kid(m, root, b, q)
    requires m[a].start <= x <= m[a].end && m[b].start <= x <= m[b].end
    ensures a == b
  {
    TwoKids(m, root, rank, q, a, b);
  }

  lemma {:induction false} SameSlot(m: Image, root: Resource, rank: map<Resource, nat>, q: Resource, a: Resource?,
      b: Resource?)
    requires Wf(m, root, rank) && q in m && (a != null ==> Kid(m, root, a, q)) && (b != null ==> Kid(m, root, b, q))
    requires At(m, q, a) == At(m, q, b) != null
    ensures a == b
  {
    var x := At(m, q, a);
    assert Linked(m, root, q);
    if a != null {
      TwoKids(m, root, rank, q, a, if b == null then a else b);
    }
    if b != null {
      TwoKids(m, root, rank, q, b, b);
    }
  }

  // ---------------------------------------------------------------- taking a node away

  ghost predicate Under(m: Image, root: Resource, rank: map<Resource, nat>, x: Resource, r: Resource)
    requires Wf(m, root, rank) && x in m
  {
    x == r || Over(m, root, rank, x, r) != null
  }

  /** The tree without `r` and what is below it. */
  ghost function Removed(m: Image, root: Resource, rank: map<Resource, nat>, q: Resource, prev: Resource?,
      r: Resource): Image
    requires Wf(m, root, rank) && q in m && (prev == null || prev in m) && r in m
  {
    map x | x in m && !Under(m, root, rank, x, r) :: SetSlot(m, q, prev, m[r].sibling)[x]
  }

  lemma {:induction false} UnderKid(m: Image, root: Resource, rank: map<Resource, nat>, x: Resource, r: Resource)
    requires Wf(m, root, rank) && x in m && x != root
    ensures m[x].parent != null && m[x].parent in m
    ensures Under(m, root, rank, x, r) <==> x == r || Under(m, root, rank, m[x].parent, r)
  {
    assert Nested(m, root, rank, x);
    assert Nested(m, root, rank, m[x].parent);
  }

  /** Where `r` hangs. */
  ghost predicate Hangs(m: Image, root: Resource, q: Resource, prev: Resource?, r: Resource) {
    true == (q in m && (prev != null ==> Kid(m, root, prev, q)) && Kid(m, root, r, q) && At(m, q, prev) == r)
  }

  lemma {:induction false} KeptNodes(m: Image, root: Resource, rank: map<Resource, nat>, q: Resource, prev: Resource?,
      r: Resource)
    requires Wf(m, root, rank) && Hangs(m, root, q, prev, r)
    ensures var m' := Removed(m, root, rank, q, prev, r);
      root in m' && q in m' && (prev != null ==> prev in m')
  {
    assert Nested(m, root, rank, r);
    if Under(m, root, rank, q, r) && q != r {
      OverFacts(m, root, rank, q, r);
    }
    if prev != null {
      UnderKid(m, root, rank, prev, r);
      assert Linked(m, root, prev);
    }
  }

  lemma {:induction false} KeptKid(m: Image, root: Resource, rank: map<Resource, nat>, q: Resource, prev: Resource?,
      r: Resource, b: Resource, p: Resource)
    requires Wf(m, root, rank) && Hangs(m, root, q, prev, r) && p in Removed(m, root, rank, q, prev, r)
    ensures Kid(Removed(m, root, rank, q, prev, r), root, b, p) <==> Kid(m, root, b, p) && b != r
  {
    if b in m && b != root {
      UnderKid(m, root, rank, b, r);
    }
  }

  lemma {:induction false} KeptSlot(m: Image, root: Resource, rank: map<Resource, nat>, q: Resource, prev: Resource?,
      r: Resource, p: Resource, pr: Resource?)
    requires Wf(m, root, rank) && Hangs(m, root, q, prev, r)
    requires var m' := Removed(m, root, rank, q, prev, r);
      p in m' && (pr != null ==> pr in m' && Kid(m, root, pr, p))
    ensures SlotOk(Removed(m, root, rank, q, prev, r), root, p, pr)
  {
    var m' := Removed(m, root, rank, q, prev, r);
    assert Linked(m, root, p) && (pr != null ==> Linked(m, root, pr));
    assert SlotOk(m, root, p, pr);
    forall b | Kid(m', root, b, p)
      ensures Kid(m, root, b, p) && b != r
    {
      KeptKid(m, root, rank, q, prev, r, b, p);
    }
    var y := At(m, p, pr);
    if y == r {
      SameSlot(m, root, rank, q, prev, pr);
      var z := m[r].sibling;
      TwoKids(m, root, rank, q, r, r);
      forall b | Kid(m', root, b, p)
        ensures m[b].start <= Low(m, pr) || m[r].start < m[b].start
      {
        TwoKids(m, root, rank, q, r, b);
      }
      if z != null {
        KeptKid(m, root, rank, q, prev, r, z, p);
      }
    } else if y != null {
      KeptKid(m, root, rank, q, prev, r, y, p);
    }
  }

  /** Taking a node and what is below it out of the tree keeps the shape. */
  lemma {:induction false} RemovedKeeps(m: Image, root: Resource, rank: map<Resource, nat>, q: Resource,
      prev: Resource?, r: Resource)
    requires Wf(m, root, rank) && Hangs(m, root, q, prev, r)
    ensures Wf(Removed(m, root, rank, q, prev, r), root, rank)
  {
    var m' := Removed(m, root, rank, q, prev, r);
    KeptNodes(m, root, rank, q, prev, r);
    forall x | x in m'
      ensures Nested(m', root, rank, x)
    {
      assert Nested(m, root, rank, x);
      if x != root {
        UnderKid(m, root, rank, x, r);
      }
    }
    forall x | x in m'
      ensures Linked(m', root, x)
    {
      KeptSlot(m, root, rank, q, prev, r, x, null);
      if x != root {
        UnderKid(m, root, rank, x, r);
        KeptSlot(m, root, rank, q, prev, r, m[x].parent, x);
      }
    }
    forall a, b, p | Kid(m', root, a, p) && Kid(m', root, b, p) && a != b
      ensures Apart(m'[a], m'[b])
    {
      assert Kid(m, root, a, p) && Kid(m, root, b, p);
    }
  }

  /** Taking out the leaf that was linked in restores the tree. */
  lemma {:induction false} LeafRemoved(m: Image, root: Resource, rank: map<Resource, nat>, q: Resource,
      prev: Resource?, x: Resource, rec: Rec, q': Resource, prev': Resource?)
    requires Wf(m, root, rank) && q in m && x !in m && Fits(m, root, q, prev, rec)
    requires Hangs(WithLeaf(m, q, prev, x, rec), root, q', prev', x)
    ensures var m', rank' := WithLeaf(m, q, prev, x, rec), Spread(rank, x, q);
      Wf(m', root, rank') && Removed(m', root, rank', q', prev', x) == m
  {
    var m', rank' := WithLeaf(m, q, prev, x, rec), Spread(rank, x, q);
    LeafKeeps(m, root, rank, q, prev, x, rec);
    assert Kid(m', root, x, q);
    if prev != null {
      LeafKid(m, root, q, prev, x, rec, prev, q);
    }
    SameSlot(m', root, rank', q, prev, prev');
    forall c | c in m && c != root
      ensures m[c].parent != x
    {
      assert Nested(m, root, rank, c);
    }
    forall r | r in m
      ensures !Under(m', root, rank', r, x)
    {
      if Over(m', root, rank', r, x) != null {
        OverFacts(m', root, rank', r, x);
        LeafKid(m, root, q, prev, x, rec, Over(m', root, rank', r, x), x);
      }
    }
    assert Removed(m', root, rank', q', prev', x).Keys == m.Keys;
  }

  // ---------------------------------------------------------------- what can be reached past busy nodes

  /** No node between `x` and the root is busy. */
  ghost predicate Open(m: Image, root: Resource, rank: map<Resource, nat>, x: Resource)
    requires Wf(m, root, rank) && x in m
    decreases rank[root] - (assert Nested(m, root, rank, x); rank[x])
  {
    assert Nested(m, root, rank, x);
    x == root || m[x].parent == root
    || (assert Nested(m, root, rank, m[x].parent); !Busy(m[m[x].parent]) && Open(m, root, rank, m[x].parent))
  }

  /** The way to the children of `q` is free. */
  ghost predicate Enters(m: Image, root: Resource, rank: map<Resource, nat>, q: Resource)
    requires Wf(m, root, rank)
  {
    q in m && Open(m, root, rank, q) && (q == root || !Busy(m[q]))
  }

  lemma {:induction false} EntersKid(m: Image, root: Resource, rank: map<Resource, nat>, q: Resource, c: Resource)
    requires Wf(m, root, rank) && Enters(m, root, rank, q) && Kid(m, root, c, q)
    ensures Open(m, root, rank, c)
  {
    assert Nested(m, root, rank, c);
  }

  lemma {:induction false} OpenOver(m: Image, root: Resource, rank: map<Resource, nat>, x: Resource, q: Resource)
    requires Wf(m, root, rank) && x in m && Open(m, root, rank, x)
    requires Over(m, root, rank, x, q) != null && Over(m, root, rank, x, q) != x
    ensures var c := Over(m, root, rank, x, q);
      c in m && !Busy(m[c])
    decreases rank[root] - (assert Nested(m, root, rank, x); rank[x])
  {
    assert Nested(m, root, rank, x);
    OverFacts(m, root, rank, x, q);
    if m[x].parent != q {
      var p := m[x].parent;
      assert Nested(m, root, rank, p);
      if Over(m, root, rank, p, q) != p {
        OpenOver(m, root, rank, p, q);
      }
    }
  }

  /** A busy region of exactly this range, below no other busy node. */
  ghost predicate Region(m: Image, root: Resource, rank: map<Resource, nat>, start: nat, end: nat, older x: Resource)
    requires Wf(m, root, rank)
  {
    x in m && x != root && m[x].start == start && m[x].end == end && Busy(m[x]) && Open(m, root, rank, x)
  }

  /** Every such region is below `q`, at or after the slot behind `prev`. */
  ghost predicate Awaits(m: Image, root: Resource, rank: map<Resource, nat>, start: nat, end: nat, q: Resource,
      prev: Resource?)
    requires Wf(m, root, rank) && (prev != null ==> prev in m)
  {
    forall x {:trigger Region(m, root, rank, start, end, x)} :: Region(m, root, rank, start, end, x) ==>
      AwaitsOne(m, root, rank, x, q, prev)
  }

  ghost predicate AwaitsOne(m: Image, root: Resource, rank: map<Resource, nat>, x: Resource, q: Resource,
      prev: Resource?)
    requires Wf(m, root, rank) && x in m && (prev != null ==> prev in m)
  {
    var c := Over(m, root, rank, x, q);
    c != null && c in m && m[c].start > Low(m, prev)
  }

  lemma {:induction false} AwaitsAll(m: Image, root: Resource, rank: map<Resource, nat>, start: nat, end: nat)
    requires Wf(m, root, rank)
    ensures Awaits(m, root, rank, start, end, root, null)
  {
    forall x | Region(m, root, rank, start, end, x)
      ensures AwaitsOne(m, root, rank, x, root, null)
    {
      OverRoot(m, root, rank, x);
      OverFacts(m, root, rank, x, root);
    }
  }

  /** What the child of `q` above a region has to do with the child `c` that comes next. */
  lemma {:induction false} Meets(m: Image, root: Resource, rank: map<Resource, nat>, start: nat, end: nat, q: Resource,
      prev: Resource?, x: Resource)
    requires Wf(m, root, rank) && q in m && (prev != null ==> Kid(m, root, prev, q))
    requires Region(m, root, rank, start, end, x)
    requires AwaitsOne(m, root, rank, x, q, prev)
    ensures var c := At(m, q, prev);
      c != null && Kid(m, root, c, q)
      && (if m[c].start <= start && end <= m[c].end then Over(m, root, rank, x, q) == c && (x == c || !Busy(m[c]))
          else AwaitsOne(m, root, rank, x, q, c))
  {
    var k, c := Over(m, root, rank, x, q), At(m, q, prev);
    OverFacts(m, root, rank, x, q);
    assert Nested(m, root, rank, x);
    assert Linked(m, root, q) && (prev != null ==> Linked(m, root, prev));
    assert SlotOk(m, root, q, prev);
    TwoKids(m, root, rank, q, k, c);
    if m[c].start <= start && end <= m[c].end {
      SameKid(m, root, rank, q, k, c, start);
      if x != c {
        OpenOver(m, root, rank, x, q);
      }
    }
  }

  // ---------------------------------------------------------------- what stands in the way of a region

  ghost predicate Clear(r: Rec, start: nat, end: nat) {
    end < r.start || r.end < start
  }

  ghost predicate Holds(r: Rec, start: nat, end: nat) {
    r.start <= start && end <= r.end
  }

  /** A node below no busy one that overlaps the range and is busy or does not hold all of it. */
  ghost predicate Blocks(m: Image, root: Resource, rank: map<Resource, nat>, start: nat, end: nat, older c: Resource)
    requires Wf(m, root, rank)
  {
    c in m && c != root && Open(m, root, rank, c) && !Clear(m[c], start, end)
        && (Busy(m[c]) || !Holds(m[c], start, end))
  }

  /** All that blocks the range is below `q`. */
  ghost predicate Below(m: Image, root: Resource, rank: map<Resource, nat>, start: nat, end: nat, q: Resource)
    requires Wf(m, root, rank)
  {
    forall c {:trigger Blocks(m, root, rank, start, end, c)} :: Blocks(m, root, rank, start, end, c) ==>
        Over(m, root, rank, c, q) != null
  }

  lemma {:induction false} BelowRoot(m: Image, root: Resource, rank: map<Resource, nat>, start: nat, end: nat)
    requires Wf(m, root, rank)
    ensures Below(m, root, rank, start, end, root)
  {
    forall c | Blocks(m, root, rank, start, end, c)
      ensures Over(m, root, rank, c, root) != null
    {
      OverRoot(m, root, rank, c);
    }
  }

  lemma {:induction false} BelowKid(m: Image, root: Resource, rank: map<Resource, nat>, start: nat, end: nat,
      q: Resource, f: Resource)
    requires Wf(m, root, rank) && start <= end && Below(m, root, rank, start, end, q)
    requires Kid(m, root, f, q) && !Busy(m[f]) && Holds(m[f], start, end)
    ensures Below(m, root, rank, start, end, f)
  {
    forall c | Blocks(m, root, rank, start, end, c)
      ensures Over(m, root, rank, c, f) != null
    {
      var k := Over(m, root, rank, c, q);
      OverFacts(m, root, rank, c, q);
      assert Nested(m, root, rank, c);
      SameKid(m, root, rank, q, k, f, if m[c].start < start then start else m[c].start);
      OverDown(m, root, rank, c, q);
    }
  }

  /** A gap among the children of `q` leaves nothing to block the range. */
  lemma {:induction false} BelowGap(m: Image, root: Resource, rank: map<Resource, nat>, q: Resource, prev: Resource?,
      x: Resource, rec: Rec, c: Resource)
    requires Wf(m, root, rank) && q in m && x !in m && Fits(m, root, q, prev, rec)
    requires Below(m, root, rank, rec.start, rec.end, q)
    ensures !Blocks(m, root, rank, rec.start, rec.end, c)
  {
    if Blocks(m, root, rank, rec.start, rec.end, c) {
      assert Nested(m, root, rank, c);
      OverFacts(m, root, rank, c, q);
      LeafDisjoint(m, root, rank, q, prev, x, rec, Over(m, root, rank, c, q));
    }
  }

  lemma {:induction false} InsideRoot(m: Image, root: Resource, rank: map<Resource, nat>, x: Resource)
    requires Wf(m, root, rank) && x in m
    ensures Inside(m[x], m[root])
  {
    if x != root {
      OverRoot(m, root, rank, x);
      OverFacts(m, root, rank, x, root);
      assert Nested(m, root, rank, Over(m, root, rank, x, root));
    }
  }

  /** A new leaf is in nobody's way. */
  lemma {:induction false} LeafOpen(m: Image, root: Resource, rank: map<Resource, nat>, q: Resource, prev: Resource?,
      x: Resource, rec: Rec, r: Resource)
    requires Wf(m, root, rank) && q in m && x !in m && Fits(m, root, q, prev, rec) && r in m && Open(m, root, rank, r)
    ensures var m', rank' := WithLeaf(m, q, prev, x, rec), Spread(rank, x, q);
      Wf(m', root, rank') && Open(m', root, rank', r)
    decreases rank[root] - (assert Nested(m, root, rank, r); rank[r])
  {
    LeafKeeps(m, root, rank, q, prev, x, rec);
    assert Nested(m, root, rank, r);
    if r != root && m[r].parent != root {
      assert Nested(m, root, rank, m[r].parent);
      LeafOpen(m, root, rank, q, prev, x, rec, m[r].parent);
    }
  }

  lemma {:induction false} OpenBack(m: Image, root: Resource, rank: map<Resource, nat>, q: Resource, prev: Resource?,
      x: Resource, rec: Rec, m': Image, rank': map<Resource, nat>, r: Resource)
    requires Wf(m, root, rank) && q in m && x !in m && Fits(m, root, q, prev, rec) && r in m
    requires m' == WithLeaf(m, q, prev, x, rec) && rank' == Spread(rank, x, q) && Wf(m', root, rank')
    requires Open(m', root, rank', r)
    ensures Open(m, root, rank, r)
    decreases rank[root] - (assert Nested(m, root, rank, r); rank[r])
  {
    assert Nested(m, root, rank, r);
    if r != root && m[r].parent != root {
      assert Nested(m, root, rank, m[r].parent);
      assert Nested(m', root, rank', r) && m'[r].parent == m[r].parent;
      OpenBack(m, root, rank, q, prev, x, rec, m', rank', m[r].parent);
    }
  }

  // ---------------------------------------------------------------- the descent of a request

  /** `c` is the first child of `q` that shares an address with `x`, and comes after `prev`. */
  ghost predicate FirstTouched(m: Image, root: Resource, q: Resource, x: Rec, prev: Resource?, c: Resource)
  {
    true == (q in m && Kid(m, root, c, q) && !Apart(m[c], x) && x.start <= x.end && Inside(x, m[q])
    && (prev != null ==> Kid(m, root, prev, q) && m[prev].end < x.start) && At(m, q, prev) == c)
  }

  /** The request has come down to `q`: nothing above is busy, and what blocks it is below. */
  ghost predicate Searching(m: Image, root: Resource, rank: map<Resource, nat>, start: nat, end: nat, q: Resource)
    requires Wf(m, root, rank)
  {
    true == (Enters(m, root, rank, q) && (q != root ==> !Clear(m[q], start, end))
    && (start <= end && Holds(m[q], start, end) ==> Below(m, root, rank, start, end, q)))
  }

  lemma {:induction false} SearchRoot(m: Image, root: Resource, rank: map<Resource, nat>, start: nat, end: nat)
    requires Wf(m, root, rank)
    ensures Searching(m, root, rank, start, end, root)
  {
    BelowRoot(m, root, rank, start, end);
  }

  lemma {:induction false} SearchKid(m: Image, root: Resource, rank: map<Resource, nat>, q: Resource, x: Rec,
      prev: Resource?, c: Resource)
    requires Wf(m, root, rank) && Searching(m, root, rank, x.start, x.end, q) && FirstTouched(m, root, q, x, prev, c)
    ensures if Busy(m[c]) then Blocks(m, root, rank, x.start, x.end, c)
        else Searching(m, root, rank, x.start, x.end, c) && rank[c] < rank[q]
  {
    EntersKid(m, root, rank, q, c);
    assert Nested(m, root, rank, c);
    if !Busy(m[c]) && Holds(m[c], x.start, x.end) {
      BelowKid(m, root, rank, x.start, x.end, q, c);
    }
  }

  /** A region of that range was put in as a leaf below `q`. */
  ghost predicate Placed(m: Image, root: Resource, rank: map<Resource, nat>, start: nat, end: nat, q: Resource,
      prev: Resource?, x: Resource, rec: Rec, m': Image, rank': map<Resource, nat>)
  {
    true == (Wf(m, root, rank) && q in m && x !in m && Fits(m, root, q, prev, rec)
    && m' == WithLeaf(m, q, prev, x, rec) && rank' == Spread(rank, x, q)
    && Wf(m', root, rank') && Region(m', root, rank', start, end, x))
  }

  /** Nothing blocks the range. */
  ghost predicate Unblocked(m: Image, root: Resource, rank: map<Resource, nat>, start: nat, end: nat)
    requires Wf(m, root, rank)
  {
    forall c :: !Blocks(m, root, rank, start, end, c)
  }

  /** Then nothing blocks a part of it, */
  lemma {:induction false} PartUnblocked(m: Image, root: Resource, rank: map<Resource, nat>, start: nat, end: nat,
      from: nat, to: nat)
    requires Wf(m, root, rank) && Unblocked(m, root, rank, start, end) && start <= from <= to <= end
    ensures Unblocked(m, root, rank, from, to)
  {
    forall c
      ensures !Blocks(m, root, rank, from, to, c)
    {
      assert !Blocks(m, root, rank, start, end, c);
    }
  }

  /** nor what is left of it behind a region put in at its start. */
  lemma {:induction false} Beside(m: Image, root: Resource, rank: map<Resource, nat>, start: nat, mid: nat, next: nat,
      end: nat, q: Resource, prev: Resource?, x: Resource, rec: Rec, m': Image, rank': map<Resource, nat>)
    requires Placed(m, root, rank, start, mid, q, prev, x, rec, m', rank') && start <= mid < end && next == mid + 1
    requires Unblocked(m, root, rank, start, end)
    ensures Unblocked(m', root, rank', next, end)
  {
    PartUnblocked(m, root, rank, start, end, next, end);
    forall c
      ensures !Blocks(m', root, rank', next, end, c)
    {
      if Blocks(m', root, rank', next, end, c) && c != x {
        OpenBack(m, root, rank, q, prev, x, rec, m', rank', c);
        assert Blocks(m, root, rank, next, end, c);
      }
    }
  }

  /** A new leaf leaves the ranges of the others alone. */
  lemma {:induction false} SameRanges(m: Image, root: Resource, rank: map<Resource, nat>, start: nat, end: nat,
      q: Resource, prev: Resource?, x: Resource, rec: Rec, m': Image, rank': map<Resource, nat>, r: Resource)
    requires Placed(m, root, rank, start, end, q, prev, x, rec, m', rank') && r in m
    ensures r in m' && m'[r].start == m[r].start && m'[r].end == m[r].end
  {}

  lemma {:induction false} SearchGap(m: Image, root: Resource, rank: map<Resource, nat>, q: Resource, prev: Resource?,
      x: Resource, rec: Rec)
    requires Wf(m, root, rank) && Searching(m, root, rank, rec.start, rec.end, q) && x !in m
    requires Fits(m, root, q, prev, rec) && Busy(rec)
    ensures Placed(m, root, rank, rec.start, rec.end, q, prev, x, rec, WithLeaf(m, q, prev, x, rec), Spread(rank, x, q))
    ensures Holds(m[root], rec.start, rec.end) && rec.start <= rec.end
    ensures forall c :: !Blocks(m, root, rank, rec.start, rec.end, c)
  {
    forall c
      ensures !Blocks(m, root, rank, rec.start, rec.end, c)
    {
      BelowGap(m, root, rank, q, prev, x, rec, c);
    }
    InsideRoot(m, root, rank, q);
    LeafOpen(m, root, rank, q, prev, x, rec, q);
    EntersKid(WithLeaf(m, q, prev, x, rec), root, Spread(rank, x, q), q, x);
  }

  // ---------------------------------------------------------------- the walk of a release

  /** The walk stands at the slot after `prev` among the children of `q`. */
  ghost predicate Walking(m: Image, root: Resource, rank: map<Resource, nat>, start: nat, end: nat, q: Resource,
      prev: Resource?)
    requires Wf(m, root, rank)
  {
    true == (Enters(m, root, rank, q) && (prev != null ==> Kid(m, root, prev, q))
    && Awaits(m, root, rank, start, end, q, prev))
  }

  lemma {:induction false} WalkRoot(m: Image, root: Resource, rank: map<Resource, nat>, start: nat, end: nat)
    requires Wf(m, root, rank)
    ensures Walking(m, root, rank, start, end, root, null)
  {
    AwaitsAll(m, root, rank, start, end);
  }

  ghost predicate NoRegion(m: Image, root: Resource, rank: map<Resource, nat>, start: nat, end: nat, but: Resource?)
    requires Wf(m, root, rank)
  {
    forall x {:trigger Region(m, root, rank, start, end, x)} :: Region(m, root, rank, start, end, x) ==> x == but
  }

  /** Where the walk ends or goes on. */
  lemma {:induction false} WalkStep(m: Image, root: Resource, rank: map<Resource, nat>, start: nat, end: nat,
      q: Resource, prev: Resource?)
    requires Wf(m, root, rank) && Walking(m, root, rank, start, end, q, prev)
    ensures var c := At(m, q, prev);
      (c == null ==> NoRegion(m, root, rank, start, end, null))
      && (c != null ==> Kid(m, root, c, q) && rank[c] < rank[q] && Low(m, prev) < m[c].start <= m[q].end)
      && (c != null && !Holds(m[c], start, end) ==> Walking(m, root, rank, start, end, q, c))
      && (c != null && Holds(m[c], start, end) && !Busy(m[c]) ==> Walking(m, root, rank, start, end, c, null))
      && (c != null && Holds(m[c], start, end) && Busy(m[c]) ==>
          NoRegion(m, root, rank, start, end, c) && Hangs(m, root, q, prev, c))
      && (c != null && m[c].start == start && m[c].end == end && Busy(m[c]) ==> Region(m, root, rank, start, end, c))
  {
    var c := At(m, q, prev);
    assert Linked(m, root, q) && (prev != null ==> Linked(m, root, prev));
    assert SlotOk(m, root, q, prev);
    if c != null {
      assert Nested(m, root, rank, c);
      EntersKid(m, root, rank, q, c);
    }
    forall x | Region(m, root, rank, start, end, x)
      ensures c != null && (!Holds(m[c], start, end) ==> AwaitsOne(m, root, rank, x, q, c))
      ensures Holds(m[c], start, end) && !Busy(m[c]) ==> AwaitsOne(m, root, rank, x, c, null)
      ensures Holds(m[c], start, end) && Busy(m[c]) ==> x == c
    {
      Meets(m, root, rank, start, end, q, prev, x);
      if Holds(m[c], start, end) && x != c {
        OverDown(m, root, rank, x, q);
        OverFacts(m, root, rank, x, c);
      }
    }
  }

  /** A released region that was just placed leaves the tree as it was. */
  lemma {:induction false} PlacedRemoved(m: Image, root: Resource, rank: map<Resource, nat>, start: nat, end: nat,
      q: Resource, prev: Resource?, x: Resource, rec: Rec,
      m': Image, rank': map<Resource, nat>, q': Resource, prev': Resource?)
    requires Placed(m, root, rank, start, end, q, prev, x, rec, m', rank') && Hangs(m', root, q', prev', x)
    ensures Removed(m', root, rank', q', prev', x) == m
  {
    LeafRemoved(m, root, rank, q, prev, x, rec, q', prev');
  }
}
