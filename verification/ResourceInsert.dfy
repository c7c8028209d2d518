/** What `__insert_resource` of `kernel/resource.c` decides and writes, on images of the tree. */
module ResourceInsert {

  import opened ResourceShape
  import opened ResourcePaths

  // ---------------------------------------------------------------- what stands in the way

  /** The node overlaps the range, neither being inside the other. */
  ghost predicate Crosses(m: Image, older c: Resource, x: Rec) {
    c in m && !Apart(m[c], x) && !Inside(m[c], x) && !Inside(x, m[c])
  }

  /** The descent has come to `q`, which holds the range; what crosses it is below. */
  ghost predicate Descending(m: Image, root: Resource, rank: map<Resource, nat>, x: Rec, q: Resource)
    requires Wf(m, root, rank)
  {
    true == (q in m && (q != root ==> Inside(x, m[q]))
    && (Inside(x, m[q]) ==> forall c {:trigger Crosses(m, c, x)} :: Crosses(m, c, x) ==>
        Over(m, root, rank, c, q) != null))
  }

  lemma {:induction false} DescendRoot(m: Image, root: Resource, rank: map<Resource, nat>, x: Rec)
    requires Wf(m, root, rank)
    ensures Descending(m, root, rank, x, root)
  {
    forall c | Crosses(m, c, x) && Inside(x, m[root])
      ensures Over(m, root, rank, c, root) != null
    {
      OverRoot(m, root, rank, c);
    }
  }

  lemma {:induction false} DescendKid(m: Image, root: Resource, rank: map<Resource, nat>, x: Rec, q: Resource,
      prev: Resource?, f: Resource)
    requires Wf(m, root, rank) && Descending(m, root, rank, x, q) && FirstTouched(m, root, q, x, prev, f)
    requires Inside(x, m[f])
    ensures Descending(m, root, rank, x, f) && rank[f] < rank[q]
  {
    assert Nested(m, root, rank, f);
    forall c | Crosses(m, c, x)
      ensures Over(m, root, rank, c, f) != null
    {
      var k := Over(m, root, rank, c, q);
      OverFacts(m, root, rank, c, q);
      assert Nested(m, root, rank, c);
      SameKid(m, root, rank, q, k, f, if m[c].start < x.start then x.start else m[c].start);
      OverDown(m, root, rank, c, q);
    }
  }

  /** Nothing crosses a range that touches none of the children of `q`, or only such as are inside it. */
  lemma {:induction false} NoneCrosses(m: Image, root: Resource, rank: map<Resource, nat>, x: Rec, q: Resource,
      c: Resource)
    requires Wf(m, root, rank) && Descending(m, root, rank, x, q) && Inside(x, m[q])
    requires forall r :: Kid(m, root, r, q) ==> Apart(m[r], x) || Inside(m[r], x)
    ensures !Crosses(m, c, x)
  {
    if Crosses(m, c, x) {
      assert Nested(m, root, rank, c);
      OverFacts(m, root, rank, c, q);
    }
  }

  lemma {:induction false} GapNoneCrosses(m: Image, root: Resource, rank: map<Resource, nat>, x: Rec, q: Resource,
      prev: Resource?, r: Resource)
    requires Wf(m, root, rank) && Descending(m, root, rank, x, q) && r !in m && Fits(m, root, q, prev, x)
    ensures Inside(x, m[root]) && forall c :: !Crosses(m, c, x)
  {
    forall k | Kid(m, root, k, q)
      ensures Apart(m[k], x)
    {
      LeafDisjoint(m, root, rank, q, prev, r, x, k);
    }
    forall c
      ensures !Crosses(m, c, x)
    {
      NoneCrosses(m, root, rank, x, q, c);
    }
    InsideRoot(m, root, rank, q);
  }

  lemma {:induction false} SpanNoneCrosses(m: Image, root: Resource, rank: map<Resource, nat>, x: Rec, q: Resource,
      prev: Resource?, last: Resource)
    requires Wf(m, root, rank) && Descending(m, root, rank, x, q) && Spans(m, root, q, x, prev, last)
    ensures Inside(x, m[root]) && forall c :: !Crosses(m, c, x)
  {
    forall c
      ensures !Crosses(m, c, x)
    {
      NoneCrosses(m, root, rank, x, q, c);
    }
    InsideRoot(m, root, rank, q);
  }

  // ---------------------------------------------------------------- the run of children inside the range

  /** The children of `q` up to `c` are inside the range or clear of it, and `c` touches it. */
  ghost predicate Spanning(m: Image, root: Resource, q: Resource, x: Rec, prev: Resource?, c: Resource) {
    true == (q in m && x.start <= x.end && Inside(x, m[q]) && Kid(m, root, c, q) && !Apart(m[c], x)
    && !(Inside(x, m[c]) && !Inside(m[c], x))
    && (prev != null ==> Kid(m, root, prev, q) && m[prev].end < x.start)
    && At(m, q, prev) != null && Kid(m, root, At(m, q, prev), q)
    && (c == At(m, q, prev) || InRun(m, root, q, x, At(m, q, prev)))
    && forall r {:trigger Kid(m, root, r, q)} :: Kid(m, root, r, q) && m[r].start < m[c].start ==>
        Apart(m[r], x) || Inside(m[r], x))
  }

  lemma {:induction false} SpanFirst(m: Image, root: Resource, rank: map<Resource, nat>, q: Resource, x: Rec,
      prev: Resource?, f: Resource)
    requires Wf(m, root, rank) && FirstTouched(m, root, q, x, prev, f) && (!Inside(x, m[f]) || Inside(m[f], x))
    ensures Spanning(m, root, q, x, prev, f)
  {
    forall r | Kid(m, root, r, q) && m[r].start < m[f].start
      ensures Apart(m[r], x)
    {
      TwoKids(m, root, rank, q, r, f);
      if prev != null {
        TwoKids(m, root, rank, q, r, prev);
      }
    }
  }

  /** The loop over the siblings either fails, or ends, or goes on. */
  lemma {:induction false} SpanStep(m: Image, root: Resource, rank: map<Resource, nat>, q: Resource, x: Rec,
      prev: Resource?, c: Resource)
    requires Wf(m, root, rank) && Spanning(m, root, q, x, prev, c)
    ensures c in m && (!Inside(m[c], x) ==> Crosses(m, c, x))
    ensures m[c].sibling != null ==> m[c].sibling in m && m[c].start < m[m[c].sibling].start <= m[q].end
    ensures Inside(m[c], x) && (m[c].sibling == null || m[m[c].sibling].start > x.end) ==> Spans(m, root, q, x, prev, c)
    ensures Inside(m[c], x) && m[c].sibling != null && m[m[c].sibling].start <= x.end ==>
      Spanning(m, root, q, x, prev, m[c].sibling)
  {
    var y := m[c].sibling;
    TwoKids(m, root, rank, q, c, c);
    if y != null {
      TwoKids(m, root, rank, q, c, y);
      assert Nested(m, root, rank, y);
    }
    forall r | Kid(m, root, r, q)
      ensures m[r].start <= m[r].end && (r != c && m[r].start >= m[c].start ==> y != null && m[y].start <= m[r].start)
    {
      TwoKids(m, root, rank, q, c, r);
    }
  }

  // ---------------------------------------------------------------- the writes

  /** The run cut off behind `last`, its nodes that start below `bound` already moved to `x`. */
  ghost function Moved(m: Image, root: Resource, q: Resource, rec: Rec, last: Resource, x: Resource,
      bound: int): Image {
    map r | r in m :: m[r].(parent := if InRun(m, root, q, rec, r) && m[r].start < bound then x else m[r].parent,
                            sibling := if r == last then null else m[r].sibling)
  }

  ghost function Bound(m: Image, rec: Rec, n: Resource?): int
    requires n != null ==> n in m
  {
    if n == null then rec.end + 1 else m[n].start
  }

  /** The next node of the run, and none in between. */
  lemma {:induction false} RunNext(m: Image, root: Resource, rank: map<Resource, nat>, q: Resource, rec: Rec,
      prev: Resource?, last: Resource, n: Resource)
    requires Wf(m, root, rank) && q in m && Spans(m, root, q, rec, prev, last) && InRun(m, root, q, rec, n)
    ensures var y := if n == last then null else m[n].sibling;
      (y != null ==> InRun(m, root, q, rec, y) && m[n].start < m[y].start) && (n != last ==> y != null)
      && forall r {:trigger InRun(m, root, q, rec, r)} :: InRun(m, root, q, rec, r) && r != n ==>
          (m[r].start < m[n].start <==> m[r].start < Bound(m, rec, y))
  {
    var y := m[n].sibling;
    TwoKids(m, root, rank, q, n, last);
    if n != last {
      TwoKids(m, root, rank, q, y, last);
    }
    forall r | InRun(m, root, q, rec, r) && r != n
      ensures m[r].start != m[n].start && m[r].start <= rec.end
      ensures n == last ==> m[r].start < m[n].start
      ensures n != last && m[r].start > m[n].start ==> m[r].start >= m[y].start
    {
      TwoKids(m, root, rank, q, r, n);
      TwoKids(m, root, rank, q, r, last);
    }
  }

  lemma {:induction false} MoveOne(m: Image, root: Resource, rank: map<Resource, nat>, q: Resource, rec: Rec,
      prev: Resource?, last: Resource, x: Resource, n: Resource)
    requires Wf(m, root, rank) && q in m && Spans(m, root, q, rec, prev, last) && InRun(m, root, q, rec, n)
    ensures var y := if n == last then null else m[n].sibling;
      var m1 := Moved(m, root, q, rec, last, x, m[n].start);
      (y != null ==> InRun(m, root, q, rec, y) && m[n].start < m[y].start <= rec.end) && m1[n].sibling == y
          && m[n].start <= rec.end
      && m1[n := m1[n].(parent := x)] == Moved(m, root, q, rec, last, x, Bound(m, rec, y))
  {
    RunNext(m, root, rank, q, rec, prev, last, n);
    assert Nested(m, root, rank, n);
    var y := if n == last then null else m[n].sibling;
    assert y != null ==> Nested(m, root, rank, y);
    var m1, m2 := Moved(m, root, q, rec, last, x, m[n].start), Moved(m, root, q, rec, last, x, Bound(m, rec, y));
    assert m1[n := m1[n].(parent := x)].Keys == m2.Keys;
    forall r | r in m
      ensures m1[n := m1[n].(parent := x)][r] == m2[r]
    {
      if r != n && InRun(m, root, q, rec, r) {
        assert m[r].start < m[n].start <==> m[r].start < Bound(m, rec, y);
      }
    }
  }

  /** Nothing has moved yet. */
  lemma {:induction false} MoveNone(m: Image, root: Resource, rank: map<Resource, nat>, q: Resource, rec: Rec,
      prev: Resource?, last: Resource, x: Resource)
    requires Wf(m, root, rank) && q in m && Spans(m, root, q, rec, prev, last)
    ensures Moved(m, root, q, rec, last, x, m[At(m, q, prev)].start) == m[last := m[last].(sibling := null)]
  {
    var first := At(m, q, prev);
    forall r | InRun(m, root, q, rec, r)
      ensures m[r].start >= m[first].start
    {
      TwoKids(m, root, rank, q, r, if prev == null then first else prev);
    }
  }

  /** The moved run with the new node in its place. */
  ghost function Hung(m: Image, m1: Image, q: Resource, rec: Rec, prev: Resource?, last: Resource, x: Resource): Image
    requires q in m && q in m1 && last in m && (prev != null ==> prev in m && prev in m1)
  {
    SetSlot(m1, q, prev, x)[x := rec.(parent := q, sibling := m[last].sibling, child := At(m, q, prev))]
  }

  lemma {:induction false} RunBelow(m: Image, root: Resource, rank: map<Resource, nat>, q: Resource, rec: Rec)
    requires Wf(m, root, rank)
    ensures forall r :: InRun(m, root, q, rec, r) ==> m[r].start < rec.end + 1
  {
    forall r | InRun(m, root, q, rec, r)
      ensures m[r].start < rec.end + 1
    {
      assert Nested(m, root, rank, r);
    }
  }

  lemma {:induction false} HungAt(m: Image, root: Resource, q: Resource, rec: Rec, prev: Resource?, last: Resource,
      x: Resource, r: Resource)
    requires q in m && last in m && (prev != null ==> prev in m && prev != last) && r in m
    requires InRun(m, root, q, rec, r) ==> m[r].start < rec.end + 1
    ensures var m1 := Moved(m, root, q, rec, last, x, rec.end + 1);
      q in m1 && (prev != null ==> prev in m1)
      && SetSlot(m1, q, prev, x)[r] == WrapRec(m, root, q, rec, prev, last, x, r)
  {}

  lemma {:induction false} HungAll(m: Image, root: Resource, q: Resource, rec: Rec, prev: Resource?, last: Resource,
      x: Resource)
    requires q in m && x !in m && last in m && (prev != null ==> prev in m && prev != last)
    requires forall r :: InRun(m, root, q, rec, r) ==> m[r].start < rec.end + 1
    ensures var m1 := Moved(m, root, q, rec, last, x, rec.end + 1);
      q in m1 && (prev != null ==> prev in m1)
      && Hung(m, m1, q, rec, prev, last, x) == Wrapped(m, root, q, rec, prev, last, x)
  {
    var a := SetSlot(Moved(m, root, q, rec, last, x, rec.end + 1), q, prev, x);
    forall r | r in m
      ensures a[r] == WrapRec(m, root, q, rec, prev, last, x, r)
    {
      HungAt(m, root, q, rec, prev, last, x, r);
    }
    assert a == map r | r in m :: WrapRec(m, root, q, rec, prev, last, x, r);
  }

  lemma {:induction false} MoveAll(m: Image, root: Resource, rank: map<Resource, nat>, q: Resource, rec: Rec,
      prev: Resource?, last: Resource, x: Resource)
    requires Wf(m, root, rank) && q in m && x !in m && Spans(m, root, q, rec, prev, last)
    ensures var m1 := Moved(m, root, q, rec, last, x, rec.end + 1);
      q in m1 && (prev != null ==> prev in m1)
      && Hung(m, m1, q, rec, prev, last, x) == Wrapped(m, root, q, rec, prev, last, x)
  {
    if prev != null {
      TwoKids(m, root, rank, q, last, prev);
    }
    RunBelow(m, root, rank, q, rec);
    HungAll(m, root, q, rec, prev, last, x);
  }

  /** The search for the node before the run, which starts at the first child. */
  lemma {:induction false} SeekPrev(m: Image, root: Resource, rank: map<Resource, nat>, q: Resource, rec: Rec,
      prev: Resource?, last: Resource, x: Resource, n: Resource)
    requires Wf(m, root, rank) && q in m && Spans(m, root, q, rec, prev, last) && prev != null && Kid(m, root, n, q)
    requires m[n].start <= m[prev].start
    ensures var m1, first := Moved(m, root, q, rec, last, x, rec.end + 1), At(m, q, prev);
      m1[n].sibling == m[n].sibling && (m[n].sibling == first <==> n == prev)
      && (n != prev ==>
          m[n].sibling != null && Kid(m, root, m[n].sibling, q) && m[n].start < m[m[n].sibling].start <= m[prev].start)
  {
    TwoKids(m, root, rank, q, n, prev);
    TwoKids(m, root, rank, q, last, prev);
    if m[n].sibling == At(m, q, prev) {
      SameSlot(m, root, rank, q, n, prev);
    }
  }

  /** What the writes add up to. */
  lemma {:induction false} WrapDone(m: Image, root: Resource, rank: map<Resource, nat>, q: Resource, rec: Rec,
      prev: Resource?, last: Resource, x: Resource)
    requires Wf(m, root, rank) && q in m && x !in m && Spans(m, root, q, rec, prev, last)
    ensures var m1 := Moved(m, root, q, rec, last, x, rec.end + 1);
      q in m1 && (prev != null ==> prev in m1)
      && Wf(Hung(m, m1, q, rec, prev, last, x), root, Spread(rank, x, q))
      && Inserted(m, root, q, rec, x, Hung(m, m1, q, rec, prev, last, x))
  {
    MoveAll(m, root, rank, q, rec, prev, last, x);
    WrapKeeps(m, root, rank, q, rec, prev, last, x);
  }

  // ---------------------------------------------------------------- the outcome

  /** `q` holds the range and none of its children does, except one of the very same range. */
  ghost predicate Innermost(m: Image, root: Resource, q: Resource, rec: Rec) {
    q in m && rec.start <= rec.end && Inside(rec, m[q])
        && forall r {:trigger Kid(m, root, r, q)} :: Kid(m, root, r, q) ==> Apart(m[r], rec) || Inside(m[r], rec)
  }

  /** `m'` is `m` with `x` below `q` and above the children of `q` that are inside it. The links are no
      part of this: `Wf` determines them. */
  ghost predicate Inserted(m: Image, root: Resource, q: Resource, rec: Rec, x: Resource, m': Image) {
    true == (m'.Keys == m.Keys + {x} && Innermost(m, root, q, rec)
    && m'[x] == rec.(parent := q, sibling := m'[x].sibling, child := m'[x].child)
    && forall r {:trigger m'[r]} :: r in m ==>
      m'[r] == m[r].(parent := if InRun(m, root, q, rec, r) then x else m[r].parent, sibling := m'[r].sibling,
          child := m'[r].child))
  }

  lemma {:induction false} LeafInserted(m: Image, root: Resource, rank: map<Resource, nat>, q: Resource,
      prev: Resource?, x: Resource, rec: Rec)
    requires Wf(m, root, rank) && q in m && x !in m && Fits(m, root, q, prev, rec)
    ensures Inserted(m, root, q, rec, x, WithLeaf(m, q, prev, x, rec))
  {
    var m' := WithLeaf(m, q, prev, x, rec);
    forall r | Kid(m, root, r, q)
      ensures Apart(m[r], rec) && !Inside(m[r], rec)
    {
      LeafDisjoint(m, root, rank, q, prev, x, rec, r);
      assert Nested(m, root, rank, r);
    }
    assert m'.Keys == m.Keys + {x};
  }
}
