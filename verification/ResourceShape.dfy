/** The shape of the resource tree of `kernel/resource.c`, on an image of its nodes: children are
    disjoint, inside their parent and linked in rising order. */
module ResourceShape {

  class Resource {
    var start: nat
    var end: nat
    var flags: bv32
    var parent: Resource?
    var sibling: Resource?
    var child: Resource?

    constructor (start: nat, end: nat)
      ensures this.start == start && this.end == end && flags == 0
      ensures parent == null && sibling == null && child == null
    {
      this.start, this.end, flags := start, end, 0;
      parent, sibling, child := null, null, null;
    }
  }

  datatype Rec = Rec(start: nat, end: nat, flags: bv32, parent: Resource?, sibling: Resource?, child: Resource?)

  type Image = map<Resource, Rec>

  predicate Apart(a: Rec, b: Rec) {
    a.end < b.start || b.end < a.start
  }

  predicate Inside(a: Rec, b: Rec) {
    b.start <= a.start && a.end <= b.end
  }

  ghost predicate Kid(m: Image, root: Resource, older b: Resource, older q: Resource) {
    b in m && b != root && m[b].parent == q
  }

  /** What the slot after `prev` in the list of children of `q` holds. */
  ghost function At(m: Image, q: Resource, prev: Resource?): Resource?
    requires q in m && (prev == null || prev in m)
  {
    if prev == null then m[q].child else m[prev].sibling
  }

  ghost function Low(m: Image, prev: Resource?): int
    requires prev == null || prev in m
  {
    if prev == null then -1 else m[prev].start
  }

  /** The slot after `prev` leads to the next child of `q`. */
  ghost predicate SlotOk(m: Image, root: Resource, q: Resource, prev: Resource?)
    requires q in m && (prev == null || prev in m)
  {
    var x, low := At(m, q, prev), Low(m, prev);
    true == ((x != null ==> Kid(m, root, x, q) && m[x].start > low)
    && forall b {:trigger Kid(m, root, b, q)} :: Kid(m, root, b, q) ==>
        m[b].start <= low || (x != null && m[x].start <= m[b].start))
  }

  /** A node lies inside its parent, which ranks above it. */
  ghost predicate Nested(m: Image, root: Resource, rank: map<Resource, nat>, r: Resource)
    requires r in m
  {
    true == (m[r].start <= m[r].end && r in rank && root in rank && rank[r] <= rank[root]
    && (r != root ==>
        m[r].parent != null && m[r].parent in m && m[r].parent in rank && rank[r] < rank[m[r].parent]
        && Inside(m[r], m[m[r].parent])))
  }

  ghost predicate Linked(m: Image, root: Resource, r: Resource)
    requires r in m
  {
    true == (SlotOk(m, root, r, null)
    && (r != root && m[r].parent != null && m[r].parent in m ==> SlotOk(m, root, m[r].parent, r)))
  }

  ghost predicate Disjoint(m: Image, root: Resource) {
    forall a, b, q {:trigger Kid(m, root, a, q), Kid(m, root, b, q)} ::
      Kid(m, root, a, q) && Kid(m, root, b, q) && a != b ==> Apart(m[a], m[b])
  }

  ghost predicate Wf(m: Image, root: Resource, rank: map<Resource, nat>) {
    true == (root in m && m.Keys <= rank.Keys
    && (forall r {:trigger Nested(m, root, rank, r)} :: r in m ==> Nested(m, root, rank, r))
    && (forall r {:trigger Linked(m, root, r)} :: r in m ==> Linked(m, root, r)) && Disjoint(m, root))
  }

  // ---------------------------------------------------------------- a new leaf

  ghost function SetSlot(m: Image, q: Resource, prev: Resource?, x: Resource?): Image
    requires q in m && (prev == null || prev in m)
  {
    if prev == null then m[q := m[q].(child := x)] else m[prev := m[prev].(sibling := x)]
  }

  /** Room for one more rank below each node. */
  ghost function Spread(rank: map<Resource, nat>, x: Resource, q: Resource): map<Resource, nat>
    requires q in rank
  {
    (map r | r in rank :: 2 * rank[r] + 1)[x := 2 * rank[q]]
  }

  /** `x` fits between `prev` and the child after it. */
  ghost predicate Fits(m: Image, root: Resource, q: Resource, prev: Resource?, x: Rec)
    requires q in m
  {
    true == (x.start <= x.end && Inside(x, m[q]) && (prev != null ==> Kid(m, root, prev, q) && m[prev].end < x.start)
    && (At(m, q, prev) != null ==> At(m, q, prev) in m && x.end < m[At(m, q, prev)].start))
  }

  ghost function WithLeaf(m: Image, q: Resource, prev: Resource?, x: Resource, rec: Rec): Image
    requires q in m && (prev == null || prev in m)
  {
    SetSlot(m, q, prev, x)[x := rec.(parent := q, sibling := At(m, q, prev), child := null)]
  }

  lemma {:induction false} LeafNested(m: Image, root: Resource, rank: map<Resource, nat>, q: Resource, prev: Resource?,
      x: Resource, rec: Rec, r: Resource)
    requires Wf(m, root, rank) && q in m && x !in m && Fits(m, root, q, prev, rec) && r in m + map[x := rec]
    ensures var m', rank' := WithLeaf(m, q, prev, x, rec), Spread(rank, x, q);
      r in m' && Nested(m', root, rank', r)
  {
    assert Nested(m, root, rank, q);
    if r in m {
      assert Nested(m, root, rank, r);
    }
  }

  lemma {:induction false} LeafKid(m: Image, root: Resource, q: Resource, prev: Resource?, x: Resource, rec: Rec,
      b: Resource, p: Resource)
    requires root in m && q in m && x !in m && (prev == null || prev in m)
    ensures Kid(WithLeaf(m, q, prev, x, rec), root, b, p) <==> (b == x && p == q) || (b != x && Kid(m, root, b, p))
  {}

  lemma {:induction false} LeafDisjoint(m: Image, root: Resource, rank: map<Resource, nat>, q: Resource,
      prev: Resource?, x: Resource, rec: Rec, a: Resource)
    requires Wf(m, root, rank) && q in m && x !in m && Fits(m, root, q, prev, rec) && Kid(m, root, a, q)
    ensures Apart(m[a], rec)
  {
    assert Linked(m, root, q) && Nested(m, root, rank, a);
    if prev != null {
      assert Linked(m, root, prev) && Kid(m, root, prev, q) && Nested(m, root, rank, prev);
      assert a == prev || Apart(m[a], m[prev]);
    }
    var y := At(m, q, prev);
    assert SlotOk(m, root, q, prev);
    assert Kid(m, root, a, q);
    assert y != null ==> Kid(m, root, y, q) && Nested(m, root, rank, y);
  }

  /** Slots of other parents. */
  lemma {:induction false} LeafElsewhere(m: Image, root: Resource, rank: map<Resource, nat>, q: Resource,
      prev: Resource?, x: Resource, rec: Rec, p: Resource, pr: Resource?)
    requires Wf(m, root, rank) && q in m && x !in m && Fits(m, root, q, prev, rec)
    requires p in m && p != q && (pr != null ==> Kid(m, root, pr, p))
    ensures SlotOk(WithLeaf(m, q, prev, x, rec), root, p, pr)
  {
    var m' := WithLeaf(m, q, prev, x, rec);
    assert Linked(m, root, p) && (pr != null ==> Linked(m, root, pr));
    assert SlotOk(m, root, p, pr);
    forall b | Kid(m', root, b, p)
      ensures Kid(m, root, b, p)
    {
      LeafKid(m, root, q, prev, x, rec, b, p);
    }
    var y := At(m, p, pr);
    if y != null {
      LeafKid(m, root, q, prev, x, rec, y, p);
    }
  }

  /** Before which child the leaf comes, seen from another child. */
  lemma {:induction false} LeafOrder(m: Image, root: Resource, rank: map<Resource, nat>, q: Resource, prev: Resource?,
      x: Resource, rec: Rec, pr: Resource?)
    requires Wf(m, root, rank) && q in m && x !in m && Fits(m, root, q, prev, rec)
    requires (pr != null ==> Kid(m, root, pr, q)) && pr != prev
    ensures rec.start <= Low(m, pr) || (At(m, q, pr) != null && At(m, q, pr) in m && m[At(m, q, pr)].start <= rec.start)
  {
    assert Linked(m, root, q) && (pr != null ==> Linked(m, root, pr) && Nested(m, root, rank, pr));
    assert prev != null ==> Linked(m, root, prev) && Nested(m, root, rank, prev) && Kid(m, root, prev, q);
    assert SlotOk(m, root, q, prev) && SlotOk(m, root, q, pr);
    assert pr != null && prev != null ==> Apart(m[pr], m[prev]);
  }

  /** Slots of the same parent. */
  lemma {:induction false} LeafBeside(m: Image, root: Resource, rank: map<Resource, nat>, q: Resource, prev: Resource?,
      x: Resource, rec: Rec, pr: Resource?)
    requires Wf(m, root, rank) && q in m && x !in m && Fits(m, root, q, prev, rec)
    requires pr != null ==> Kid(m, root, pr, q)
    ensures SlotOk(WithLeaf(m, q, prev, x, rec), root, q, pr)
  {
    var m' := WithLeaf(m, q, prev, x, rec);
    assert Linked(m, root, q) && (pr != null ==> Linked(m, root, pr));
    assert prev != null ==> Nested(m, root, rank, prev);
    assert SlotOk(m, root, q, pr);
    forall b | Kid(m', root, b, q)
      ensures b == x || Kid(m, root, b, q)
    {
      LeafKid(m, root, q, prev, x, rec, b, q);
    }
    LeafKid(m, root, q, prev, x, rec, x, q);
    if pr != prev {
      LeafOrder(m, root, rank, q, prev, x, rec, pr);
      var y := At(m, q, pr);
      if y != null {
        LeafKid(m, root, q, prev, x, rec, y, q);
      }
    }
  }

  lemma {:induction false} LeafSlot(m: Image, root: Resource, rank: map<Resource, nat>, q: Resource, prev: Resource?,
      x: Resource, rec: Rec, p: Resource, pr: Resource?)
    requires Wf(m, root, rank) && q in m && x !in m && Fits(m, root, q, prev, rec)
    requires p in m && (pr != null ==> Kid(m, root, pr, p))
    ensures SlotOk(WithLeaf(m, q, prev, x, rec), root, p, pr)
  {
    if p == q {
      LeafBeside(m, root, rank, q, prev, x, rec, pr);
    } else {
      LeafElsewhere(m, root, rank, q, prev, x, rec, p, pr);
    }
  }

  lemma {:induction false} LeafOwnSlots(m: Image, root: Resource, rank: map<Resource, nat>, q: Resource,
      prev: Resource?, x: Resource, rec: Rec)
    requires Wf(m, root, rank) && q in m && x !in m && Fits(m, root, q, prev, rec)
    ensures var m' := WithLeaf(m, q, prev, x, rec);
      SlotOk(m', root, q, x) && SlotOk(m', root, x, null)
  {
    var m' := WithLeaf(m, q, prev, x, rec);
    assert Linked(m, root, q);
    assert prev != null ==> Linked(m, root, prev) && Nested(m, root, rank, prev) && Kid(m, root, prev, q);
    assert SlotOk(m, root, q, prev);
    forall b, p | p in {q, x} && Kid(m', root, b, p)
      ensures (b == x && p == q) || Kid(m, root, b, p)
    {
      LeafKid(m, root, q, prev, x, rec, b, p);
    }
    forall b | b in m && b != root
      ensures m[b].parent != x
    {
      assert Nested(m, root, rank, b);
    }
    var y := At(m, q, prev);
    if y != null {
      LeafKid(m, root, q, prev, x, rec, y, q);
    }
  }

  lemma {:induction false} LeafLinked(m: Image, root: Resource, rank: map<Resource, nat>, q: Resource, prev: Resource?,
      x: Resource, rec: Rec, r: Resource)
    requires Wf(m, root, rank) && q in m && x !in m && Fits(m, root, q, prev, rec) && (r in m || r == x)
    ensures Linked(WithLeaf(m, q, prev, x, rec), root, r)
  {
    if r == x {
      LeafOwnSlots(m, root, rank, q, prev, x, rec);
    } else {
      LeafSlot(m, root, rank, q, prev, x, rec, r, null);
      assert Nested(m, root, rank, r);
      if r != root {
        LeafSlot(m, root, rank, q, prev, x, rec, m[r].parent, r);
      }
    }
  }

  lemma {:induction false} LeafApart(m: Image, root: Resource, rank: map<Resource, nat>, q: Resource, prev: Resource?,
      x: Resource, rec: Rec, p: Resource, a: Resource, b: Resource)
    requires Wf(m, root, rank) && q in m && x !in m && Fits(m, root, q, prev, rec) && a != b
    requires var m' := WithLeaf(m, q, prev, x, rec);
      Kid(m', root, a, p) && Kid(m', root, b, p)
    ensures var m' := WithLeaf(m, q, prev, x, rec);
      Apart(m'[a], m'[b])
  {
    LeafKid(m, root, q, prev, x, rec, a, p);
    LeafKid(m, root, q, prev, x, rec, b, p);
    if a == x {
      LeafDisjoint(m, root, rank, q, prev, x, rec, b);
    } else if b == x {
      LeafDisjoint(m, root, rank, q, prev, x, rec, a);
    }
  }

  /** Linking a leaf into a gap keeps the shape. */
  lemma {:induction false} LeafKeeps(m: Image, root: Resource, rank: map<Resource, nat>, q: Resource, prev: Resource?,
      x: Resource, rec: Rec)
    requires Wf(m, root, rank) && q in m && x !in m && Fits(m, root, q, prev, rec)
    ensures Wf(WithLeaf(m, q, prev, x, rec), root, Spread(rank, x, q))
  {
    var m', rank' := WithLeaf(m, q, prev, x, rec), Spread(rank, x, q);
    forall r | r in m'
      ensures Nested(m', root, rank', r) && Linked(m', root, r)
    {
      LeafNested(m, root, rank, q, prev, x, rec, r);
      LeafLinked(m, root, rank, q, prev, x, rec, r);
    }
    forall a, b, p | Kid(m', root, a, p) && Kid(m', root, b, p) && a != b
      ensures Apart(m'[a], m'[b])
    {
      LeafApart(m, root, rank, q, prev, x, rec, p, a, b);
    }
  }

  // ---------------------------------------------------------------- a new node above a run of children

  ghost predicate InRun(m: Image, root: Resource, q: Resource, rec: Rec, r: Resource) {
    Kid(m, root, r, q) && Inside(m[r], rec)
  }

  /** The children of `q` that `rec` touches are those inside it, from the one after `prev` to `last`. */
  ghost predicate Spans(m: Image, root: Resource, q: Resource, rec: Rec, prev: Resource?, last: Resource)
    requires q in m
  {
    true == (rec.start <= rec.end && Inside(rec, m[q]) && InRun(m, root, q, rec, last)
    && (prev != null ==> Kid(m, root, prev, q) && m[prev].end < rec.start)
    && At(m, q, prev) != null && InRun(m, root, q, rec, At(m, q, prev))
    && (m[last].sibling != null ==> m[last].sibling in m && rec.end < m[m[last].sibling].start)
    && forall r {:trigger Kid(m, root, r, q)} :: Kid(m, root, r, q) ==> Apart(m[r], rec) || Inside(m[r], rec))
  }

  ghost function WrapRec(m: Image, root: Resource, q: Resource, rec: Rec, prev: Resource?, last: Resource, x: Resource,
      r: Resource): Rec
    requires r in m
  {
    m[r].(parent := if InRun(m, root, q, rec, r) then x else m[r].parent,
          sibling := if r == last then null else if r == prev then x else m[r].sibling,
          child := if r == q && prev == null then x else m[r].child)
  }

  ghost function Wrapped(m: Image, root: Resource, q: Resource, rec: Rec, prev: Resource?, last: Resource,
      x: Resource): Image
    requires q in m && last in m && (prev == null || prev in m)
  {
    (map r | r in m :: WrapRec(m, root, q, rec, prev, last, x, r))[x := rec.(parent := q, sibling := m[last].sibling,
        child := At(m, q, prev))]
  }

  /** What `Wf` says about two children of a node. */
  lemma {:induction false} TwoKids(m: Image, root: Resource, rank: map<Resource, nat>, q: Resource, a: Resource,
      b: Resource)
    requires Wf(m, root, rank) && Kid(m, root, a, q) && Kid(m, root, b, q)
    ensures q in m && m[a].start <= m[a].end && m[b].start <= m[b].end && (a != b ==> Apart(m[a], m[b]))
    ensures SlotOk(m, root, q, null) && SlotOk(m, root, q, a) && SlotOk(m, root, q, b)
  {
    assert Nested(m, root, rank, a) && Nested(m, root, rank, b) && Linked(m, root, a) && Linked(m, root, b);
    assert Linked(m, root, q);
  }

  lemma {:induction false} WrapKid(m: Image, root: Resource, rank: map<Resource, nat>, q: Resource, rec: Rec,
      prev: Resource?, last: Resource, x: Resource, b: Resource, p: Resource)
    requires Wf(m, root, rank) && q in m && x !in m && Spans(m, root, q, rec, prev, last)
    ensures Kid(Wrapped(m, root, q, rec, prev, last, x), root, b, p) <==>
          (b == x && p == q) || (p == x && InRun(m, root, q, rec, b))
          || (Kid(m, root, b, p) && !InRun(m, root, q, rec, b))
  {
    if b in m && b != root {
      assert Nested(m, root, rank, b);
    }
  }

  lemma {:induction false} WrapNested(m: Image, root: Resource, rank: map<Resource, nat>, q: Resource, rec: Rec,
      prev: Resource?, last: Resource, x: Resource, r: Resource)
    requires Wf(m, root, rank) && q in m && x !in m && Spans(m, root, q, rec, prev, last) && (r in m || r == x)
    ensures var m', rank' := Wrapped(m, root, q, rec, prev, last, x), Spread(rank, x, q);
      Nested(m', root, rank', r)
  {
    assert Nested(m, root, rank, q);
    if r in m {
      assert Nested(m, root, rank, r);
    }
  }

  /** The slots of the new node. */
  lemma {:induction false} WrapOwn(m: Image, root: Resource, rank: map<Resource, nat>, q: Resource, rec: Rec,
      prev: Resource?, last: Resource, x: Resource)
    requires Wf(m, root, rank) && q in m && x !in m && Spans(m, root, q, rec, prev, last)
    ensures var m' := Wrapped(m, root, q, rec, prev, last, x);
      SlotOk(m', root, x, null) && SlotOk(m', root, q, x)
  {
    var m' := Wrapped(m, root, q, rec, prev, last, x);
    var first := At(m, q, prev);
    forall b, p | p in {q, x} && Kid(m', root, b, p)
      ensures (b == x && p == q) || Kid(m, root, b, q)
      ensures p == x ==> InRun(m, root, q, rec, b)
    {
      WrapKid(m, root, rank, q, rec, prev, last, x, b, p);
      assert b in m && b != root ==> Nested(m, root, rank, b);
    }
    forall b | Kid(m, root, b, q)
      ensures m[b].start <= m[b].end && SlotOk(m, root, q, last) && SlotOk(m, root, q, prev)
    {
      TwoKids(m, root, rank, q, b, last);
      TwoKids(m, root, rank, q, b, if prev == null then last else prev);
    }
    WrapKid(m, root, rank, q, rec, prev, last, x, first, x);
    var y := m[last].sibling;
    assert Kid(m, root, last, q);
    if y != null {
      WrapKid(m, root, rank, q, rec, prev, last, x, y, q);
    }
  }

  /** Inside the run the links stay, and the last one ends the list. */
  lemma {:induction false} WrapInner(m: Image, root: Resource, rank: map<Resource, nat>, q: Resource, rec: Rec,
      prev: Resource?, last: Resource, x: Resource, r: Resource)
    requires Wf(m, root, rank) && q in m && x !in m && Spans(m, root, q, rec, prev, last) && InRun(m, root, q, rec, r)
    ensures var m' := Wrapped(m, root, q, rec, prev, last, x);
      SlotOk(m', root, x, r)
  {
    var m' := Wrapped(m, root, q, rec, prev, last, x);
    TwoKids(m, root, rank, q, r, last);
    forall b | Kid(m', root, b, x)
      ensures InRun(m, root, q, rec, b) && m[b].start <= m[b].end && Kid(m, root, b, q)
    {
      WrapKid(m, root, rank, q, rec, prev, last, x, b, x);
      assert b in m && b != root ==> Nested(m, root, rank, b);
    }
    assert r != prev;
    if r != last {
      var y := m[r].sibling;
      assert y != null && m[y].start <= m[last].start;
      TwoKids(m, root, rank, q, y, last);
      assert Kid(m, root, y, q) && !Apart(m[y], rec);
      WrapKid(m, root, rank, q, rec, prev, last, x, y, x);
    }
  }

  /** Only the slot after `prev` leads into the run from outside. */
  lemma {:induction false} WrapEntry(m: Image, root: Resource, rank: map<Resource, nat>, q: Resource, rec: Rec,
      prev: Resource?, last: Resource, pr: Resource?)
    requires Wf(m, root, rank) && q in m && Spans(m, root, q, rec, prev, last)
    requires pr != null ==> Kid(m, root, pr, q) && !InRun(m, root, q, rec, pr)
    requires pr != prev
    ensures At(m, q, pr) != null ==> !InRun(m, root, q, rec, At(m, q, pr))
    ensures Low(m, pr) < rec.start ==> At(m, q, pr) != null && At(m, q, pr) in m && m[At(m, q, pr)].start < rec.start
  {
    var first, y := At(m, q, prev), At(m, q, pr);
    TwoKids(m, root, rank, q, first, if pr == null then first else pr);
    TwoKids(m, root, rank, q, first, if prev == null then first else prev);
    if pr != null && prev != null {
      TwoKids(m, root, rank, q, pr, prev);
    }
    if y != null {
      TwoKids(m, root, rank, q, first, y);
    }
  }

  lemma {:induction false} WrapOuter(m: Image, root: Resource, rank: map<Resource, nat>, q: Resource, rec: Rec,
      prev: Resource?, last: Resource, x: Resource, pr: Resource?)
    requires Wf(m, root, rank) && q in m && x !in m && Spans(m, root, q, rec, prev, last)
    requires pr != null ==> Kid(m, root, pr, q) && !InRun(m, root, q, rec, pr)
    ensures var m' := Wrapped(m, root, q, rec, prev, last, x);
      SlotOk(m', root, q, pr)
  {
    var m' := Wrapped(m, root, q, rec, prev, last, x);
    var first, y := At(m, q, prev), At(m, q, pr);
    TwoKids(m, root, rank, q, first, if pr == null then first else pr);
    TwoKids(m, root, rank, q, first, if prev == null then first else prev);
    forall b | Kid(m', root, b, q)
      ensures b == x || (Kid(m, root, b, q) && !InRun(m, root, q, rec, b) && m[b].start <= m[b].end)
    {
      WrapKid(m, root, rank, q, rec, prev, last, x, b, q);
      assert b in m && b != root ==> Nested(m, root, rank, b);
    }
    WrapKid(m, root, rank, q, rec, prev, last, x, x, q);
    if pr != prev {
      WrapEntry(m, root, rank, q, rec, prev, last, pr);
      if y != null {
        WrapKid(m, root, rank, q, rec, prev, last, x, y, q);
      }
    }
  }

  lemma {:induction false} WrapElsewhere(m: Image, root: Resource, rank: map<Resource, nat>, q: Resource, rec: Rec,
      prev: Resource?, last: Resource, x: Resource, p: Resource, pr: Resource?)
    requires Wf(m, root, rank) && q in m && x !in m && Spans(m, root, q, rec, prev, last)
    requires p in m && p != q && (pr != null ==> Kid(m, root, pr, p))
    ensures var m' := Wrapped(m, root, q, rec, prev, last, x);
      SlotOk(m', root, p, pr)
  {
    var m' := Wrapped(m, root, q, rec, prev, last, x);
    assert Linked(m, root, p);
    assert pr != null ==> Linked(m, root, pr);
    assert SlotOk(m, root, p, pr);
    forall b | Kid(m', root, b, p)
      ensures Kid(m, root, b, p)
    {
      WrapKid(m, root, rank, q, rec, prev, last, x, b, p);
    }
    var y := At(m, p, pr);
    if y != null {
      WrapKid(m, root, rank, q, rec, prev, last, x, y, p);
    }
  }

  lemma {:induction false} WrapLinked(m: Image, root: Resource, rank: map<Resource, nat>, q: Resource, rec: Rec,
      prev: Resource?, last: Resource, x: Resource, r: Resource)
    requires Wf(m, root, rank) && q in m && x !in m && Spans(m, root, q, rec, prev, last) && r in m
    ensures Linked(Wrapped(m, root, q, rec, prev, last, x), root, r)
  {
    if r == q {
      WrapOuter(m, root, rank, q, rec, prev, last, x, null);
    } else {
      WrapElsewhere(m, root, rank, q, rec, prev, last, x, r, null);
    }
    if r != root {
      assert Nested(m, root, rank, r);
      if InRun(m, root, q, rec, r) {
        WrapInner(m, root, rank, q, rec, prev, last, x, r);
      } else if m[r].parent == q {
        WrapOuter(m, root, rank, q, rec, prev, last, x, r);
      } else {
        WrapElsewhere(m, root, rank, q, rec, prev, last, x, m[r].parent, r);
      }
    }
  }

  /** Putting a node above the children it spans keeps the shape. */
  lemma {:induction false} WrapKeeps(m: Image, root: Resource, rank: map<Resource, nat>, q: Resource, rec: Rec,
      prev: Resource?, last: Resource, x: Resource)
    requires Wf(m, root, rank) && q in m && x !in m && Spans(m, root, q, rec, prev, last)
    ensures Wf(Wrapped(m, root, q, rec, prev, last, x), root, Spread(rank, x, q))
  {
    var m', rank' := Wrapped(m, root, q, rec, prev, last, x), Spread(rank, x, q);
    forall r | r in m'
      ensures Nested(m', root, rank', r)
    {
      WrapNested(m, root, rank, q, rec, prev, last, x, r);
    }
    forall r | r in m'
      ensures Linked(m', root, r)
    {
      if r == x {
        WrapOwn(m, root, rank, q, rec, prev, last, x);
      } else {
        WrapLinked(m, root, rank, q, rec, prev, last, x, r);
      }
    }
    forall a, b, p | Kid(m', root, a, p) && Kid(m', root, b, p) && a != b
      ensures Apart(m'[a], m'[b])
    {
      WrapDisjoint(m, root, rank, q, rec, prev, last, x, p, a, b);
    }
  }

  lemma {:induction false} WrapDisjoint(m: Image, root: Resource, rank: map<Resource, nat>, q: Resource, rec: Rec,
      prev: Resource?, last: Resource, x: Resource, p: Resource, a: Resource, b: Resource)
    requires Wf(m, root, rank) && q in m && x !in m && Spans(m, root, q, rec, prev, last) && a != b
    requires var m' := Wrapped(m, root, q, rec, prev, last, x);
      Kid(m', root, a, p) && Kid(m', root, b, p)
    ensures var m' := Wrapped(m, root, q, rec, prev, last, x);
      Apart(m'[a], m'[b])
  {
    WrapKid(m, root, rank, q, rec, prev, last, x, a, p);
    WrapKid(m, root, rank, q, rec, prev, last, x, b, p);
    assert a in m && a != root ==> Nested(m, root, rank, a);
    assert b in m && b != root ==> Nested(m, root, rank, b);
    assert a != x && b != x ==> Kid(m, root, a, m[a].parent) && Kid(m, root, b, m[a].parent);
  }

  // ---------------------------------------------------------------- the links

  /** Ranges and parents determine the links. */
  lemma {:induction false} LinksDetermined(m: Image, m': Image, root: Resource, rank: map<Resource, nat>,
      rank': map<Resource, nat>, q: Resource, prev: Resource?)
    requires Wf(m, root, rank) && Wf(m', root, rank') && m.Keys == m'.Keys
    requires forall r :: r in m ==> m[r].start == m'[r].start && m[r].end == m'[r].end && m[r].parent == m'[r].parent
    requires q in m && (prev != null ==> Kid(m, root, prev, q))
    ensures At(m, q, prev) == At(m', q, prev)
  {
    assert forall r :: Kid(m, root, r, q) <==> Kid(m', root, r, q);
    assert Linked(m, root, q) && Linked(m', root, q);
    assert prev != null ==> Linked(m, root, prev) && Linked(m', root, prev);
    assert SlotOk(m, root, q, prev) && SlotOk(m', root, q, prev);
    var x, y := At(m, q, prev), At(m', q, prev);
    assert x != null ==> Kid(m', root, x, q);
    assert y != null ==> Kid(m, root, y, q);
    if x != null && y != null {
      TwoKids(m, root, rank, q, x, y);
    }
  }
}
