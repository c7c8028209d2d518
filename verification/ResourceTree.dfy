/** The resource tree of `kernel/resource.c`: nodes linked through `parent`, `sibling` and `child`. */
module ResourceTree {

  import opened Machine
  import opened ResourceShape
  import opened ResourcePaths
  import opened ResourceInsert

  const TYPE_BITS: bv32 := 0x0000_1f00
  const EXT_TYPE_BITS: bv32 := 0x0100_0000
  const MUXED: bv32 := 0x0040_0000

  /** The last address of a range, in 32 bits. */
  function End(start: nat, n: nat): (r: nat)
    ensures 0 < start + n <= WORD ==> r == start + n - 1
  {
    (start + n + WORD - 1) % WORD
  }

  /** The region was placed, and nothing was in its way. */
  ghost predicate Entered(m: Image, root: Resource, rank: map<Resource, nat>, start: nat, end: nat, q: Resource,
      prev: Resource?, x: Resource, rec: Rec, m': Image, rank': map<Resource, nat>)
    requires Wf(m, root, rank) && q in m
  {
    true == (start <= end && Holds(m[root], start, end)
    && Placed(m, root, rank, start, end, q, prev, x, rec, m', rank')
    && forall c :: !Blocks(m, root, rank, start, end, c))
  }

  /** Both the node and the request are muxed. */
  predicate Shares(r: Rec, flags: bv32) {
    r.flags & flags & MUXED != 0
  }

  /** A region has the type of its parent, is busy, and has the flags asked for. */
  predicate Marked(parent: Rec, flags: bv32, r: Rec) {
    r.flags == (parent.flags & 0x0000_1f00) | (parent.flags & 0x0100_0000) | 0x8000_0000 | flags
  }

  ghost function RecOf(r: Resource): Rec
    reads r
  {
    Rec(r.start, r.end, r.flags, r.parent, r.sibling, r.child)
  }

  /** The slot after `prev` shows the next child of `q`. */
  lemma {:induction false} Slot(m: Image, root: Resource, rank: map<Resource, nat>, q: Resource, prev: Resource?)
    requires Wf(m, root, rank) && q in m && (prev != null ==> Kid(m, root, prev, q))
    ensures SlotOk(m, root, q, prev)
    ensures var c := At(m, q, prev);
      c != null ==>
          Kid(m, root, c, q) && c in m && m[c].start <= m[c].end <= m[q].end && m[c].start > Low(m, prev) && c != q
  {
    assert Linked(m, root, q);
    assert prev != null ==> Linked(m, root, prev);
    var c := At(m, q, prev);
    assert SlotOk(m, root, q, prev);
    assert c != null ==> Nested(m, root, rank, c);
  }

  class Tree {
    const root: Resource
    ghost var nodes: set<Resource>
    ghost var rank: map<Resource, nat>

    ghost function Snapshot(): Image
      reads this, nodes
    {
      map r | r in nodes :: RecOf(r)
    }

    ghost predicate Ok()
      reads this, nodes
    {
      Wf(Snapshot(), root, rank)
    }

    constructor (root: Resource)
      requires root.start <= root.end && root.child == null
      ensures this.root == root && nodes == {root} && Ok()
    {
      this.root := root;
      nodes := {root};
      rank := map[root := 0];
      new;
      assert Nested(Snapshot(), root, rank, root);
      assert Linked(Snapshot(), root, root);
    }

    /** `__request_resource`. */
    method Request(q: Resource, x: Resource) returns (conflict: Resource?, ghost prev: Resource?)
      requires Ok() && q in nodes && x !in nodes && x.child == null
      modifies this, nodes, x
      ensures Ok()
      ensures conflict == null ==> nodes == old(nodes) + {x} && rank == Spread(old(rank), x, q)
      ensures conflict == null ==>
          Fits(old(Snapshot()), root, q, prev, old(RecOf(x)))
          && Snapshot() == WithLeaf(old(Snapshot()), q, prev, x, old(RecOf(x)))
      ensures conflict != null ==>
        nodes == old(nodes) && rank == old(rank) && Snapshot() == old(Snapshot()) && RecOf(x) == old(RecOf(x))
      ensures conflict == q <==> !(old(x.start) <= old(x.end) && Inside(old(RecOf(x)), old(Snapshot())[q]))
      ensures conflict != null && conflict != q ==> FirstTouched(Snapshot(), root, q, RecOf(x), prev, conflict)
    {
      var start, end := x.start, x.end;
      var last: Resource? := null;
      prev := null;
      if end < start || start < q.start || end > q.end {
        return q, prev;
      }
      ghost var m := Snapshot();
      while true
        invariant Snapshot() == m && nodes == old(nodes) && rank == old(rank) && RecOf(x) == old(RecOf(x)) && Ok()
        invariant last != null ==> Kid(m, root, last, q) && m[last].end < start
        decreases q.end - Low(m, last)
      {
        Slot(m, root, rank, q, last);
        var tmp := if last == null then q.child else last.sibling;
        assert tmp == At(m, q, last);
        if tmp == null || tmp.start > end {
          prev := last;
          Link(q, last, x);
          return null, prev;
        }
        if tmp.end >= start {
          prev := last;
          return tmp, prev;
        }
        last := tmp;
      }
    }

    /** `*p = x`, `p` being the slot after `prev`. */
    method SetNext(q: Resource, prev: Resource?, x: Resource?)
      requires q in nodes && (prev != null ==> prev in nodes)
      modifies nodes
      ensures Snapshot() == SetSlot(old(Snapshot()), q, prev, x)
    {
      if prev == null {
        q.child := x;
      } else {
        prev.sibling := x;
      }
      assert Snapshot() == SetSlot(old(Snapshot()), q, prev, x);
    }

    /** The writes of `__request_resource`. */
    method LinkWrites(q: Resource, prev: Resource?, x: Resource)
      requires q in nodes && x !in nodes && (prev != null ==> prev in nodes)
      modifies nodes, x
      ensures Snapshot() == SetSlot(old(Snapshot()), q, prev, x)
      ensures RecOf(x) == old(RecOf(x)).(parent := q, sibling := At(old(Snapshot()), q, prev))
    {
      x.sibling := if prev == null then q.child else prev.sibling;
      SetNext(q, prev, x);
      x.parent := q;
    }

    /** The new leaf in its place. */
    method Link(q: Resource, prev: Resource?, x: Resource)
      requires Ok() && q in nodes && x !in nodes && x.child == null && Fits(Snapshot(), root, q, prev, RecOf(x))
      modifies this, nodes, x
      ensures Ok() && nodes == old(nodes) + {x} && rank == Spread(old(rank), x, q)
      ensures Snapshot() == WithLeaf(old(Snapshot()), q, prev, x, old(RecOf(x)))
    {
      ghost var m, rec := Snapshot(), RecOf(x);
      LinkWrites(q, prev, x);
      LeafKeeps(m, root, rank, q, prev, x, rec);
      Join(x, q);
    }

    /** What the loop of `__request_region_locked` knows on its way down: `parent` can be entered, and the
        tree is as it was. */
    ghost predicate Requesting(m: Image, rk: map<Resource, nat>, x: Resource, start: nat, end: nat, parent: Resource)
      reads this, nodes, x
    {
      true == (Ok() && Snapshot() == m && rank == rk && parent in nodes && x !in nodes
      && x.child == null && x.start == start && x.end == end && Searching(m, root, rk, start, end, parent))
    }

    /** The attempt to place the region right below `parent`. */
    method Attempt(x: Resource, parent: Resource, flags: bv32, ghost m: Image, ghost rk: map<Resource, nat>)
      returns (conflict: Resource?, ghost prev: Resource?, ghost rec: Rec)
      requires Requesting(m, rk, x, x.start, x.end, parent)
      modifies this, nodes, x
      ensures x.start == old(x.start) && x.end == old(x.end) && Ok()
      ensures conflict == null ==>
        nodes == old(nodes) + {x} && Entered(m, root, rk, x.start, x.end, parent, prev, x, rec, Snapshot(), rank)
      ensures Marked(m[parent], flags, rec)
      ensures conflict != null ==>
        nodes == old(nodes) && Requesting(m, rk, x, x.start, x.end, parent) && rec == RecOf(x)
      ensures conflict == parent <==> !(x.start <= x.end && Holds(m[parent], x.start, x.end))
      ensures conflict != null && conflict != parent ==> FirstTouched(m, root, parent, rec, prev, conflict)
    {
      x.flags := (parent.flags & TYPE_BITS) | (parent.flags & EXT_TYPE_BITS) | BUSY | flags;
      rec := RecOf(x);
      var c, p := Request(parent, x);
      if c == null {
        SearchGap(m, root, rk, parent, p, x, rec);
      }
      return c, p, rec;
    }

    /** One turn of that loop: the region is placed, or refused, or has to wait, or `next` is to be tried. */
    method TryRequest(x: Resource, parent: Resource, flags: bv32, ghost m: Image, ghost rk: map<Resource, nat>)
      returns (placed: bool, next: Resource?, waits: bool, ghost prev: Resource?, ghost rec: Rec,
        ghost blocker: Resource)
      requires Requesting(m, rk, x, x.start, x.end, parent)
      modifies this, nodes, x
      ensures x.start == old(x.start) && x.end == old(x.end) && Ok()
      ensures placed ==>
        nodes == old(nodes) + {x} && Entered(m, root, rk, x.start, x.end, parent, prev, x, rec, Snapshot(), rank)
      ensures Marked(m[parent], flags, rec)
      ensures !placed ==> nodes == old(nodes) && rank == rk && Snapshot() == m
      ensures !placed && next != null ==> Requesting(m, rk, x, x.start, x.end, next) && rk[next] < rk[parent]
      ensures !placed && next == null && x.start <= x.end && Holds(m[root], x.start, x.end) ==>
        Blocks(m, root, rk, x.start, x.end, blocker)
      ensures !placed && next == null ==> blocker in m && waits == Shares(m[blocker], flags)
    {
      var conflict;
      conflict, prev, rec := Attempt(x, parent, flags, m, rk);
      placed, next, waits, blocker := conflict == null, null, false, parent;
      if conflict != null {
        blocker := conflict;
        next, waits := Decide(x, parent, conflict, flags, m, rk, prev, rec);
      }
    }

    /** What is in the way can be entered, or is to be shared, or neither. */
    method Decide(x: Resource, parent: Resource, conflict: Resource, flags: bv32, ghost m: Image,
        ghost rk: map<Resource, nat>, ghost prev: Resource?, ghost rec: Rec)
      returns (next: Resource?, waits: bool)
      requires Requesting(m, rk, x, x.start, x.end, parent) && rec.start == x.start && rec.end == x.end
      requires conflict == parent <==> !(x.start <= x.end && Holds(m[parent], x.start, x.end))
      requires conflict != parent ==> FirstTouched(m, root, parent, rec, prev, conflict)
      ensures next != null ==> Requesting(m, rk, x, x.start, x.end, next) && rk[next] < rk[parent]
      ensures next == null && x.start <= x.end && Holds(m[root], x.start, x.end) ==>
        Blocks(m, root, rk, x.start, x.end, conflict)
      ensures next == null ==> conflict in m && waits == Shares(m[conflict], flags)
    {
      next, waits := null, false;
      if conflict != parent {
        SearchKid(m, root, rk, parent, rec, prev, conflict);
        if conflict.flags & BUSY == 0 {
          return conflict, false;
        }
      }
      waits := conflict.flags & flags & MUXED != 0;
    }

    /** `__request_region`, until it has to wait. It does not succeed exactly when the range is empty, not all in the
        root, or blocked; it waits then exactly if it is to share what is in its way. */
    method RequestRegion(start: nat, n: nat, flags: bv32)
      returns (res: Resource?, waits: bool, ghost q: Resource, ghost prev: Resource?, ghost rec: Rec,
        ghost blocker: Resource)
      requires Ok() && start < WORD && n < WORD
      modifies this, nodes
      ensures Ok() && (res == null ==> nodes == old(nodes) && rank == old(rank) && Snapshot() == old(Snapshot()))
      ensures res != null ==> fresh(res) && nodes == old(nodes) + {res}
      ensures res != null ==>
        Placed(old(Snapshot()), root, old(rank), start, End(start, n), q, prev, res, rec, Snapshot(), rank)
      ensures res != null ==> res.start == start && res.end == End(start, n) && Marked(old(Snapshot())[q], flags, rec)
      ensures res != null ==> start <= End(start, n) && Holds(old(Snapshot())[root], start, End(start, n))
      ensures res != null ==> forall c :: !Blocks(old(Snapshot()), root, old(rank), start, End(start, n), c)
      ensures res == null && start <= End(start, n) && Holds(old(Snapshot())[root], start, End(start, n)) ==>
        Blocks(old(Snapshot()), root, old(rank), start, End(start, n), blocker)
      ensures if res != null then !waits
        else blocker in old(Snapshot()) && waits == Shares(old(Snapshot())[blocker], flags)
    {
      var end := End(start, n);
      var x := new Resource(start, end);
      var parent: Resource := root;
      ghost var m, rk := Snapshot(), rank;
      SearchRoot(m, root, rank, start, end);
      while true
        invariant nodes == old(nodes) && fresh(x) && Requesting(m, rk, x, start, end, parent)
        decreases rk[parent]
      {
        q := parent;
        var placed, next;
        placed, next, waits, prev, rec, blocker := TryRequest(x, parent, flags, m, rk);
        if placed {
          res, waits := x, false;
          return;
        }
        if next == null {
          res := null;
          return;
        }
        parent := next;
      }
    }

    /** The write of `__release_region`. */
    method Unlink(q: Resource, prev: Resource?, x: Resource)
      requires Ok() && Hangs(Snapshot(), root, q, prev, x)
      modifies this, nodes
      ensures Ok() && rank == old(rank) && nodes <= old(nodes)
      ensures Snapshot() == Removed(old(Snapshot()), root, old(rank), q, prev, x)
    {
      ghost var m := Snapshot();
      SetNext(q, prev, x.sibling);
      nodes := set r | r in nodes && !Under(m, root, rank, r, x);
      assert Snapshot() == Removed(m, root, rank, q, prev, x);
      RemovedKeeps(m, root, rank, q, prev, x);
    }

    /** The search of `__release_region`: the region of that range, if there is one, and the slot it hangs in. */
    method FindRegion(start: nat, end: nat) returns (res: Resource?, at: Resource, last: Resource?)
      requires Ok()
      ensures NoRegion(Snapshot(), root, rank, start, end, res)
      ensures res != null ==>
        Region(Snapshot(), root, rank, start, end, res) && Hangs(Snapshot(), root, at, last, res)
    {
      at, last := root, null;
      ghost var m := Snapshot();
      WalkRoot(m, root, rank, start, end);
      while true
        invariant at in nodes && Walking(m, root, rank, start, end, at, last)
        decreases rank[at], m[at].end - Low(m, last)
      {
        WalkStep(m, root, rank, start, end, at, last);
        res := if last == null then at.child else last.sibling;
        if res == null {
          return;
        }
        if res.start <= start && res.end >= end {
          if res.flags & BUSY == 0 {
            at, last := res, null;
            continue;
          }
          if res.start != start || res.end != end {
            res := null;
          }
          return;
        }
        last := res;
      }
    }

    /** `__release_region`: takes out the region of that range, if there is one. */
    method ReleaseRegion(start: nat, n: nat) returns (res: Resource?, ghost q: Resource, ghost prev: Resource?)
      requires Ok() && start < WORD && n < WORD
      modifies this, nodes
      ensures Ok() && rank == old(rank) && nodes <= old(nodes)
      ensures res == null ==> nodes == old(nodes) && Snapshot() == old(Snapshot())
      ensures NoRegion(old(Snapshot()), root, rank, start, End(start, n), res)
      ensures res != null ==> Region(old(Snapshot()), root, rank, start, End(start, n), res)
      ensures res != null ==>
        Hangs(old(Snapshot()), root, q, prev, res) && Snapshot() == Removed(old(Snapshot()), root, rank, q, prev, res)
    {
      var at, last;
      res, at, last := FindRegion(start, End(start, n));
      q, prev := at, last;
      if res != null {
        Unlink(at, last, res);
      }
    }

    /** A region is granted exactly if nothing blocks it; released, it leaves the tree as it was. */
    method RequestAndRelease(start: nat, n: nat, flags: bv32) returns (granted: bool)
      requires Ok() && start < WORD && n < WORD
      modifies this, nodes
      ensures Ok() && Snapshot() == old(Snapshot()) && nodes == old(nodes)
      ensures granted <==>
        start <= End(start, n) && Holds(Snapshot()[root], start, End(start, n))
        && forall c :: !Blocks(Snapshot(), root, old(rank), start, End(start, n), c)
    {
      ghost var m := Snapshot();
      var res, _, q, prev, rec, blocker := RequestRegion(start, n, flags);
      granted := res != null;
      if granted {
        ghost var m' := Snapshot();
        var x, q', prev' := ReleaseRegion(start, n);
        PlacedRemoved(m, root, old(rank), start, End(start, n), q, prev, res, rec, m', rank, q', prev');
        assert nodes == Snapshot().Keys;
      }
    }

    /** Two regions side by side, of `n` and `k` addresses, where nothing is in the way: both are granted. */
    method RequestTwo(start: nat, n: nat, k: nat, flags: bv32) returns (a: Resource, b: Resource)
      requires Ok() && 0 < n && 0 < k && start + n + k <= WORD
      requires Holds(Snapshot()[root], start, start + n + k - 1)
      requires Unblocked(Snapshot(), root, rank, start, start + n + k - 1)
      modifies this, nodes
      ensures Ok() && nodes == old(nodes) + {a, b} && fresh(a) && fresh(b)
      ensures a.start == start && a.end - a.start + 1 == n && b.start == a.end + 1 && b.end - b.start + 1 == k
    {
      ghost var m, rk, mid, end := Snapshot(), rank, start + n - 1, start + n + k - 1;
      PartUnblocked(m, root, rk, start, end, start, mid);
      var x, _, q, prev, rec, blocker := RequestRegion(start, n, flags);
      a := x;
      ghost var m1, rk1 := Snapshot(), rank;
      SameRanges(m, root, rk, start, mid, q, prev, a, rec, m1, rk1, root);
      Beside(m, root, rk, start, mid, start + n, end, q, prev, a, rec, m1, rk1);
      b := RequestNext(start + n, k, flags, a);
    }

    /** A region where nothing is in the way; `a` keeps its range. */
    method RequestNext(start: nat, n: nat, flags: bv32, ghost a: Resource) returns (b: Resource)
      requires Ok() && 0 < n && start < WORD && n < WORD && start + n <= WORD && a in nodes
      requires Holds(Snapshot()[root], start, start + n - 1) && Unblocked(Snapshot(), root, rank, start, start + n - 1)
      modifies this, nodes
      ensures Ok() && nodes == old(nodes) + {b} && fresh(b) && b.start == start && b.end == start + n - 1
      ensures a.start == old(a.start) && a.end == old(a.end)
    {
      ghost var m, rk := Snapshot(), rank;
      assert m[a].start == a.start && m[a].end == a.end;
      var y, _, q, prev, rec, blocker := RequestRegion(start, n, flags);
      b := y;
      SameRanges(m, root, rk, start, start + n - 1, q, prev, b, rec, Snapshot(), rank, a);
      assert Snapshot()[a].start == a.start && Snapshot()[a].end == a.end;
    }

    /** The loop of `__insert_resource` over the children that the new node touches. */
    method FindLast(q: Resource, first: Resource, x: Resource, ghost prev: Resource?)
      returns (last: Resource, conflict: Resource?)
      requires Ok() && Spanning(Snapshot(), root, q, RecOf(x), prev, first)
      ensures if conflict == null then Spans(Snapshot(), root, q, RecOf(x), prev, last)
          else Crosses(Snapshot(), conflict, RecOf(x))
    {
      var next: Resource := first;
      while true
        invariant Spanning(Snapshot(), root, q, RecOf(x), prev, next)
        decreases q.end - next.start
      {
        SpanStep(Snapshot(), root, rank, q, RecOf(x), prev, next);
        if next.start < x.start || next.end > x.end {
          return next, next;
        }
        if next.sibling == null || next.sibling.start > x.end {
          return next, null;
        }
        next := next.sibling;
      }
    }

    /** `next->parent = new` for the run, which `last` ends. */
    method MoveRun(q: Resource, first: Resource, x: Resource, ghost rec: Rec, ghost prev: Resource?,
        ghost last: Resource, ghost m: Image)
      requires Wf(m, root, rank) && q in m && m.Keys == nodes && Spans(m, root, q, rec, prev, last)
      requires first == At(m, q, prev)
      requires Snapshot() == m[last := m[last].(sibling := null)]
      modifies nodes
      ensures Snapshot() == Moved(m, root, q, rec, last, x, rec.end + 1)
    {
      MoveNone(m, root, rank, q, rec, prev, last, x);
      var next: Resource? := first;
      while next != null
        invariant next != null ==> InRun(m, root, q, rec, next)
        invariant Snapshot() == Moved(m, root, q, rec, last, x, Bound(m, rec, next))
        decreases next != null, rec.end - Bound(m, rec, next)
      {
        next := MoveStep(q, next, x, rec, prev, last, m);
      }
    }

    method MoveStep(q: Resource, n: Resource, x: Resource, ghost rec: Rec, ghost prev: Resource?, ghost last: Resource,
        ghost m: Image) returns (y: Resource?)
      requires Wf(m, root, rank) && q in m && m.Keys == nodes && Spans(m, root, q, rec, prev, last)
      requires InRun(m, root, q, rec, n)
      requires Snapshot() == Moved(m, root, q, rec, last, x, m[n].start)
      modifies nodes
      ensures y != null ==> InRun(m, root, q, rec, y) && m[n].start < m[y].start <= rec.end
      ensures Snapshot() == Moved(m, root, q, rec, last, x, Bound(m, rec, y))
    {
      MoveOne(m, root, rank, q, rec, prev, last, x, n);
      y := Adopt(n, x);
    }

    /** `next->parent = new`, and on to the sibling. */
    method Adopt(n: Resource, x: Resource) returns (y: Resource?)
      requires n in nodes
      modifies nodes
      ensures Snapshot() == old(Snapshot())[n := old(Snapshot())[n].(parent := x)] && y == old(Snapshot())[n].sibling
    {
      n.parent := x;
      y := n.sibling;
      assert Snapshot() == old(Snapshot())[n := old(Snapshot())[n].(parent := x)];
    }

    /** The slot that leads to `first`. */
    method FindPrev(q: Resource, first: Resource, ghost rec: Rec, ghost x: Resource, ghost prev: Resource?,
        ghost last: Resource, ghost m: Image) returns (r: Resource?)
      requires Wf(m, root, rank) && q in m && m.Keys == nodes && Spans(m, root, q, rec, prev, last)
      requires first == At(m, q, prev)
      requires Snapshot() == Moved(m, root, q, rec, last, x, rec.end + 1)
      ensures r == prev
    {
      assert Snapshot()[q] == RecOf(q);
      if q.child == first {
        SameSlot(m, root, rank, q, prev, null);
        return null;
      }
      Slot(m, root, rank, q, null);
      assert prev != null && Kid(m, root, prev, q);
      var n: Resource := q.child;
      while n.sibling != first
        invariant Kid(m, root, n, q) && m[n].start <= m[prev].start
        decreases m[prev].start - m[n].start
      {
        SeekPrev(m, root, rank, q, rec, prev, last, x, n);
        assert Snapshot()[n] == RecOf(n);
        n := n.sibling;
      }
      SeekPrev(m, root, rank, q, rec, prev, last, x, n);
      assert Snapshot()[n] == RecOf(n);
      r := n;
    }

    /** The links of the new node, and the run cut off behind `last`. */
    method SeatAbove(q: Resource, first: Resource, last: Resource, x: Resource)
      requires last in nodes && x !in nodes
      modifies nodes, x
      ensures Snapshot() == old(Snapshot())[last := old(Snapshot())[last].(sibling := null)]
      ensures RecOf(x) == old(RecOf(x)).(parent := q, sibling := old(Snapshot())[last].sibling, child := first)
    {
      x.parent := q;
      x.sibling := last.sibling;
      x.child := first;
      Cut(last);
    }

    /** The writes of `__insert_resource`: `x` above the run from `first` to `last`. */
    method Wrap(q: Resource, first: Resource, last: Resource, x: Resource, ghost prev: Resource?)
      requires Ok() && q in nodes && x !in nodes && Spans(Snapshot(), root, q, RecOf(x), prev, last)
      requires first == At(Snapshot(), q, prev)
      modifies this, nodes, x
      ensures Ok() && nodes == old(nodes) + {x} && Inserted(old(Snapshot()), root, q, old(RecOf(x)), x, Snapshot())
    {
      ghost var m, rec := Snapshot(), RecOf(x);
      SeatAbove(q, first, last, x);
      Raise(q, first, x, rec, prev, last, m);
      WrapDone(m, root, old(rank), q, rec, prev, last, x);
    }

    /** The run handed over to `x`, and `x` put in its place. */
    method Raise(q: Resource, first: Resource, x: Resource, ghost rec: Rec, ghost prev: Resource?,
        ghost last: Resource, ghost m: Image)
      requires Wf(m, root, rank) && q in m && x !in m && m.Keys == nodes && Spans(m, root, q, rec, prev, last)
      requires first == At(m, q, prev)
      requires Snapshot() == m[last := m[last].(sibling := null)]
      modifies this, nodes
      ensures nodes == old(nodes) + {x} && rank == Spread(old(rank), x, q) && RecOf(x) == old(RecOf(x))
      ensures var m1 := Moved(m, root, q, rec, last, x, rec.end + 1);
        q in m1 && (prev != null ==> prev in m1) && Snapshot() == SetSlot(m1, q, prev, x)[x := RecOf(x)]
    {
      MoveRun(q, first, x, rec, prev, last, m);
      var p := FindPrev(q, first, rec, x, prev, last, m);
      SetNext(q, p, x);
      Join(x, q);
    }

    /** `__insert_resource`, which fails exactly when the range is empty, not all in the root, or
        crossed by a node. That the new node could be met on the way is ruled out by its not being in
        the tree. */
    method Insert(x: Resource) returns (conflict: Resource?, ghost q: Resource)
      requires Ok() && x !in nodes && x.child == null
      modifies this, nodes, x
      ensures Ok()
      ensures conflict == null ==>
        nodes == old(nodes) + {x} && Inserted(old(Snapshot()), root, q, old(RecOf(x)), x, Snapshot())
      ensures conflict != null ==>
        nodes == old(nodes) && rank == old(rank) && Snapshot() == old(Snapshot()) && RecOf(x) == old(RecOf(x))
      ensures conflict == null ==>
          Inside(old(RecOf(x)), old(Snapshot())[root]) && forall c :: !Crosses(old(Snapshot()), c, old(RecOf(x)))
      ensures conflict != null ==>
        x.end < x.start || !Inside(RecOf(x), Snapshot()[root]) || Crosses(Snapshot(), conflict, RecOf(x))
    {
      var parent: Resource := root;
      q := root;
      ghost var m, rec := Snapshot(), RecOf(x);
      DescendRoot(m, root, rank, rec);
      while true
        invariant Snapshot() == m && nodes == old(nodes) && rank == old(rank) && RecOf(x) == rec && Ok()
        invariant Descending(m, root, rank, rec, parent)
        decreases rank[parent]
      {
        q := parent;
        var first, prev := Request(parent, x);
        if first == null {
          LeafInserted(m, root, old(rank), parent, prev, x, rec);
          GapNoneCrosses(m, root, old(rank), rec, parent, prev, x);
          return null, q;
        }
        if first == parent {
          return first, q;
        }
        if first.start > x.start || first.end < x.end || (first.start == x.start && first.end == x.end) {
          SpanFirst(m, root, rank, parent, rec, prev, first);
          var last, crossing := FindLast(parent, first, x, prev);
          if crossing == null {
            SpanNoneCrosses(m, root, rank, rec, parent, prev, last);
            Wrap(parent, first, last, x, prev);
          }
          return crossing, q;
        }
        DescendKid(m, root, rank, rec, parent, prev, first);
        parent := first;
      }
    }

    /** `next->sibling = NULL`. */
    method Cut(last: Resource)
      requires last in nodes
      modifies nodes
      ensures Snapshot() == old(Snapshot())[last := old(Snapshot())[last].(sibling := null)]
    {
      last.sibling := null;
      assert Snapshot() == old(Snapshot())[last := old(Snapshot())[last].(sibling := null)];
    }

    /** From here on `x` belongs to the tree. */
    ghost method Join(x: Resource, q: Resource)
      requires q in rank
      modifies this
      ensures nodes == old(nodes) + {x} && rank == Spread(old(rank), x, q)
      ensures Snapshot() == old(Snapshot())[x := RecOf(x)]
    {
      nodes := nodes + {x};
      rank := Spread(rank, x, q);
      assert Snapshot() == old(Snapshot())[x := RecOf(x)];
    }
  }
}
