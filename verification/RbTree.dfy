/** Red-black trees with parent pointers: `lib/rbtree.c` with the inline helpers of
    `include/linux/rbtree.h` and `include/linux/rbtree_augmented.h`.

    `order` is the abstract content of a tree: its nodes in in-order sequence. `recs` mirrors
    the heap fields with pointers replaced by in-order positions. */
module RbTree {
  import opened RbShape
  import opened RbErase
  import opened RbRenumber

  class Node {
    var left: Node?
    var right: Node?
    var parent: Node?
    var red: bool
  }

  ghost predicate Numbered(m: map<Node, int>, n: Node?) {
    n == null || n in m
  }

  ghost function Number(m: map<Node, int>, n: Node?): int {
    if n == null || n !in m then NIL else m[n]
  }

  /** `m` numbers exactly the nodes of `s`, by position. */
  ghost predicate Numbering(s: seq<Node>, m: map<Node, int>) {
    (forall n :: n in m ==> 0 <= m[n] < |s| && s[m[n]] == n)
    && forall k :: 0 <= k < |s| ==> s[k] in m && m[s[k]] == k
  }

  ghost function RoomSeq(s: seq<Node>, n: Node, k: int): seq<Node>
    requires 0 <= k <= |s|
  {
    s[..k] + [n] + s[k..]
  }

  ghost function RoomMap(m: map<Node, int>, n: Node, k: int): map<Node, int> {
    (map x | x in m :: ShiftUp(m[x], k))[n := k]
  }

  lemma {:induction false} RoomNumbering(s: seq<Node>, m: map<Node, int>, n: Node, k: int)
    requires Numbering(s, m) && n !in m && 0 <= k <= |s|
    ensures Numbering(RoomSeq(s, n, k), RoomMap(m, n, k))
  {
    var s', m' := RoomSeq(s, n, k), RoomMap(m, n, k);
    forall j | 0 <= j < |s'|
      ensures s'[j] in m' && m'[s'[j]] == j
    {
      assert s'[j] == if j < k then s[j] else if j == k then n else s[j - 1];
    }
    forall x | x in m'
      ensures 0 <= m'[x] < |s'| && s'[m'[x]] == x
    {
      if x != n {
        assert s[m[x]] == x;
      }
    }
  }

  ghost function ShutSeq(s: seq<Node>, k: int): seq<Node>
    requires 0 <= k < |s|
  {
    s[..k] + s[k + 1..]
  }

  ghost function ShutMap(m: map<Node, int>, n: Node): map<Node, int>
    requires n in m
  {
    map x | x in m && x != n :: ShiftDown(m[x], m[n])
  }

  lemma {:induction false} ShutNumbering(s: seq<Node>, m: map<Node, int>, n: Node)
    requires Numbering(s, m) && n in m
    ensures Numbering(ShutSeq(s, m[n]), ShutMap(m, n))
  {
    var k := m[n];
    var s', m' := ShutSeq(s, k), ShutMap(m, n);
    forall j | 0 <= j < |s'|
      ensures s'[j] in m' && m'[s'[j]] == j
    {
      assert s'[j] == if j < k then s[j] else s[j + 1];
    }
    forall x | x in m'
      ensures 0 <= m'[x] < |s'| && s'[m'[x]] == x
    {
      assert s[m[x]] == x;
    }
  }

  ghost predicate Mirrored(m: map<Node, int>, n: Node, x: Rec)
    reads n
  {
    Numbered(m, n.left) && Numbered(m, n.right) && Numbered(m, n.parent)
    && x == Rec(Number(m, n.left), Number(m, n.right), Number(m, n.parent), n.red)
  }

  lemma {:induction false} RoomMirrored(m: map<Node, int>, n: Node, k: int, x: Node, rec: Rec)
    requires Mirrored(m, x, rec) && n !in m && k >= 0
    ensures Mirrored(RoomMap(m, n, k), x, UpRec(rec, k))
  {}

  lemma {:induction false} ShutMirrored(m: map<Node, int>, n: Node, x: Node, rec: Rec)
    requires Mirrored(m, x, rec) && n in m && m[n] >= 0 && m[n] !in {rec.left, rec.right, rec.parent}
    ensures Mirrored(ShutMap(m, n), x, DnRec(rec, m[n]))
  {}

  lemma {:induction false} ShutMirrors(s: seq<Node>, r: seq<Rec>, m: map<Node, int>, n: Node, top: int, j: int)
    requires |s| == |r| && n in m && 0 <= m[n] < |s| && 0 <= j < |s| - 1 && Unlinked(r, top, m[n])
    requires forall i :: 0 <= i < |s| ==> Mirrored(m, s[i], r[i])
    ensures Mirrored(ShutMap(m, n), ShutSeq(s, m[n])[j], Shut(r, m[n])[j])
  {
    var i := if j < m[n] then j else j + 1;
    ShutMirrored(m, n, s[i], r[i]);
    assert Shut(r, m[n])[ShiftDown(i, m[n])] == DnRec(r[i], m[n]);
  }

  /** Once `node` is less than a node of `s`, it is less than all that follow. */
  ghost predicate Rising(node: Node, s: seq<Node>, less: (Node, Node) -> bool) {
    forall i, j :: 0 <= i < j < |s| && less(node, s[i]) ==> less(node, s[j])
  }

  /** `less` is a strict weak order on the nodes of `s` and `node`. */
  ghost predicate WeakOrder(node: Node, s: seq<Node>, less: (Node, Node) -> bool) {
    (forall x, y :: x in [node] + s && y in [node] + s && less(x, y) ==> !less(y, x))
    && forall x, y, z :: x in [node] + s && y in [node] + s && z in [node] + s && less(x, y) && !less(z, y) ==>
        less(x, z)
  }

  ghost predicate Ascending(s: seq<Node>, less: (Node, Node) -> bool) {
    forall i, j :: 0 <= i < j < |s| ==> !less(s[j], s[i])
  }

  /** `node` is less than exactly the nodes from position `k` on. */
  ghost predicate Belongs(node: Node, s: seq<Node>, less: (Node, Node) -> bool, k: int) {
    0 <= k <= |s| && forall j :: 0 <= j < |s| ==> (less(node, s[j]) <==> k <= j)
  }

  /** In a sorted tree `Add` may be called, and the tree it leaves is sorted. */
  lemma {:induction false} AddAscending(node: Node, s: seq<Node>, less: (Node, Node) -> bool)
    requires WeakOrder(node, s, less) && Ascending(s, less)
    ensures Rising(node, s, less)
    ensures forall k :: Belongs(node, s, less, k) ==> Ascending(s[..k] + [node] + s[k..], less)
  {
    forall i, j | 0 <= i < j < |s| && less(node, s[i])
      ensures less(node, s[j])
    {
      assert s[i] in [node] + s && s[j] in [node] + s && node in [node] + s;
    }
    forall k | Belongs(node, s, less, k)
      ensures Ascending(s[..k] + [node] + s[k..], less)
    {
      var t := s[..k] + [node] + s[k..];
      forall i, j | 0 <= i < j < |t|
        ensures !less(t[j], t[i])
      {
        assert t[i] in [node] + s && t[j] in [node] + s;
      }
    }
  }

  class Root {
    var node: Node?
    ghost var order: seq<Node>
    ghost var rank: map<Node, int>
    ghost var recs: seq<Rec>

    constructor ()
      ensures Valid() && order == []
    {
      node, order, rank, recs := null, [], map[], [];
      new;
      assert Sub(recs, 0, 0, NIL, NIL, 0);
    }

    ghost predicate Known(n: Node?)
      reads this`rank
    {
      Numbered(rank, n)
    }

    ghost function Pos(n: Node?): int
      reads this`rank
    {
      Number(rank, n)
    }

    /** The numbering is one to one and `recs` tells what the heap holds. */
    ghost predicate Mirrors()
      reads this, order
    {
      |recs| == |order| && Known(node) && Numbering(order, rank)
      && forall k {:trigger recs[k]} :: 0 <= k < |order| ==> Mirrored(rank, order[k], recs[k])
    }

    /** A red-black tree with black root whose in-order sequence is `order`. */
    ghost predicate Valid()
      reads this, order
    {
      Mirrors() && RbShape.Valid(recs, Pos(node))
    }

    lemma Look(n: Node)
      requires Mirrors() && n in rank
      ensures 0 <= rank[n] < |recs| && Mirrored(rank, n, recs[rank[n]])
    {
      assert order[rank[n]] == n;
    }

    method SetLeft(n: Node, v: Node?)
      requires Mirrors() && n in rank && Known(v)
      modifies n`left, this`recs
      ensures Mirrors() && recs == old(recs)[rank[n] := old(recs)[rank[n]].(left := Pos(v))]
    {
      n.left := v;
      recs := recs[rank[n] := recs[rank[n]].(left := Pos(v))];
    }

    method SetRight(n: Node, v: Node?)
      requires Mirrors() && n in rank && Known(v)
      modifies n`right, this`recs
      ensures Mirrors() && recs == old(recs)[rank[n] := old(recs)[rank[n]].(right := Pos(v))]
    {
      n.right := v;
      recs := recs[rank[n] := recs[rank[n]].(right := Pos(v))];
    }

    method SetParentColor(n: Node, p: Node?, red: bool)
      requires Mirrors() && n in rank && Known(p)
      modifies n`parent, n`red, this`recs
      ensures Mirrors() && recs == old(recs)[rank[n] := old(recs)[rank[n]].(parent := Pos(p), red := red)]
    {
      n.parent := p;
      n.red := red;
      recs := recs[rank[n] := recs[rank[n]].(parent := Pos(p), red := red)];
    }

    /** `__rb_change_child`. */
    method ChangeChild(old_: Node, new_: Node?, parent: Node?)
      requires Mirrors() && Known(new_) && Known(parent) && old_ in rank
      modifies this`node, this`recs, order
      ensures Mirrors() && node == if parent == null then new_ else old(node)
      ensures recs == Replaced(old(recs), rank[old_], Pos(new_), Pos(parent))
    {
      if parent != null {
        if parent.left == old_ {
          SetLeft(parent, new_);
        } else {
          SetRight(parent, new_);
        }
      } else {
        node := new_;
      }
    }

    /** `__rb_rotate_set_parents`: `new_` takes over the place and colour of `old_` and
        becomes its parent. */
    method RotateSetParents(old_: Node, new_: Node, red: bool)
      requires Mirrors() && old_ in rank && new_ in rank && old_ != new_
      modifies this`node, this`recs, order
      ensures Mirrors() && node == if old(old_.parent) == null then new_ else old(node)
      ensures recs == Promoted(old(recs), rank[old_], rank[new_], red)
    {
      Look(old_);
      var parent := old_.parent;
      SetParentColor(new_, parent, old_.red);
      SetParentColor(old_, new_, red);
      ChangeChild(old_, new_, parent);
    }

    /** `if (tmp) rb_set_parent_color(tmp, p, RB_BLACK)`. */
    method Adopt(tmp: Node?, p: Node)
      requires Mirrors() && Known(tmp) && p in rank
      modifies this`recs, order
      ensures Mirrors() && recs == Adopted(old(recs), Pos(tmp), rank[p])
    {
      if tmp != null {
        SetParentColor(tmp, p, false);
      }
    }

    method HangLeft(x: Node, y: Node, tmp: Node?)
      requires Mirrors() && x in rank && y in rank && x != y && Known(tmp)
      modifies this`recs, order
      ensures Mirrors() && recs == HungLeft(old(recs), rank[x], rank[y], Pos(tmp))
    {
      SetLeft(x, tmp);
      SetRight(y, x);
      Adopt(tmp, x);
    }

    method HangRight(x: Node, y: Node, tmp: Node?)
      requires Mirrors() && x in rank && y in rank && x != y && Known(tmp)
      modifies this`recs, order
      ensures Mirrors() && recs == HungRight(old(recs), rank[x], rank[y], Pos(tmp))
    {
      SetRight(x, tmp);
      SetLeft(y, x);
      Adopt(tmp, x);
    }

    method FoldLeft(parent: Node, node: Node)
      requires Mirrors() && parent in rank && node in rank && node != parent
      requires node.left != parent && node.left != node
      modifies this`recs, order
      ensures Mirrors() && FoldedLeft(old(recs), recs, rank[parent], rank[node])
    {
      Look(node);
      HangRight(parent, node, node.left);
      SetParentColor(parent, node, true);
    }

    method FoldRight(parent: Node, node: Node)
      requires Mirrors() && parent in rank && node in rank && node != parent
      requires node.right != parent && node.right != node
      modifies this`recs, order
      ensures Mirrors() && FoldedRight(old(recs), recs, rank[parent], rank[node])
    {
      Look(node);
      HangLeft(parent, node, node.right);
      SetParentColor(parent, node, true);
    }

    method TurnRight(parent: Node, gparent: Node, tmp: Node?)
      requires Mirrors() && parent in rank && gparent in rank && parent.right == tmp && parent != gparent
      requires !gparent.red && tmp !in {parent, gparent} && gparent.parent !in {parent, gparent}
      requires tmp != null ==> gparent.parent != tmp
      modifies this`node, this`recs, order
      ensures Mirrors() && TurnedRight(old(recs), recs, rank[parent], rank[gparent])
      ensures Pos(node) == if old(recs)[rank[gparent]].parent == NIL then rank[parent] else old(Pos(node))
    {
      ghost var r := recs;
      HangLeft(gparent, parent, tmp);
      RotateSetParents(gparent, parent, true);
      TurnRightWrites(r, recs, rank[parent], rank[gparent]);
    }

    method TurnLeft(parent: Node, gparent: Node, tmp: Node?)
      requires Mirrors() && parent in rank && gparent in rank && parent.left == tmp && parent != gparent
      requires !gparent.red && tmp !in {parent, gparent} && gparent.parent !in {parent, gparent}
      requires tmp != null ==> gparent.parent != tmp
      modifies this`node, this`recs, order
      ensures Mirrors() && TurnedLeft(old(recs), recs, rank[parent], rank[gparent])
      ensures Pos(node) == if old(recs)[rank[gparent]].parent == NIL then rank[parent] else old(Pos(node))
    {
      ghost var r := recs;
      HangRight(gparent, parent, tmp);
      RotateSetParents(gparent, parent, true);
      TurnLeftWrites(r, recs, rank[parent], rank[gparent]);
    }

    /** The rotations of `__rb_insert` when `parent0` is the left child of `gparent`. */
    method InsertRight(node: Node, parent0: Node, gparent: Node) returns (ghost r1: seq<Rec>)
      requires Mirrors() && node in rank && parent0 in rank && gparent in rank
      requires Apart(recs, rank[node], rank[parent0], rank[gparent])
      modifies this`node, this`recs, order
      ensures Mirrors() && FixedRight(old(recs), r1, recs, rank[node], rank[parent0], rank[gparent])
      ensures Pos(this.node) == if old(recs)[rank[gparent]].parent != NIL then old(Pos(this.node))
        else if rank[node] == old(recs)[rank[parent0]].right then rank[node] else rank[parent0]
    {
      var parent := parent0;
      var tmp := parent.right;
      if node == tmp {
        FoldLeft(parent, node);
        parent := node;
        tmp := node.right;
      }
      r1 := recs;
      TurnRight(parent, gparent, tmp);
    }

    /** The rotations of `__rb_insert` when `parent0` is the right child of `gparent`. */
    method InsertLeft(node: Node, parent0: Node, gparent: Node) returns (ghost r1: seq<Rec>)
      requires Mirrors() && node in rank && parent0 in rank && gparent in rank
      requires Apart(recs, rank[node], rank[parent0], rank[gparent])
      modifies this`node, this`recs, order
      ensures Mirrors() && FixedLeft(old(recs), r1, recs, rank[node], rank[parent0], rank[gparent])
      ensures Pos(this.node) == if old(recs)[rank[gparent]].parent != NIL then old(Pos(this.node))
        else if rank[node] == old(recs)[rank[parent0]].left then rank[node] else rank[parent0]
    {
      var parent := parent0;
      var tmp := parent.left;
      if node == tmp {
        FoldRight(parent, node);
        parent := node;
        tmp := node.left;
      }
      r1 := recs;
      TurnLeft(parent, gparent, tmp);
    }

    method FinishRight(node: Node, parent: Node, gparent: Node, ghost c: Ctx, ghost lo: int, ghost hi: int,
        ghost h: int)
      requires Mirrors() && node in rank && parent in rank && gparent in rank && 0 <= lo <= hi <= |recs|
      requires RedRed(recs, c, Pos(this.node), lo, hi, rank[node], rank[parent], rank[gparent], h)
      requires rank[parent] < rank[gparent] && Black(recs, recs[rank[gparent]].right)
      modifies this`node, this`recs, order
      ensures Valid()
    {
      ghost var r, top := recs, Pos(this.node);
      RedRedApart(r, c, top, lo, hi, rank[node], rank[parent], rank[gparent], h);
      ghost var r1 := InsertRight(node, parent, gparent);
      FixRight(r, r1, recs, c, top, Pos(this.node), lo, hi, rank[node], rank[parent], rank[gparent], h);
    }

    method FinishLeft(node: Node, parent: Node, gparent: Node, ghost c: Ctx, ghost lo: int, ghost hi: int, ghost h: int)
      requires Mirrors() && node in rank && parent in rank && gparent in rank && 0 <= lo <= hi <= |recs|
      requires RedRed(recs, c, Pos(this.node), lo, hi, rank[node], rank[parent], rank[gparent], h)
      requires rank[gparent] < rank[parent] && Black(recs, recs[rank[gparent]].left)
      modifies this`node, this`recs, order
      ensures Valid()
    {
      ghost var r, top := recs, Pos(this.node);
      RedRedApart(r, c, top, lo, hi, rank[node], rank[parent], rank[gparent], h);
      ghost var r1 := InsertLeft(node, parent, gparent);
      FixLeft(r, r1, recs, c, top, Pos(this.node), lo, hi, rank[node], rank[parent], rank[gparent], h);
    }

    /** Both children of `gparent` are red: the trouble moves up two levels. */
    method Climb(node: Node, parent: Node, gparent: Node, tmp: Node, ghost c: Ctx, ghost lo: int, ghost hi: int,
        ghost h: int)
      requires Mirrors() && node in rank && parent in rank && gparent in rank && tmp in rank && 0 <= lo <= hi <= |recs|
      requires RedRed(recs, c, Pos(this.node), lo, hi, rank[node], rank[parent], rank[gparent], h)
      requires tmp.red && tmp == if rank[parent] < rank[gparent] then gparent.right else gparent.left
      modifies this`recs, order
      ensures Mirrors() && Inserting(recs, c, Pos(this.node), lo, hi, rank[gparent], h + 1)
    {
      ghost var r, top := recs, Pos(this.node);
      RedRedApart(r, c, top, lo, hi, rank[node], rank[parent], rank[gparent], h);
      Look(gparent);
      SetParentColor(tmp, gparent, false);
      SetParentColor(parent, gparent, false);
      SetParentColor(gparent, gparent.parent, true);
      RedRedRecolor(r, recs, c, top, lo, hi, rank[node], rank[parent], rank[tmp], rank[gparent], h);
    }

    /** One round of `__rb_insert` below a red parent: recolour (and go on) or rotate (and stop). */
    method Resolve(node: Node, parent: Node, gparent: Node, ghost c: Ctx, ghost lo: int, ghost hi: int,
        ghost h: int) returns (done: bool)
      requires Mirrors() && node in rank && parent in rank && gparent in rank && 0 <= lo <= hi <= |recs|
      requires RedRed(recs, c, Pos(this.node), lo, hi, rank[node], rank[parent], rank[gparent], h)
      modifies this`node, this`recs, order
      ensures Mirrors()
      ensures done ==> Valid()
      ensures !done ==> Inserting(recs, c, Pos(this.node), lo, hi, rank[gparent], h + 1)
    {
      Look(gparent);
      RedRedSide(recs, c, Pos(this.node), lo, hi, rank[node], rank[parent], rank[gparent], h);
      var tmp := gparent.right;
      if parent != tmp {
        if tmp != null && tmp.red {
          Climb(node, parent, gparent, tmp, c, lo, hi, h);
          return false;
        }
        FinishRight(node, parent, gparent, c, lo, hi, h);
      } else {
        tmp := gparent.left;
        if tmp != null && tmp.red {
          Climb(node, parent, gparent, tmp, c, lo, hi, h);
          return false;
        }
        FinishLeft(node, parent, gparent, c, lo, hi, h);
      }
      return true;
    }

    /** `__rb_insert`. */
    method InsertColor(node0: Node, ghost c0: Ctx, ghost lo0: int, ghost hi0: int, ghost h0: int)
      requires Mirrors() && node0 in rank && 0 <= lo0 <= hi0 <= |recs|
      requires Inserting(recs, c0, Pos(node), lo0, hi0, rank[node0], h0)
      modifies this`node, this`recs, order
      ensures Valid()
    {
      var node := node0;
      var parent := node.parent;
      ghost var c, lo, hi, h := c0, lo0, hi0, h0;
      while true
        invariant Mirrors() && node in rank && parent == node.parent && 0 <= lo <= hi <= |recs|
        invariant Inserting(recs, c, Pos(this.node), lo, hi, rank[node], h)
        decreases c
      {
        ghost var r, i, top := recs, rank[node], Pos(this.node);
        Look(node);
        if parent == null {
          SetParentColor(node, null, false);
          DoneAtTop(r, c, top, lo, hi, i, h);
          return;
        }
        Look(parent);
        if !parent.red {
          DoneBelowBlack(recs, c, top, lo, hi, i, h);
          return;
        }
        var gparent := parent.parent;
        lo, hi := SplitRedRed(r, c, top, lo, hi, i, rank[parent], h);
        c := c.rest.rest;
        var done := Resolve(node, parent, gparent, c, lo, hi, h);
        if done {
          return;
        }
        node, h := gparent, h + 1;
        parent := node.parent;
      }
    }

    // -------------------------------------------------------------- removal: rebalancing

    /** Case 3 of `____rb_erase_color`, right sibling. */
    method Lean(parent: Node, sibling: Node, tmp2: Node)
      requires Mirrors() && parent in rank && sibling in rank && tmp2 in rank
      requires Siblings(recs, rank[parent], rank[sibling], rank[tmp2])
      modifies this`recs, order
      ensures Mirrors() && Leaned(old(recs), recs, rank[parent], rank[sibling], rank[tmp2])
    {
      Look(tmp2);
      var tmp1 := tmp2.right;
      SetLeft(sibling, tmp1);
      SetRight(tmp2, sibling);
      SetRight(parent, tmp2);
      Adopt(tmp1, sibling);
    }

    method SwingLinks(parent: Node, sibling: Node, tmp1: Node)
      requires Mirrors() && parent in rank && sibling in rank && tmp1 in rank && parent != sibling
      requires SwingApart(recs, rank[parent], rank[sibling], rank[tmp1], recs[rank[sibling]].left)
      modifies this`recs, order
      ensures Mirrors() && recs == SwungLinks(old(recs), rank[parent], rank[sibling], rank[tmp1])
    {
      Look(sibling);
      var tmp2 := sibling.left;
      SetRight(parent, tmp2);
      SetLeft(sibling, parent);
      SetParentColor(tmp1, sibling, false);
      if tmp2 != null {
        SetParentColor(tmp2, parent, tmp2.red);
      }
    }

    /** Case 4 of `____rb_erase_color`, right sibling. */
    method Swing(parent: Node, sibling: Node, tmp1: Node)
      requires Mirrors() && parent in rank && sibling in rank && tmp1 in rank
      requires SwingApart(recs, rank[parent], rank[sibling], rank[tmp1], recs[rank[sibling]].left)
      modifies this`node, this`recs, order
      ensures Mirrors() && Swung(old(recs), recs, rank[parent], rank[sibling], rank[tmp1])
      ensures Pos(node) == if old(recs)[rank[parent]].parent == NIL then rank[sibling] else old(Pos(node))
    {
      ghost var r := recs;
      Look(parent);
      SwingLinks(parent, sibling, tmp1);
      RotateSetParents(parent, sibling, false);
      SwingWrites(r, recs, rank[parent], rank[sibling], rank[tmp1]);
    }

    /** Case 1: the red sibling rotates above `parent`. */
    method RaiseRed(parent: Node, sibling: Node, ghost c: Ctx, ghost lo: int, ghost far: int, ghost i: int,
        ghost h: int) returns (sibling': Node)
      requires Mirrors() && parent in rank && sibling in rank && 0 <= lo <= far <= |recs| && sibling.red
      requires ShortLeft(recs, c, Pos(node), lo, far, i, rank[parent], rank[sibling], h)
      modifies this`node, this`recs, order
      ensures Mirrors() && lo <= rank[sibling] <= |recs| && sibling' in rank && parent.red
      ensures ShortLeft(recs, Up(far, c), Pos(node), lo, rank[sibling], i, rank[parent], rank[sibling'], h)
    {
      ghost var r, top := recs, Pos(node);
      SiblingsLeft(r, c, top, lo, far, i, rank[parent], rank[sibling], h);
      Look(parent);
      Look(sibling);
      var tmp1 := sibling.left;
      TurnLeft(sibling, parent, tmp1);
      Look(parent);
      RaiseLeft(r, recs, c, top, Pos(node), lo, far, i, rank[parent], rank[sibling], h);
      sibling' := tmp1;
    }

    /** Case 2: the sibling becomes red; a red parent becomes black and ends the loop. */
    method Paint(parent: Node, sibling: Node) returns (done: bool)
      requires Mirrors() && parent in rank && sibling in rank && parent != sibling && sibling.parent == parent
      modifies this`recs, order
      ensures Mirrors() && parent.parent == old(parent.parent) && done == (old(parent.red) || parent.parent == null)
      ensures var r, p, s := old(recs), rank[parent], rank[sibling];
        recs == r[s := r[s].(red := true)][p := r[p].(red := false)]
    {
      Look(parent);
      Look(sibling);
      SetParentColor(sibling, parent, true);
      if parent.red {
        SetParentColor(parent, parent.parent, false);
        done := true;
      } else {
        done := parent.parent == null;
      }
      Look(parent);
    }

    method FinishSwing(parent: Node, sibling: Node, tmp1: Node, ghost c: Ctx, ghost lo: int, ghost far: int,
        ghost i: int, ghost h: int)
      requires Mirrors() && parent in rank && sibling in rank && tmp1 in rank && 0 <= lo <= far <= |recs|
      requires Swingable(recs, c, Pos(node), lo, far, i, rank[parent], rank[sibling], rank[tmp1], h)
      modifies this`node, this`recs, order
      ensures Valid()
    {
      ghost var r, top := recs, Pos(node);
      SwingLeftApart(r, c, top, lo, far, i, rank[parent], rank[sibling], rank[tmp1], h);
      Swing(parent, sibling, tmp1);
      SwingLeft(r, recs, c, top, Pos(node), lo, far, i, rank[parent], rank[sibling], rank[tmp1], h);
    }

    /** Cases 2 to 4, once the sibling is black. */
    method LeftBlack(parent: Node, sibling0: Node, ghost c: Ctx, ghost lo: int, ghost far: int, ghost i: int,
        ghost h: int) returns (done: bool)
      requires Mirrors() && parent in rank && sibling0 in rank && 0 <= lo <= far <= |recs| && !sibling0.red
      requires ShortLeft(recs, c, Pos(node), lo, far, i, rank[parent], rank[sibling0], h)
      modifies this`node, this`recs, order
      ensures Mirrors() && (done ==> Valid())
      ensures !done ==>
        Short(recs, c, Pos(node), lo, far, rank[parent], recs[rank[parent]].parent, h + 1) && parent.parent != null
      ensures old(parent.red) ==> done
    {
      var sibling := sibling0;
      ghost var r, p, s, top := recs, rank[parent], rank[sibling], Pos(node);
      SiblingsLeft(r, c, top, lo, far, i, p, s, h);
      Look(parent);
      Look(sibling);
      var tmp1 := sibling.right;
      if tmp1 == null || !tmp1.red {
        var tmp2 := sibling.left;
        if tmp2 == null || !tmp2.red {
          done := Paint(parent, sibling);
          PaintLeft(r, recs, c, top, lo, far, i, p, s, h);
          return;
        }
        Lean(parent, sibling, tmp2);
        LeanLeft(r, recs, c, top, lo, far, i, p, s, rank[tmp2], h);
        tmp1 := sibling;
        sibling := tmp2;
      } else {
        ReadyLeft(r, c, top, lo, far, i, p, s, h);
      }
      FinishSwing(parent, sibling, tmp1, c, lo, far, i, h);
      done := true;
    }

    /** Case 3 of `____rb_erase_color`, left sibling. */
    method LeanR(parent: Node, sibling: Node, tmp2: Node)
      requires Mirrors() && parent in rank && sibling in rank && tmp2 in rank
      requires Siblings(recs, rank[parent], rank[sibling], rank[tmp2])
      modifies this`recs, order
      ensures Mirrors() && LeanedRight(old(recs), recs, rank[parent], rank[sibling], rank[tmp2])
    {
      Look(tmp2);
      var tmp1 := tmp2.left;
      SetRight(sibling, tmp1);
      SetLeft(tmp2, sibling);
      SetLeft(parent, tmp2);
      Adopt(tmp1, sibling);
    }

    method SwingLinksR(parent: Node, sibling: Node, tmp1: Node)
      requires Mirrors() && parent in rank && sibling in rank && tmp1 in rank && parent != sibling
      requires SwingApart(recs, rank[parent], rank[sibling], rank[tmp1], recs[rank[sibling]].right)
      modifies this`recs, order
      ensures Mirrors() && recs == SwungLinksRight(old(recs), rank[parent], rank[sibling], rank[tmp1])
    {
      Look(sibling);
      var tmp2 := sibling.right;
      SetLeft(parent, tmp2);
      SetRight(sibling, parent);
      SetParentColor(tmp1, sibling, false);
      if tmp2 != null {
        SetParentColor(tmp2, parent, tmp2.red);
      }
    }

    /** Case 4 of `____rb_erase_color`, left sibling. */
    method SwingR(parent: Node, sibling: Node, tmp1: Node)
      requires Mirrors() && parent in rank && sibling in rank && tmp1 in rank
      requires SwingApart(recs, rank[parent], rank[sibling], rank[tmp1], recs[rank[sibling]].right)
      modifies this`node, this`recs, order
      ensures Mirrors() && SwungRight(old(recs), recs, rank[parent], rank[sibling], rank[tmp1])
      ensures Pos(node) == if old(recs)[rank[parent]].parent == NIL then rank[sibling] else old(Pos(node))
    {
      ghost var r := recs;
      Look(parent);
      SwingLinksR(parent, sibling, tmp1);
      RotateSetParents(parent, sibling, false);
      SwingWritesRight(r, recs, rank[parent], rank[sibling], rank[tmp1]);
    }

    /** Case 1: the red sibling rotates above `parent`. */
    method RaiseRedR(parent: Node, sibling: Node, ghost c: Ctx, ghost far: int, ghost hi: int, ghost i: int,
        ghost h: int) returns (sibling': Node)
      requires Mirrors() && parent in rank && sibling in rank && 0 <= far <= hi <= |recs| && sibling.red
      requires ShortRight(recs, c, Pos(node), far, hi, i, rank[parent], rank[sibling], h)
      modifies this`node, this`recs, order
      ensures Mirrors() && 0 <= rank[sibling] + 1 <= hi <= |recs| && sibling' in rank && parent.red
      ensures ShortRight(recs, Up(far, c), Pos(node), rank[sibling] + 1, hi, i, rank[parent], rank[sibling'], h)
    {
      ghost var r, top := recs, Pos(node);
      SiblingsRight(r, c, top, far, hi, i, rank[parent], rank[sibling], h);
      Look(parent);
      Look(sibling);
      var tmp1 := sibling.right;
      TurnRight(sibling, parent, tmp1);
      Look(parent);
      RaiseRight(r, recs, c, top, Pos(node), far, hi, i, rank[parent], rank[sibling], h);
      sibling' := tmp1;
    }

    method FinishSwingR(parent: Node, sibling: Node, tmp1: Node, ghost c: Ctx, ghost far: int, ghost hi: int,
        ghost i: int, ghost h: int)
      requires Mirrors() && parent in rank && sibling in rank && tmp1 in rank && 0 <= far <= hi <= |recs|
      requires SwingableRight(recs, c, Pos(node), far, hi, i, rank[parent], rank[sibling], rank[tmp1], h)
      modifies this`node, this`recs, order
      ensures Valid()
    {
      ghost var r, top := recs, Pos(node);
      SwingRightApart(r, c, top, far, hi, i, rank[parent], rank[sibling], rank[tmp1], h);
      SwingR(parent, sibling, tmp1);
      SwingRight(r, recs, c, top, Pos(node), far, hi, i, rank[parent], rank[sibling], rank[tmp1], h);
    }

    /** Cases 2 to 4, once the sibling is black. */
    method RightBlack(parent: Node, sibling0: Node, ghost c: Ctx, ghost far: int, ghost hi: int, ghost i: int,
        ghost h: int) returns (done: bool)
      requires Mirrors() && parent in rank && sibling0 in rank && 0 <= far <= hi <= |recs| && !sibling0.red
      requires ShortRight(recs, c, Pos(node), far, hi, i, rank[parent], rank[sibling0], h)
      modifies this`node, this`recs, order
      ensures Mirrors() && (done ==> Valid())
      ensures !done ==>
        Short(recs, c, Pos(node), far, hi, rank[parent], recs[rank[parent]].parent, h + 1) && parent.parent != null
      ensures old(parent.red) ==> done
    {
      var sibling := sibling0;
      ghost var r, p, s, top := recs, rank[parent], rank[sibling], Pos(node);
      SiblingsRight(r, c, top, far, hi, i, p, s, h);
      Look(parent);
      Look(sibling);
      var tmp1 := sibling.left;
      if tmp1 == null || !tmp1.red {
        var tmp2 := sibling.right;
        if tmp2 == null || !tmp2.red {
          done := Paint(parent, sibling);
          PaintRight(r, recs, c, top, far, hi, i, p, s, h);
          return;
        }
        LeanR(parent, sibling, tmp2);
        LeanRight(r, recs, c, top, far, hi, i, p, s, rank[tmp2], h);
        tmp1 := sibling;
        sibling := tmp2;
      } else {
        ReadyRight(r, c, top, far, hi, i, p, s, h);
      }
      FinishSwingR(parent, sibling, tmp1, c, far, hi, i, h);
      done := true;
    }

    method RoundLeft(parent: Node, sibling: Node, ghost c: Ctx, ghost lo: int, ghost far: int, ghost i: int,
        ghost h: int) returns (done: bool)
      requires Mirrors() && parent in rank && sibling in rank && 0 <= lo <= far <= |recs|
      requires ShortLeft(recs, c, Pos(node), lo, far, i, rank[parent], rank[sibling], h)
      modifies this`node, this`recs, order
      ensures Mirrors() && (done ==> Valid())
      ensures !done ==>
        Short(recs, c, Pos(node), lo, far, rank[parent], recs[rank[parent]].parent, h + 1) && parent.parent != null
    {
      if sibling.red {
        var tmp1 := RaiseRed(parent, sibling, c, lo, far, i, h);
        done := LeftBlack(parent, tmp1, Up(far, c), lo, rank[sibling], i, h);
      } else {
        done := LeftBlack(parent, sibling, c, lo, far, i, h);
      }
    }

    method RoundRight(parent: Node, sibling: Node, ghost c: Ctx, ghost far: int, ghost hi: int, ghost i: int,
        ghost h: int) returns (done: bool)
      requires Mirrors() && parent in rank && sibling in rank && 0 <= far <= hi <= |recs|
      requires ShortRight(recs, c, Pos(node), far, hi, i, rank[parent], rank[sibling], h)
      modifies this`node, this`recs, order
      ensures Mirrors() && (done ==> Valid())
      ensures !done ==>
        Short(recs, c, Pos(node), far, hi, rank[parent], recs[rank[parent]].parent, h + 1) && parent.parent != null
    {
      if sibling.red {
        var tmp1 := RaiseRedR(parent, sibling, c, far, hi, i, h);
        done := RightBlack(parent, tmp1, Up(far, c), rank[sibling] + 1, hi, i, h);
      } else {
        done := RightBlack(parent, sibling, c, far, hi, i, h);
      }
    }

    /** One round of `____rb_erase_color`: the tree is sound, or the shortage has moved up to `parent`. */
    method Round(node: Node?, parent: Node, ghost c: Ctx, ghost lo: int, ghost hi: int, ghost h: int)
      returns (done: bool, ghost lo': int, ghost hi': int)
      requires Mirrors() && parent in rank && Known(node) && 0 <= lo <= hi <= |recs|
      requires Short(recs, c, Pos(this.node), lo, hi, Pos(node), rank[parent], h)
      modifies this`node, this`recs, order
      ensures Mirrors() && (done ==> Valid())
      ensures !done ==> parent.parent in rank && c.Up? && 0 <= lo' <= hi' <= |recs|
      ensures !done ==> Short(recs, c.rest, Pos(this.node), lo', hi', rank[parent], rank[parent.parent], h + 1)
    {
      ghost var top, i, p := Pos(this.node), Pos(node), rank[parent];
      ShortSide(recs, c, top, lo, hi, i, p, h);
      Look(parent);
      lo', hi' := lo, hi;
      var sibling := parent.right;
      if node != sibling {
        SplitLeft(recs, c, top, lo, hi, i, p, h);
        hi' := c.far;
        done := RoundLeft(parent, sibling, c.rest, lo, hi', i, h);
      } else {
        sibling := parent.left;
        SplitRight(recs, c, top, lo, hi, i, p, h);
        lo' := c.far;
        done := RoundRight(parent, sibling, c.rest, lo', hi, i, h);
      }
      Look(parent);
    }

    /** `____rb_erase_color`, entered with the empty place below `parent0` one black node short. */
    method EraseColor(parent0: Node, ghost c0: Ctx, ghost lo0: int, ghost hi0: int, ghost h0: int)
      requires Mirrors() && parent0 in rank && 0 <= lo0 <= hi0 <= |recs|
      requires Short(recs, c0, Pos(node), lo0, hi0, NIL, rank[parent0], h0)
      modifies this`node, this`recs, order
      ensures Valid()
    {
      var node: Node? := null;
      var parent := parent0;
      ghost var c, lo, hi, h := c0, lo0, hi0, h0;
      while true
        invariant Mirrors() && parent in rank && Known(node) && 0 <= lo <= hi <= |recs|
        invariant Short(recs, c, Pos(this.node), lo, hi, Pos(node), rank[parent], h)
        decreases c
      {
        var done;
        done, lo, hi := Round(node, parent, c, lo, hi, h);
        if done {
          return;
        }
        c, h := c.rest, h + 1;
        node := parent;
        parent := node.parent;
      }
    }

    // -------------------------------------------------------------- walking

    lemma Find(k: int) returns (c: Ctx, lo: int, hi: int, h: int)
      requires Valid() && 0 <= k < |order|
      ensures 0 <= lo <= k < hi <= |recs| && Located(recs, c, Pos(node), lo, hi, k, recs[k].parent, h)
    {
      var h0 :| Sub(recs, 0, |recs|, Pos(node), NIL, h0);
      c, lo, hi, h := Locate(recs, Top, Pos(node), 0, |recs|, Pos(node), NIL, h0, k);
    }

    /** Down the left spine of a subtree that starts at position `lo`. */
    method LeftMost(node0: Node, ghost lo: int, ghost hi0: int, ghost p0: int, ghost h0: int) returns (node: Node)
      requires Mirrors() && node0 in rank && 0 <= lo <= hi0 <= |recs| && Sub(recs, lo, hi0, rank[node0], p0, h0)
      ensures lo < |order| && node == order[lo]
    {
      node := node0;
      ghost var hi, p, h := hi0, p0, h0;
      Look(node);
      while node.left != null
        invariant node in rank && lo <= hi <= |recs| && Sub(recs, lo, hi, rank[node], p, h)
        decreases hi - lo
      {
        Look(node);
        p, hi, h := rank[node], rank[node], if node.red then h else h - 1;
        node := node.left;
        Look(node);
      }
      Look(node);
    }

    /** Up from a subtree that ends before position `hi`, until it was a left child. */
    method FirstAbove(node0: Node, ghost c0: Ctx, ghost lo0: int, ghost hi: int, ghost h0: int) returns (parent: Node?)
      requires Mirrors() && node0 in rank && 0 <= lo0 <= rank[node0] < hi <= |recs|
      requires Above(recs, c0, Pos(node), lo0, hi, rank[node0], recs[rank[node0]].parent, h0)
      ensures parent == if hi < |order| then order[hi] else null
    {
      var node := node0;
      ghost var c, lo, h := c0, lo0, h0;
      Look(node);
      parent := node.parent;
      while parent != null && node == parent.right
        invariant node in rank && parent == node.parent && 0 <= lo <= rank[node] < hi
        invariant Above(recs, c, Pos(this.node), lo, hi, rank[node], recs[rank[node]].parent, h)
        decreases c
      {
        Look(node);
        Look(parent);
        lo, c, h := c.far, c.rest, if parent.red then h else h + 1;
        node := parent;
        parent := node.parent;
      }
      Look(node);
      if parent != null {
        Look(parent);
      }
    }

    /** A node of the tree is not its own parent. */
    lemma NotOwnParent(node: Node)
      requires Valid() && node in rank
      ensures node.parent != node
    {
      ValidCoherent(recs, Pos(this.node));
      Look(node);
      assert CoherentAt(recs, 0, |recs|, Pos(this.node), NIL, rank[node]);
    }

    /** `rb_next` of a node of the tree. */
    method After(node: Node) returns (next: Node?)
      requires Valid() && node in rank
      ensures next == if rank[node] + 1 < |order| then order[rank[node] + 1] else null
    {
      Look(node);
      ghost var k := rank[node];
      ghost var c, lo, hi, h := Find(k);
      GoRight(recs, c, Pos(this.node), lo, hi, k, recs[k].parent, h);
      if node.right != null {
        next := LeftMost(node.right, k + 1, hi, k, if node.red then h else h - 1);
      } else {
        LocatedEmpty(recs, Up(lo, c), Pos(this.node), k + 1, hi, k, if node.red then h else h - 1);
        next := FirstAbove(node, c, lo, hi, h);
      }
    }

    /** `rb_next`: the in-order successor, or nothing after the last node. A node that is in no
        tree (`RB_EMPTY_NODE`) has none. */
    method Next(node: Node) returns (next: Node?)
      requires Valid() && (node in rank || (node.parent == node && node.red))
      ensures node !in rank ==> next == null
      ensures node in rank ==> next == if rank[node] + 1 < |order| then order[rank[node] + 1] else null
    {
      if node in rank {
        NotOwnParent(node);
      }
      if node.parent == node && node.red {
        return null;
      }
      next := After(node);
    }

    // -------------------------------------------------------------- adding a node

    /** `node` gets the position `k`; the heap has its fields already, nothing links to it yet. */
    ghost method MakeRoom(node: Node, k: int)
      requires Mirrors() && node !in rank && 0 <= k <= |order|
      requires node.left == null && node.right == null && Known(node.parent) && node.red
      modifies this`order, this`rank, this`recs
      ensures Mirrors() && order == RoomSeq(old(order), node, k) && rank == RoomMap(old(rank), node, k)
      ensures recs == Open(old(recs), k, Rec(NIL, NIL, ShiftUp(old(Pos(node.parent)), k), true))
    {
      var r, o, m := Open(recs, k, Rec(NIL, NIL, ShiftUp(Pos(node.parent), k), true)), RoomSeq(order, node, k),
          RoomMap(rank, node, k);
      RoomNumbering(order, rank, node, k);
      forall j | 0 <= j < |o|
        ensures Mirrored(m, o[j], r[j])
      {
        if j < k {
          RoomMirrored(rank, node, k, order[j], recs[j]);
        } else if k < j {
          RoomMirrored(rank, node, k, order[j - 1], recs[j - 1]);
          assert r[j - 1 + 1] == UpRec(recs[j - 1], k);
        }
      }
      recs, order, rank := r, o, m;
    }

    /** `rb_link_node`. */
    method LinkNode(node: Node, parent: Node?, left: bool, ghost k: int)
      requires Mirrors() && node !in rank && Known(parent) && 0 <= k <= |order|
      requires parent != null ==> rank[parent] == if left then k else k - 1
      modifies this, node, order
      ensures Mirrors() && order == RoomSeq(old(order), node, k) && rank == RoomMap(old(rank), node, k)
      ensures Pos(this.node) == if parent == null then k else ShiftUp(old(Pos(this.node)), k)
      ensures var p := old(Pos(parent));
        var r1 := Open(old(recs), k, Rec(NIL, NIL, ShiftUp(p, k), true));
        recs == if p == NIL then r1 else if p == k then r1[k + 1 := r1[k + 1].(left := k)]
            else r1[p := r1[p].(right := k)]
    {
      node.parent, node.red := parent, true;
      node.left, node.right := null, null;
      MakeRoom(node, k);
      if parent == null {
        this.node := node;
      } else if left {
        SetLeft(parent, node);
      } else {
        SetRight(parent, node);
      }
    }

    /** The descent of `rb_add`: the empty place where `node` belongs. */
    method Descend(node: Node, less: (Node, Node) -> bool)
      returns (parent: Node?, left: bool, ghost k: int, ghost c: Ctx)
      requires Valid() && Rising(node, order, less)
      ensures Known(parent) && 0 <= k <= |order| && Above(recs, c, Pos(this.node), k, k, NIL, Pos(parent), 0)
      ensures parent != null ==> rank[parent] == if left then k else k - 1
      ensures forall j :: 0 <= j < |order| ==> (less(node, order[j]) <==> k <= j)
    {
      var link := this.node;
      parent, left, c := null, false, Top;
      ghost var lo, hi := 0, |recs|;
      ghost var h :| Sub(recs, 0, |recs|, Pos(this.node), NIL, h);
      while link != null
        invariant Known(link) && Known(parent) && 0 <= lo <= hi <= |recs|
        invariant Located(recs, c, Pos(this.node), lo, hi, Pos(link), Pos(parent), h)
        invariant parent != null ==> rank[parent] == if left then hi else lo - 1
        invariant forall j :: 0 <= j < lo ==> !less(node, order[j])
        invariant forall j :: hi <= j < |order| ==> less(node, order[j])
        decreases hi - lo
      {
        Look(link);
        ghost var p, kh := rank[link], if link.red then h else h - 1;
        GoLeft(recs, c, Pos(this.node), lo, hi, p, Pos(parent), h);
        GoRight(recs, c, Pos(this.node), lo, hi, p, Pos(parent), h);
        parent := link;
        if less(node, parent) {
          link, left := parent.left, true;
          c, hi, h := Up(hi, c), p, kh;
        } else {
          link, left := parent.right, false;
          c, lo, h := Up(lo, c), p + 1, kh;
        }
      }
      LocatedEmpty(recs, c, Pos(this.node), lo, hi, Pos(parent), h);
      k := lo;
    }

    method LinkIn(node: Node, parent: Node?, left: bool, ghost k: int, ghost c: Ctx)
      requires Mirrors() && node !in rank && Known(parent) && 0 <= k <= |order|
      requires parent != null ==> rank[parent] == if left then k else k - 1
      requires Above(recs, c, Pos(this.node), k, k, NIL, Pos(parent), 0)
      modifies this, node, order
      ensures Mirrors() && order == RoomSeq(old(order), node, k) && node in rank && rank[node] == k
      ensures |recs| > k && Inserting(recs, OpenedCtx(c, k), Pos(this.node), k, k + 1, k, 0)
    {
      ghost var r, top, p := recs, Pos(this.node), Pos(parent);
      LinkNode(node, parent, left, k);
      LinkLeaf(r, Open(r, k, Rec(NIL, NIL, ShiftUp(p, k), true)), recs, c, top, Pos(this.node), k, p);
    }

    /** `rb_link_node` and `rb_insert_color`. */
    method Attach(node: Node, parent: Node?, left: bool, ghost k: int, ghost c: Ctx)
      requires Mirrors() && node !in rank && Known(parent) && 0 <= k <= |order|
      requires parent != null ==> rank[parent] == if left then k else k - 1
      requires Above(recs, c, Pos(this.node), k, k, NIL, Pos(parent), 0)
      modifies this, node, order
      ensures Valid() && order == RoomSeq(old(order), node, k)
    {
      LinkIn(node, parent, left, k, c);
      InsertColor(node, OpenedCtx(c, k), k, k + 1, 0);
    }

    /** `rb_add`: the node goes before the first node it is less than. */
    method Add(node: Node, less: (Node, Node) -> bool) returns (ghost k: int)
      requires Valid() && node !in rank && Rising(node, order, less)
      modifies this, node, order
      ensures Valid() && Belongs(node, old(order), less, k) && order == old(order)[..k] + [node] + old(order)[k..]
    {
      var parent, left;
      ghost var c;
      parent, left, k, c := Descend(node, less);
      Attach(node, parent, left, k, c);
    }

    // -------------------------------------------------------------- removing a node

    /** `node`, to which nothing links any more, gives up its position. */
    ghost method CloseRoom(node: Node, x: Node?)
      requires Mirrors() && node in rank && Unlinked(recs, Pos(this.node), rank[node]) && Known(x) && x != node
      modifies this`order, this`rank, this`recs
      ensures Mirrors() && order == ShutSeq(old(order), old(rank)[node]) && rank == ShutMap(old(rank), node)
      ensures recs == Shut(old(recs), old(rank)[node])
      ensures Pos(this.node) == ShiftDown(old(Pos(this.node)), old(rank)[node]) && Known(x)
      ensures Pos(x) == ShiftDown(old(Pos(x)), old(rank)[node])
    {
      var k := rank[node];
      ShutNumbering(order, rank, node);
      forall j | 0 <= j < |order| - 1
        ensures Mirrored(ShutMap(rank, node), ShutSeq(order, k)[j], Shut(recs, k)[j])
      {
        ShutMirrors(order, recs, rank, node, Pos(this.node), j);
      }
      recs, order, rank := Shut(recs, k), ShutSeq(order, k), ShutMap(rank, node);
    }

    /** `__rb_erase_augmented` for a node with at most one child. */
    method UnlinkOne(node: Node, child: Node?)
      requires Mirrors() && node in rank && Known(child) && child != node && node.parent != node
      requires (child != null ==> node.parent != child)
      modifies this`node, this`recs, order
      ensures Mirrors() && recs == Detached(old(recs), rank[node], Pos(child))
      ensures Pos(this.node) == if old(recs)[rank[node]].parent == NIL then Pos(child) else old(Pos(this.node))
      ensures node.red == old(node.red) && node.parent == old(node.parent)
    {
      Look(node);
      var parent, red := node.parent, node.red;
      ChangeChild(node, child, parent);
      if child != null {
        SetParentColor(child, parent, red);
      }
      Look(node);
    }

    method SeatLinks(node: Node, successor: Node)
      requires Mirrors() && node in rank && successor in rank && node.left != null
      requires node != successor && node.left != node && node.parent != node && node.left != successor
      modifies this`node, this`recs, order
      ensures Mirrors() && node.parent == old(node.parent) && node.red == old(node.red)
      ensures var r, k, s := old(recs), rank[node], rank[successor];
        var r1 := r[s := r[s].(left := r[k].left)];
        recs == Replaced(r1[r[k].left := r1[r[k].left].(parent := s)], k, s, r[k].parent)
      ensures Pos(this.node) == if old(recs)[rank[node]].parent == NIL then rank[successor] else old(Pos(this.node))
    {
      Look(node);
      var tmp := node.left;
      Look(tmp);
      SetLeft(successor, tmp);
      SetParentColor(tmp, successor, tmp.red);
      ChangeChild(node, successor, node.parent);
      Look(node);
    }

    /** The writes of `__rb_erase_augmented` that give `node`'s place to its successor. */
    method Seat(node: Node, successor: Node, parent: Node, child2: Node?)
      requires Mirrors() && node in rank && successor in rank && parent in rank && Known(child2) && node.left != null
      requires node != successor && node.left != node && node.parent != node && child2 != node && node.left != successor
      modifies this`node, this`recs, order
      ensures Mirrors()
      ensures var r, k := old(recs), rank[node];
        recs == Seated(r, k, rank[successor], r[k].left, r[k].parent, Pos(child2), rank[parent], r[k].red)
      ensures Pos(this.node) == if old(recs)[rank[node]].parent == NIL then rank[successor] else old(Pos(this.node))
    {
      Look(node);
      SeatLinks(node, successor);
      Adopt(child2, parent);
      Look(node);
      SetParentColor(successor, node.parent, node.red);
    }

    /** The walk of `__rb_erase_augmented` to the successor of a node with two children. */
    method FindSuccessor(node: Node, ghost c: Ctx, ghost lo: int, ghost hi0: int, ghost h0: int)
      returns (parent: Node, successor: Node)
      requires Mirrors() && node in rank && node.right != null && 0 <= lo <= hi0 <= |recs|
      requires Located(recs, c, Pos(this.node), lo, hi0, rank[node], recs[rank[node]].parent, h0)
      ensures successor in rank && rank[successor] == rank[node] + 1 && successor.left == null
      ensures parent == if node.right == successor then successor else successor.parent
    {
      Look(node);
      GoRight(recs, c, Pos(this.node), lo, hi0, rank[node], recs[rank[node]].parent, h0);
      ghost var k, p, hi, h := rank[node], rank[node], hi0, if node.red then h0 else h0 - 1;
      ghost var d := Up(lo, c);
      successor := node.right;
      parent := successor;
      Look(successor);
      while successor.left != null
        invariant successor in rank && k + 1 <= hi <= |recs|
        invariant Located(recs, d, Pos(this.node), k + 1, hi, rank[successor], p, h)
        invariant parent == if node.right == successor then successor else successor.parent
        invariant successor != node.right ==> rank[node.right] >= hi
        decreases hi
      {
        Look(successor);
        ghost var x := rank[successor];
        GoLeft(recs, d, Pos(this.node), k + 1, hi, x, p, h);
        parent := successor;
        d, p, h, hi := Up(hi, d), x, if successor.red then h else h - 1, x;
        successor := successor.left;
        Look(successor);
      }
      Look(successor);
      GoLeft(recs, d, Pos(this.node), k + 1, hi, rank[successor], p, h);
      LocatedEmpty(recs, Up(hi, d), Pos(this.node), k + 1, rank[successor], rank[successor], if successor.red then h
          else h - 1);
    }

    /** Where the nodes around `node` and its successor are. */
    lemma Around(node: Node, successor: Node, parent: Node)
      requires Mirrors() && node in rank && successor in rank && parent in rank && Neighbours(recs, rank[node])
      requires rank[successor] == rank[node] + 1
      requires parent == if node.right == successor then successor else successor.parent
      ensures var r, k := recs, rank[node];
        0 <= k && k + 1 < |r| && Known(node.right) && node.right != null && Known(successor.right)
        && (node.right == successor <==> r[k + 1].parent == k) && rank[node.right] == r[k].right
        && Pos(successor.right) == r[k + 1].right
        && rank[parent] == if r[k + 1].parent == k then k + 1 else r[k + 1].parent
      ensures node != successor && node.left != null && node.left != node && node.parent != node
      ensures successor.right != node && node.left != successor && node.right != node
      ensures node.right != successor ==> parent != node
    {
      Look(node);
      Look(successor);
    }

    /** The writes of `__rb_erase_augmented` to a successor that is not the right child. */
    method LiftFar(successor: Node, parent: Node, child: Node)
      requires Mirrors() && successor in rank && parent in rank && child in rank
      modifies this`recs, parent`left, successor`right, child`parent, child`red
      ensures Mirrors()
      ensures var r, p, s, c := old(recs), rank[parent], rank[successor], rank[child];
        var r1 := r[p := r[p].(left := r[s].right)];
        var r2 := r1[s := r1[s].(right := c)];
        recs == r2[c := r2[c].(parent := s)]
    {
      Look(successor);
      SetLeft(parent, successor.right);
      SetRight(successor, child);
      Look(child);
      SetParentColor(child, successor, child.red);
    }

    method Lift(node: Node, successor: Node, parent: Node)
      requires Mirrors() && node in rank && successor in rank && parent in rank && Neighbours(recs, rank[node])
      requires rank[successor] == rank[node] + 1
      requires parent == if node.right == successor then successor else successor.parent
      modifies this`recs, order
      ensures Mirrors() && recs == Lifted(old(recs), rank[node]) && rank[node] < |recs|
      ensures recs[rank[node]] == old(recs)[rank[node]]
      ensures node.left == old(node.left) && node.parent == old(node.parent)
    {
      Around(node, successor, parent);
      assert node in order && successor in order && parent in order && node.right in order by {
        Look(node);
        Look(successor);
        Look(parent);
        Look(node.right);
      }
      if successor != node.right {
        LiftFar(successor, parent, node.right);
      }
    }

    /** The rest of the splice, once the successor has been lifted. */
    method SeatLifted(node: Node, successor: Node, parent: Node, child2: Node?, ghost r: seq<Rec>)
      requires Mirrors() && node in rank && successor in rank && parent in rank && Known(child2) && node.left != null
      requires node != successor && node.left != node && node.parent != node && child2 != node && node.left != successor
      requires Neighbours(r, rank[node]) && recs == Lifted(r, rank[node]) && rank[successor] == rank[node] + 1 < |recs|
      requires recs[rank[node]] == r[rank[node]] && Pos(child2) == r[rank[node] + 1].right
      requires rank[parent]
        == if r[rank[successor]].parent == rank[node] then rank[successor] else r[rank[successor]].parent
      modifies this`node, this`recs, order
      ensures Mirrors() && recs == Spliced(r, rank[node])
      ensures Pos(this.node) == if r[rank[node]].parent == NIL then rank[node] + 1 else old(Pos(this.node))
    {
      Seat(node, successor, parent, child2);
    }

    method Splice(node: Node, successor: Node, parent: Node)
      requires Mirrors() && node in rank && successor in rank && parent in rank && Neighbours(recs, rank[node])
      requires rank[successor] == rank[node] + 1
      requires parent == if node.right == successor then successor else successor.parent
      modifies this`node, this`recs, order
      ensures Mirrors() && recs == Spliced(old(recs), rank[node])
      ensures Pos(this.node) == if old(recs)[rank[node]].parent == NIL then rank[node] + 1 else old(Pos(this.node))
    {
      Around(node, successor, parent);
      ghost var r := recs;
      var child2 := successor.right;
      Lift(node, successor, parent);
      SeatLifted(node, successor, parent, child2, r);
    }

    /** Below which node `__rb_erase_augmented` reports a missing black node. */
    method ShortBelow(node: Node, successor: Node, parent: Node) returns (rebalance: Node?)
      requires Mirrors() && node in rank && successor in rank && parent in rank && Neighbours(recs, rank[node])
      requires rank[successor] == rank[node] + 1
      requires parent == if node.right == successor then successor else successor.parent
      ensures Known(rebalance) && Pos(rebalance) == ShortPlace(recs, rank[node])
    {
      Around(node, successor, parent);
      Look(successor);
      rebalance := if successor.right == null && !successor.red then parent else null;
    }

    /** The successor of a node with two children, and what goes with it. */
    method FindTwo(node: Node, ghost c: Ctx, ghost lo: int, ghost hi: int, ghost h: int)
      returns (parent: Node, successor: Node, rebalance: Node?)
      requires Mirrors() && node in rank && node.left != null && node.right != null
      requires 0 <= lo <= rank[node] < hi <= |recs|
      requires Located(recs, c, Pos(this.node), lo, hi, rank[node], recs[rank[node]].parent, h)
      ensures successor in rank && parent in rank && rank[successor] == rank[node] + 1
      ensures parent == if node.right == successor then successor else successor.parent
      ensures Neighbours(recs, rank[node]) && Known(rebalance) && Pos(rebalance) == ShortPlace(recs, rank[node])
    {
      parent, successor := FindSuccessor(node, c, lo, hi, h);
      Look(node);
      Look(successor);
      FindNeighbours(recs, c, Pos(this.node), lo, hi, rank[node], h);
      rebalance := ShortBelow(node, successor, parent);
    }

    /** `__rb_erase_augmented` for a node with two children. */
    method UnlinkTwo(node: Node, ghost c: Ctx, ghost lo: int, ghost hi: int, ghost h: int) returns (rebalance: Node?)
      requires Mirrors() && node in rank && node.left != null && node.right != null
      requires 0 <= lo <= rank[node] < hi <= |recs|
      requires Located(recs, c, Pos(this.node), lo, hi, rank[node], recs[rank[node]].parent, h)
      modifies this`node, this`recs, order
      ensures Mirrors() && Neighbours(old(recs), rank[node]) && recs == Spliced(old(recs), rank[node])
      ensures Pos(this.node) == if old(recs)[rank[node]].parent == NIL then rank[node] + 1 else old(Pos(this.node))
      ensures Known(rebalance) && Pos(rebalance) == ShortPlace(old(recs), rank[node])
    {
      var parent, successor;
      parent, successor, rebalance := FindTwo(node, c, lo, hi, h);
      Splice(node, successor, parent);
    }

    /** Takes out a node with at most one child, and its position. */
    method TakeNode(node: Node, child: Node?)
      requires Mirrors() && node in rank && Coherent(recs, Pos(this.node)) && Known(child)
      requires child == if node.left == null then node.right else node.left
      requires (node.left == null || node.right == null) && (child != null ==> node.parent != child)
      modifies this, order
      ensures Mirrors() && order == ShutSeq(old(order), old(rank)[node]) && rank == ShutMap(old(rank), node)
      ensures recs == Shut(Detached(old(recs), old(rank)[node], old(Pos(child))), old(rank)[node])
      ensures Pos(this.node) == ShiftDown(if old(node.parent) == null then old(Pos(child)) else old(Pos(this.node)),
          old(rank)[node])
    {
      Look(node);
      ghost var r, k, top, o := recs, rank[node], Pos(this.node), order;
      assert CoherentAt(r, 0, |r|, top, NIL, k);
      UnlinkOne(node, child);
      DetachedUnlinked(r, top, k, Pos(child));
      CloseRoom(node, child);
    }

    method UnlinkNoLeft(node: Node, ghost c: Ctx, ghost lo: int, ghost hi: int, ghost h: int)
      requires Mirrors() && node in rank && node.left == null && Coherent(recs, Pos(this.node))
      requires 0 <= lo <= rank[node] < hi <= |recs|
      requires Located(recs, c, Pos(this.node), lo, hi, rank[node], recs[rank[node]].parent, h)
      modifies this, order
      ensures Mirrors() && order == ShutSeq(old(order), old(rank)[node]) && rank == ShutMap(old(rank), node)
      ensures var r, k := old(recs), old(rank)[node];
        (r[k].right != NIL || r[k].red || r[k].parent == NIL ==> Valid())
        && (r[k].right == NIL && !r[k].red && r[k].parent != NIL
            ==> 0 <= k <= |recs| && Short(recs, ClosedCtx(c, k), Pos(this.node), k, k, NIL, ShiftDown(r[k].parent, k),
                0))
    {
      Look(node);
      ghost var r, k, top := recs, rank[node], Pos(this.node);
      HoleLink(r, c, top, lo, hi, k, r[k].parent, h);
      SubLinks(r, lo, hi, k, r[k].parent, h);
      TakeNode(node, node.right);
      TakeOut(r, Detached(r, k, r[k].right), recs, c, top, Pos(this.node), lo, hi, k, r[k].parent, h);
    }

    method UnlinkNoRight(node: Node, ghost c: Ctx, ghost lo: int, ghost hi: int, ghost h: int)
      requires Mirrors() && node in rank && node.left != null && node.right == null && Coherent(recs, Pos(this.node))
      requires 0 <= lo <= rank[node] < hi <= |recs|
      requires Located(recs, c, Pos(this.node), lo, hi, rank[node], recs[rank[node]].parent, h)
      modifies this, order
      ensures Valid() && order == ShutSeq(old(order), old(rank)[node]) && rank == ShutMap(old(rank), node)
    {
      Look(node);
      ghost var r, k, top := recs, rank[node], Pos(this.node);
      HoleLink(r, c, top, lo, hi, k, r[k].parent, h);
      SubLinks(r, lo, hi, k, r[k].parent, h);
      TakeNode(node, node.left);
      TakeOutLeft(r, Detached(r, k, r[k].left), recs, c, top, Pos(this.node), lo, hi, k, r[k].parent, h);
    }

    method SpliceReport(node: Node, ghost c: Ctx, ghost lo: int, ghost hi: int, ghost h: int) returns (rebalance: Node?)
      requires Mirrors() && node in rank && node.left != null && node.right != null
      requires 0 <= lo <= rank[node] < hi <= |recs|
      requires Located(recs, c, Pos(this.node), lo, hi, rank[node], recs[rank[node]].parent, h)
      modifies this`node, this`recs, order
      ensures Mirrors() && Known(rebalance)
      ensures SpliceDone(old(recs), recs, old(Pos(this.node)), Pos(this.node), rank[node], Pos(rebalance))
    {
      rebalance := UnlinkTwo(node, c, lo, hi, h);
    }

    /** The same, and what the tree will be once `node` gives up its position. */
    method SpliceOut(node: Node, ghost c: Ctx, ghost lo: int, ghost hi: int, ghost h: int)
      returns (rebalance: Node?, ghost c': Ctx)
      requires Mirrors() && node in rank && node.left != null && node.right != null && Coherent(recs, Pos(this.node))
      requires 0 <= lo <= rank[node] < hi <= |recs|
      requires Located(recs, c, Pos(this.node), lo, hi, rank[node], recs[rank[node]].parent, h)
      modifies this`node, this`recs, order
      ensures Mirrors() && Known(rebalance) && SplicedOut(recs, Pos(this.node), rank[node], Pos(rebalance), c')
    {
      ghost var r, k, top := recs, rank[node], Pos(this.node);
      rebalance := SpliceReport(node, c, lo, hi, h);
      c' := TakeOutTwo(r, recs, c, top, Pos(this.node), lo, hi, k, h, Pos(rebalance));
    }

    method UnlinkBoth(node: Node, ghost c: Ctx, ghost lo: int, ghost hi: int, ghost h: int)
      returns (rebalance: Node?, ghost c': Ctx)
      requires Mirrors() && node in rank && node.left != null && node.right != null && Coherent(recs, Pos(this.node))
      requires 0 <= lo <= rank[node] < hi <= |recs|
      requires Located(recs, c, Pos(this.node), lo, hi, rank[node], recs[rank[node]].parent, h)
      modifies this, order
      ensures Mirrors() && order == ShutSeq(old(order), old(rank)[node]) && rank == ShutMap(old(rank), node)
      ensures rebalance == null ==> Valid()
      ensures var e := old(rank)[node] + 1;
        rebalance != null ==>
            rebalance in rank && 0 <= e <= |recs| && Short(recs, c', Pos(this.node), e, e, NIL, rank[rebalance], 0)
    {
      rebalance, c' := SpliceOut(node, c, lo, hi, h);
      CloseRoom(node, rebalance);
    }

    /** `__rb_erase_augmented`: takes `node` out. Afterwards the tree is sound, or the empty
        place below `rebalance` is one black node short. */
    method Unlink(node: Node) returns (rebalance: Node?, ghost c: Ctx, ghost e: int)
      requires Valid() && node in rank
      modifies this, order
      ensures Mirrors() && order == ShutSeq(old(order), old(rank)[node]) && rank == ShutMap(old(rank), node)
      ensures rebalance == null ==> Valid()
      ensures rebalance != null ==>
        rebalance in rank && 0 <= e <= |recs| && Short(recs, c, Pos(this.node), e, e, NIL, rank[rebalance], 0)
    {
      ghost var r, k, top := recs, rank[node], Pos(this.node);
      ghost var c0, lo, hi, h := Find(k);
      ValidCoherent(r, top);
      Look(node);
      if node.left == null {
        rebalance := if node.right == null && !node.red then node.parent else null;
        e, c := k, ClosedCtx(c0, k);
        UnlinkNoLeft(node, c0, lo, hi, h);
      } else if node.right == null {
        rebalance, e, c := null, 0, Top;
        UnlinkNoRight(node, c0, lo, hi, h);
      } else {
        e := k + 1;
        rebalance, c := UnlinkBoth(node, c0, lo, hi, h);
      }
    }

    /** `rb_erase`. */
    method Erase(node: Node)
      requires Valid() && node in rank
      modifies this, order
      ensures Valid() && node !in rank && old(rank)[node] < |old(order)| && old(order)[old(rank)[node]] == node
      ensures order == old(order)[..old(rank)[node]] + old(order)[old(rank)[node] + 1..]
    {
      var rebalance;
      ghost var c, e;
      rebalance, c, e := Unlink(node);
      if rebalance != null {
        EraseColor(rebalance, c, e, e, 0);
      }
    }
  }
}
