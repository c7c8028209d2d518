/** Red-black shapes over numbered nodes.

    The nodes of a tree are numbered by their in-order position, and a link is the number of
    the node it points to (`NIL` for the null pointer). A subtree then owns an interval of
    numbers, its root cuts the interval in two, and "the in-order sequence is unchanged" is
    the same as "the numbering is unchanged". */
module RbShape {

  const NIL := -1

  datatype Rec = Rec(left: int, right: int, parent: int, red: bool)

  ghost predicate Black(r: seq<Rec>, i: int) {
    0 <= i < |r| ==> !r[i].red
  }

  /** The subtree below `i`, hanging from `p`, owns exactly the nodes `lo..hi`; it is
      red-black with `h` black nodes on every path down. */
  ghost predicate Sub(r: seq<Rec>, lo: int, hi: int, i: int, p: int, h: int)
    requires 0 <= lo <= hi <= |r|
    decreases hi - lo
  {
    true == if i == NIL then lo == hi && h == 0 else
      lo <= i < hi && r[i].parent == p
      && (r[i].red ==> Black(r, r[i].left) && Black(r, r[i].right))
      && var k := if r[i].red then h else h - 1;
      Sub(r, lo, i, r[i].left, i, k) && Sub(r, i + 1, hi, r[i].right, i, k)
  }

  /** The way from a hole up to the root: the far end of the interval owned at each level. */
  datatype Ctx = Top | Up(far: int, rest: Ctx)

  /** Everything outside the interval `lo..hi` is red-black, provided the link `i` into that
      interval leads to a tree of black height `h`. The hole is the left child of `p` when
      `p` comes just after it, and the right child when `p` comes just before it. */
  ghost predicate Above(r: seq<Rec>, c: Ctx, top: int, lo: int, hi: int, i: int, p: int, h: int)
    requires 0 <= lo <= hi <= |r|
    decreases c
  {
    true == match c
    case Top => p == NIL && lo == 0 && hi == |r| && i == top
    case Up(far, rest) =>
      0 <= p < |r|
      && (r[p].red ==> 0 <= r[p].parent < |r| && !r[r[p].parent].red)
      && var k := if r[p].red then h else h + 1;
      if p == hi then
        hi < far <= |r| && r[p].left == i && (r[p].red ==> Black(r, r[p].right))
        && Sub(r, hi + 1, far, r[p].right, p, h) && Above(r, rest, top, lo, far, p, r[p].parent, k)
      else
        p == lo - 1 && 0 <= far <= p && r[p].right == i && (r[p].red ==> Black(r, r[p].left))
        && Sub(r, far, p, r[p].left, p, h) && Above(r, rest, top, far, hi, p, r[p].parent, k)
  }

  lemma {:induction false} AboveLeft(r: seq<Rec>, c: Ctx, top: int, lo: int, far: int, i: int, p: int, h: int)
    requires 0 <= lo <= p < far <= |r| && r[p].left == i && Sub(r, p + 1, far, r[p].right, p, h)
    requires r[p].red ==> Black(r, r[p].right) && 0 <= r[p].parent < |r| && !r[r[p].parent].red
    requires Above(r, c, top, lo, far, p, r[p].parent, if r[p].red then h else h + 1)
    ensures Above(r, Up(far, c), top, lo, p, i, p, h)
  {}

  lemma {:induction false} AboveRight(r: seq<Rec>, c: Ctx, top: int, far: int, hi: int, i: int, p: int, h: int)
    requires 0 <= far <= p < hi <= |r| && r[p].right == i && Sub(r, far, p, r[p].left, p, h)
    requires r[p].red ==> Black(r, r[p].left) && 0 <= r[p].parent < |r| && !r[r[p].parent].red
    requires Above(r, c, top, far, hi, p, r[p].parent, if r[p].red then h else h + 1)
    ensures Above(r, Up(far, c), top, p + 1, hi, i, p, h)
  {}

  /** A whole tree between calls: red-black, with a black root. */
  ghost predicate Valid(r: seq<Rec>, top: int) {
    Black(r, top) && exists h :: Sub(r, 0, |r|, top, NIL, h)
  }

  lemma {:induction false} SubFrame(r: seq<Rec>, r': seq<Rec>, lo: int, hi: int, i: int, p: int, h: int)
    requires 0 <= lo <= hi <= |r| == |r'| && Sub(r, lo, hi, i, p, h)
    requires forall k :: lo <= k < hi ==> r'[k] == r[k]
    ensures Sub(r', lo, hi, i, p, h)
    decreases hi - lo
  {
    if i != NIL {
      var k := if r[i].red then h else h - 1;
      SubFrame(r, r', lo, i, r[i].left, i, k);
      SubFrame(r, r', i + 1, hi, r[i].right, i, k);
    }
  }

  /** Hang the subtree from `q` instead, as a black node or as before. */
  lemma {:induction false} SubMove(r: seq<Rec>, r': seq<Rec>, lo: int, hi: int, i: int, p: int, q: int, h: int)
    requires 0 <= lo <= hi <= |r| == |r'| && Sub(r, lo, hi, i, p, h)
    requires forall k :: lo <= k < hi && k != i ==> r'[k] == r[k]
    requires i != NIL ==> r'[i] == r[i].(parent := q)
    ensures Sub(r', lo, hi, i, q, h)
  {
    if i != NIL {
      var k := if r[i].red then h else h - 1;
      SubFrame(r, r', lo, i, r[i].left, i, k);
      SubFrame(r, r', i + 1, hi, r[i].right, i, k);
    }
  }

  /** Exchange what hangs in the hole, as `__rb_change_child` does. */
  lemma {:induction false} AboveSwap(r: seq<Rec>, r': seq<Rec>, c: Ctx, top: int, top': int,
                                     lo: int, hi: int, i: int, i': int, p: int, h: int)
    requires 0 <= lo <= hi <= |r| == |r'| && Above(r, c, top, lo, hi, i, p, h)
    requires forall k :: 0 <= k < |r| && !(lo <= k < hi) && k != p ==> r'[k] == r[k]
    requires 0 <= p < |r| ==> r'[p] == if p == hi then r[p].(left := i') else r[p].(right := i')
    requires top' == if p == NIL then i' else top
    ensures Above(r', c, top', lo, hi, i', p, h)
    decreases c
  {
    if c.Up? {
      var k := if r[p].red then h else h + 1;
      if p == hi {
        SubFrame(r, r', hi + 1, c.far, r[p].right, p, h);
        AboveSwap(r, r', c.rest, top, top', lo, c.far, p, p, r[p].parent, k);
      } else {
        SubFrame(r, r', c.far, p, r[p].left, p, h);
        AboveSwap(r, r', c.rest, top, top', c.far, hi, p, p, r[p].parent, k);
      }
    }
  }

  /** A sound tree in a sound surrounding is a sound whole. */
  lemma {:induction false} Close(r: seq<Rec>, c: Ctx, top: int, lo: int, hi: int, i: int, p: int, h: int)
    requires 0 <= lo <= hi <= |r| && Above(r, c, top, lo, hi, i, p, h) && Sub(r, lo, hi, i, p, h)
    requires Black(r, i) || (0 <= p < |r| && !r[p].red)
    ensures Valid(r, top)
    decreases c
  {
    if c.Up? {
      var k := if r[p].red then h else h + 1;
      if p == hi {
        Close(r, c.rest, top, lo, c.far, p, r[p].parent, k);
      } else {
        Close(r, c.rest, top, c.far, hi, p, r[p].parent, k);
      }
    }
  }

  /** The records after the child `old_` of `p` is replaced by `new_`. */
  ghost function Replaced(r: seq<Rec>, old_: int, new_: int, p: int): seq<Rec> {
    if !(0 <= p < |r|) then r
    else if r[p].left == old_ then r[p := r[p].(left := new_)]
    else r[p := r[p].(right := new_)]
  }

  /** `r[i].parent := p` and black, unless `i` is the null pointer. */
  ghost function Adopted(r: seq<Rec>, i: int, p: int): seq<Rec> {
    if 0 <= i < |r| then r[i := r[i].(parent := p, red := false)] else r
  }

  /** `n` takes over the place and colour of `o` and becomes its parent. */
  ghost function Promoted(r: seq<Rec>, o: int, n: int, red: bool): seq<Rec>
    requires 0 <= o < |r| && 0 <= n < |r|
  {
    Replaced(r[n := r[n].(parent := r[o].parent, red := r[o].red)][o := r[o].(parent := n, red := red)], o, n,
        r[o].parent)
  }

  /** `x->rb_left = tmp; y->rb_right = x;` and `tmp`, if there is one, is hung below `x`. */
  ghost function HungLeft(r: seq<Rec>, x: int, y: int, tmp: int): seq<Rec>
    requires 0 <= x < |r| && 0 <= y < |r| && x != y
  {
    Adopted(r[x := r[x].(left := tmp)][y := r[y].(right := x)], tmp, x)
  }

  /** `x->rb_right = tmp; y->rb_left = x;` and `tmp`, if there is one, is hung below `x`. */
  ghost function HungRight(r: seq<Rec>, x: int, y: int, tmp: int): seq<Rec>
    requires 0 <= x < |r| && 0 <= y < |r| && x != y
  {
    Adopted(r[x := r[x].(right := tmp)][y := r[y].(left := x)], tmp, x)
  }

  // ---------------------------------------------------------------- insertion

  /** Nothing but `changed` and the child link of `q` that led to `o` differs; that link now
      leads to `n`. */
  ghost predicate Relinked(r: seq<Rec>, r': seq<Rec>, o: int, n: int, q: int, changed: set<int>) {
    |r| == |r'|
    && (0 <= q < |r| ==> r'[q] == if r[q].left == o then r[q].(left := n) else r[q].(right := n))
    && forall k :: 0 <= k < |r| && k !in changed && k != q ==> r'[k] == r[k]
  }

  /** The last rotation of `__rb_insert`, `p` being the left child of `g`. */
  ghost predicate TurnedRight(r: seq<Rec>, r': seq<Rec>, p: int, g: int)
    requires 0 <= p < |r| && 0 <= g < |r|
  {
    Relinked(r, r', g, p, r[g].parent, {p, g, r[p].right})
    && r'[p] == Rec(r[p].left, g, r[g].parent, false)
    && r'[g] == Rec(r[p].right, r[g].right, p, true)
    && (0 <= r[p].right < |r| ==> r'[r[p].right] == r[r[p].right].(parent := g, red := false))
  }

  lemma {:induction false} TurnRightWrites(r: seq<Rec>, r': seq<Rec>, p: int, g: int)
    requires 0 <= p < |r| && 0 <= g < |r| && p != g && !r[g].red
    requires r[p].right !in {p, g} && r[g].parent !in {p, g} && (r[p].right >= 0 ==> r[g].parent != r[p].right)
    requires r' == Promoted(HungLeft(r, g, p, r[p].right), g, p, true)
    ensures TurnedRight(r, r', p, g)
  {}

  /** The last rotation of `__rb_insert`, `p` being the right child of `g`. */
  ghost predicate TurnedLeft(r: seq<Rec>, r': seq<Rec>, p: int, g: int)
    requires 0 <= p < |r| && 0 <= g < |r|
  {
    Relinked(r, r', g, p, r[g].parent, {p, g, r[p].left})
    && r'[p] == Rec(g, r[p].right, r[g].parent, false)
    && r'[g] == Rec(r[g].left, r[p].left, p, true)
    && (0 <= r[p].left < |r| ==> r'[r[p].left] == r[r[p].left].(parent := g, red := false))
  }

  lemma {:induction false} TurnLeftWrites(r: seq<Rec>, r': seq<Rec>, p: int, g: int)
    requires 0 <= p < |r| && 0 <= g < |r| && p != g && !r[g].red
    requires r[p].left !in {p, g} && r[g].parent !in {p, g} && (r[p].left >= 0 ==> r[g].parent != r[p].left)
    requires r' == Promoted(HungRight(r, g, p, r[p].left), g, p, true)
    ensures TurnedLeft(r, r', p, g)
  {}

  /** The first rotation of `__rb_insert`, `i` being the right child of `p`. */
  ghost predicate FoldedLeft(r: seq<Rec>, r': seq<Rec>, p: int, i: int)
    requires 0 <= p < |r| && 0 <= i < |r|
  {
    Relinked(r, r', NIL, NIL, NIL, {p, i, r[i].left})
    && r'[p] == Rec(r[p].left, r[i].left, i, true) && r'[i] == r[i].(left := p)
    && (0 <= r[i].left < |r| ==> r'[r[i].left] == r[r[i].left].(parent := p, red := false))
  }

  /** The first rotation of `__rb_insert`, `i` being the left child of `p`. */
  ghost predicate FoldedRight(r: seq<Rec>, r': seq<Rec>, p: int, i: int)
    requires 0 <= p < |r| && 0 <= i < |r|
  {
    Relinked(r, r', NIL, NIL, NIL, {p, i, r[i].right})
    && r'[p] == Rec(r[i].right, r[p].right, i, true) && r'[i] == r[i].(right := p)
    && (0 <= r[i].right < |r| ==> r'[r[i].right] == r[r[i].right].(parent := p, red := false))
  }

  /** The loop invariant of `__rb_insert`: the red node `i` may have a red parent, and nothing
      else is wrong. */
  ghost predicate Inserting(r: seq<Rec>, c: Ctx, top: int, lo: int, hi: int, i: int, h: int)
    requires 0 <= lo <= hi <= |r|
  {
    true == (lo <= i < hi && r[i].red && Sub(r, lo, hi, i, r[i].parent, h)
    && Above(r, c, top, lo, hi, i, r[i].parent, h))
  }

  /** Both subtrees of `p` have black height `h`. */
  ghost predicate Kids(r: seq<Rec>, lo: int, hi: int, p: int, h: int)
    requires 0 <= lo <= hi <= |r|
  {
    lo <= p < hi && Sub(r, lo, p, r[p].left, p, h) && Sub(r, p + 1, hi, r[p].right, p, h)
  }

  lemma {:induction false} Blacken(r: seq<Rec>, r': seq<Rec>, lo: int, hi: int, a: int, q: int, h: int)
    requires 0 <= lo <= hi <= |r| == |r'| && Kids(r, lo, hi, a, h)
    requires r'[a] == r[a].(parent := q, red := false) && forall k :: lo <= k < hi && k != a ==> r'[k] == r[k]
    ensures Sub(r', lo, hi, a, q, h + 1)
  {
    SubFrame(r, r', lo, a, r[a].left, a, h);
    SubFrame(r, r', a + 1, hi, r[a].right, a, h);
  }

  /** `i` is the root: it becomes black. */
  lemma {:induction false} DoneAtTop(r: seq<Rec>, c: Ctx, top: int, lo: int, hi: int, i: int, h: int)
    requires 0 <= lo <= hi <= |r| && Inserting(r, c, top, lo, hi, i, h) && r[i].parent == NIL
    ensures Valid(r[i := r[i].(red := false)], top)
  {
    Blacken(r, r[i := r[i].(red := false)], lo, hi, i, NIL, h);
  }

  /** The parent of `i` is black: nothing is wrong. */
  lemma {:induction false} DoneBelowBlack(r: seq<Rec>, c: Ctx, top: int, lo: int, hi: int, i: int, h: int)
    requires 0 <= lo <= hi <= |r| && Inserting(r, c, top, lo, hi, i, h)
    requires 0 <= r[i].parent < |r| && !r[r[i].parent].red
    ensures Valid(r, top)
  {
    Close(r, c, top, lo, hi, i, r[i].parent, h);
  }

  /** Both children of the black node `g` are red: recolouring moves the trouble to `g`. */
  lemma {:induction false} Recolor(r: seq<Rec>, r': seq<Rec>, c: Ctx, top: int, lo: int, hi: int, a: int, g: int,
      b: int, h: int)
    requires 0 <= lo <= hi <= |r| == |r'| && lo <= g < hi
    requires r[g].left == a && r[g].right == b && Kids(r, lo, g, a, h) && Kids(r, g + 1, hi, b, h)
    requires r[a].parent == g && r[b].parent == g
    requires Above(r, c, top, lo, hi, g, r[g].parent, h + 1)
    requires r' == r[a := r[a].(red := false)][b := r[b].(red := false)][g := r[g].(red := true)]
    ensures Inserting(r', c, top, lo, hi, g, h + 1)
  {
    Blacken(r, r', lo, g, a, g, h);
    Blacken(r, r', g + 1, hi, b, g, h);
    AboveSwap(r, r', c, top, top, lo, hi, g, g, r[g].parent, h + 1);
  }

  /** The red node `i` is a child of the red node `p`, a child of the black node `g`, which
      owns `lo..hi`; nothing else is wrong. */
  ghost predicate RedRed(r: seq<Rec>, c: Ctx, top: int, lo: int, hi: int, i: int, p: int, g: int, h: int)
    requires 0 <= lo <= hi <= |r|
  {
    true == (lo <= g < hi && !r[g].red && Above(r, c, top, lo, hi, g, r[g].parent, h + 1)
    && lo <= p < hi && r[p].red && r[p].parent == g
    && lo <= i < hi && r[i].red && r[i].parent == p
    && (if p < g then r[g].left == p && Kids(r, lo, g, p, h) && Sub(r, g + 1, hi, r[g].right, g, h)
        else g < p && r[g].right == p && Kids(r, g + 1, hi, p, h) && Sub(r, lo, g, r[g].left, g, h))
    && (if i < p then r[p].left == i && Black(r, r[p].right) else p < i && r[p].right == i && Black(r, r[p].left)))
  }

  lemma {:induction false} RedRedSide(r: seq<Rec>, c: Ctx, top: int, lo: int, hi: int, i: int, p: int, g: int, h: int)
    requires 0 <= lo <= hi <= |r| && RedRed(r, c, top, lo, hi, i, p, g, h)
    ensures if p < g then r[g].left == p && r[g].right != p else g < p && r[g].right == p && r[g].left != p
  {}

  lemma {:induction false} SplitRedRed(r: seq<Rec>, c: Ctx, top: int, lo: int, hi: int, i: int, p: int,
      h: int) returns (lo': int, hi': int)
    requires 0 <= lo <= hi <= |r| && Inserting(r, c, top, lo, hi, i, h)
    requires p == r[i].parent && 0 <= p < |r| && r[p].red
    ensures c.Up? && c.rest.Up? && 0 <= lo' <= hi' <= |r| && 0 <= r[p].parent < |r|
    ensures RedRed(r, c.rest.rest, top, lo', hi', i, p, r[p].parent, h)
  {
    var g := r[p].parent;
    var c1 := c.rest;
    var lo1, hi1 := if p == hi then lo else c.far, if p == hi then c.far else hi;
    assert Above(r, c1, top, lo1, hi1, p, g, h);
    if g == hi1 {
      lo', hi' := lo1, c1.far;
    } else {
      lo', hi' := c1.far, hi1;
    }
  }

  /** The links into and out of the hole `lo..hi` are where `__rb_change_child` looks for them. */
  lemma {:induction false} HoleLink(r: seq<Rec>, c: Ctx, top: int, lo: int, hi: int, i: int, p: int, h: int)
    requires 0 <= lo <= i < hi <= |r| && Above(r, c, top, lo, hi, i, p, h)
    ensures p == NIL || (p == hi && p < |r| && r[p].left == i)
        || (p == lo - 1 && p >= 0 && r[p].left != i && r[p].right == i)
  {}

  lemma {:induction false} TurnRight(r: seq<Rec>, r': seq<Rec>, lo: int, hi: int, p: int, g: int, h: int)
    requires 0 <= lo <= hi <= |r| == |r'| && lo <= p < g < hi
    requires Kids(r, lo, g, p, h) && Sub(r, g + 1, hi, r[g].right, g, h)
    requires Black(r, r[p].right) && Black(r, r[g].right)
    requires forall k :: lo <= k < hi && k !in {p, g, r[p].right} ==> r'[k] == r[k]
    requires r'[p] == Rec(r[p].left, g, r[g].parent, false)
    requires r'[g] == Rec(r[p].right, r[g].right, p, true)
    requires r[p].right != NIL ==> r'[r[p].right] == r[r[p].right].(parent := g)
    ensures Sub(r', lo, hi, p, r[g].parent, h + 1)
  {
    SubFrame(r, r', lo, p, r[p].left, p, h);
    SubMove(r, r', p + 1, g, r[p].right, p, g, h);
    SubFrame(r, r', g + 1, hi, r[g].right, g, h);
  }

  /** The last rotation when `p` is the left child of `g`. */
  lemma {:induction false} OuterRight(r: seq<Rec>, r': seq<Rec>, c: Ctx, top: int, top': int, lo: int, hi: int, p: int,
      g: int, h: int)
    requires 0 <= lo <= hi <= |r| && lo <= p < g < hi && !r[g].red
    requires Kids(r, lo, g, p, h) && Sub(r, g + 1, hi, r[g].right, g, h)
    requires Black(r, r[p].right) && Black(r, r[g].right)
    requires Above(r, c, top, lo, hi, g, r[g].parent, h + 1)
    requires top' == if r[g].parent == NIL then p else top
    requires TurnedRight(r, r', p, g)
    ensures Valid(r', top')
  {
    HoleLink(r, c, top, lo, hi, g, r[g].parent, h + 1);
    TurnRight(r, r', lo, hi, p, g, h);
    AboveSwap(r, r', c, top, top', lo, hi, g, p, r[g].parent, h + 1);
    Close(r', c, top', lo, hi, p, r[g].parent, h + 1);
  }

  lemma {:induction false} TurnLeft(r: seq<Rec>, r': seq<Rec>, lo: int, hi: int, p: int, g: int, h: int)
    requires 0 <= lo <= hi <= |r| == |r'| && lo <= g < p < hi
    requires Kids(r, g + 1, hi, p, h) && Sub(r, lo, g, r[g].left, g, h)
    requires Black(r, r[p].left) && Black(r, r[g].left)
    requires forall k :: lo <= k < hi && k !in {p, g, r[p].left} ==> r'[k] == r[k]
    requires r'[p] == Rec(g, r[p].right, r[g].parent, false)
    requires r'[g] == Rec(r[g].left, r[p].left, p, true)
    requires r[p].left != NIL ==> r'[r[p].left] == r[r[p].left].(parent := g)
    ensures Sub(r', lo, hi, p, r[g].parent, h + 1)
  {
    SubFrame(r, r', p + 1, hi, r[p].right, p, h);
    SubMove(r, r', g + 1, p, r[p].left, p, g, h);
    SubFrame(r, r', lo, g, r[g].left, g, h);
  }

  /** The last rotation when `p` is the right child of `g`. */
  lemma {:induction false} OuterLeft(r: seq<Rec>, r': seq<Rec>, c: Ctx, top: int, top': int, lo: int, hi: int, p: int,
      g: int, h: int)
    requires 0 <= lo <= hi <= |r| && lo <= g < p < hi && !r[g].red
    requires Kids(r, g + 1, hi, p, h) && Sub(r, lo, g, r[g].left, g, h)
    requires Black(r, r[p].left) && Black(r, r[g].left)
    requires Above(r, c, top, lo, hi, g, r[g].parent, h + 1)
    requires top' == if r[g].parent == NIL then p else top
    requires TurnedLeft(r, r', p, g)
    ensures Valid(r', top')
  {
    HoleLink(r, c, top, lo, hi, g, r[g].parent, h + 1);
    TurnLeft(r, r', lo, hi, p, g, h);
    AboveSwap(r, r', c, top, top', lo, hi, g, p, r[g].parent, h + 1);
    Close(r', c, top', lo, hi, p, r[g].parent, h + 1);
  }

  /** The red node `i`, right child of the red node `p`, rotates above it. */
  lemma {:induction false} InnerLeft(r: seq<Rec>, r': seq<Rec>, lo: int, hi: int, p: int, i: int, h: int)
    requires 0 <= lo <= hi <= |r| && lo <= p < i < hi && r[p].red
    requires Sub(r, lo, p, r[p].left, p, h) && Black(r, r[p].left) && Kids(r, p + 1, hi, i, h) && Black(r, r[i].left)
    requires FoldedLeft(r, r', p, i)
    ensures Kids(r', lo, hi, i, h)
  {
    SubFrame(r, r', lo, p, r[p].left, p, h);
    SubMove(r, r', p + 1, i, r[i].left, i, p, h);
    SubFrame(r, r', i + 1, hi, r[i].right, i, h);
  }

  /** The red node `i`, left child of the red node `p`, rotates above it. */
  lemma {:induction false} InnerRight(r: seq<Rec>, r': seq<Rec>, lo: int, hi: int, p: int, i: int, h: int)
    requires 0 <= lo <= hi <= |r| && lo <= i < p < hi && r[p].red
    requires Sub(r, p + 1, hi, r[p].right, p, h) && Black(r, r[p].right) && Kids(r, lo, p, i, h) && Black(r, r[i].right)
    requires FoldedRight(r, r', p, i)
    ensures Kids(r', lo, hi, i, h)
  {
    SubFrame(r, r', p + 1, hi, r[p].right, p, h);
    SubMove(r, r', i + 1, p, r[i].right, i, p, h);
    SubFrame(r, r', lo, i, r[i].left, i, h);
  }

  ghost predicate In(r: seq<Rec>, i: int) {
    0 <= i < |r|
  }

  /** The three nodes involved in a rotation and their neighbours are different nodes. */
  ghost predicate Apart(r: seq<Rec>, i: int, p: int, g: int) {
    In(r, i) && In(r, p) && In(r, g) && i != p && p != g && g != i && !r[g].red
    && {r[i].left, r[i].right} !! {i, p, g} && {r[p].left, r[p].right} !! {p, g}
    && (r[g].parent == NIL
        || (In(r, r[g].parent) && {r[g].parent} !! {i, p, g, r[i].left, r[i].right, r[p].left, r[p].right}))
  }

  lemma {:induction false} SubLinks(r: seq<Rec>, lo: int, hi: int, i: int, p: int, h: int)
    requires 0 <= lo <= hi <= |r| && Sub(r, lo, hi, i, p, h)
    ensures i == NIL || lo <= i < hi
    ensures i != NIL ==> (r[i].left == NIL || lo <= r[i].left < i) && (r[i].right == NIL || i < r[i].right < hi)
  {}

  lemma {:induction false} RedRedApart(r: seq<Rec>, c: Ctx, top: int, lo: int, hi: int, i: int, p: int, g: int, h: int)
    requires 0 <= lo <= hi <= |r| && RedRed(r, c, top, lo, hi, i, p, g, h)
    ensures Apart(r, i, p, g)
    ensures if p < g then r[g].left == p && r[g].right != p else r[g].right == p && r[g].left != p
    ensures if i < p then r[p].left == i && r[p].right != i else r[p].right == i && r[p].left != i
  {
    HoleLink(r, c, top, lo, hi, g, r[g].parent, h + 1);
    var l, u := if p < g then lo else g + 1, if p < g then g else hi;
    SubLinks(r, l, p, r[p].left, p, h);
    SubLinks(r, p + 1, u, r[p].right, p, h);
  }

  /** The writes of `__rb_insert` when `p` is the left child of `g` and the other child is black. */
  ghost predicate FixedRight(r: seq<Rec>, r1: seq<Rec>, r': seq<Rec>, i: int, p: int, g: int)
    requires In(r, i) && In(r, p) && In(r, g)
  {
    if i == r[p].right then FoldedLeft(r, r1, p, i) && TurnedRight(r1, r', i, g)
    else r1 == r && TurnedRight(r, r', p, g)
  }

  lemma {:induction false} FoldRight(r: seq<Rec>, r1: seq<Rec>, c: Ctx, top: int, lo: int, hi: int, i: int, p: int,
      g: int, h: int)
    requires 0 <= lo <= hi <= |r| && RedRed(r, c, top, lo, hi, i, p, g, h) && p < g && i == r[p].right
    requires FoldedLeft(r, r1, p, i)
    ensures |r1| == |r| && r1[g] == r[g] && Kids(r1, lo, g, i, h) && Sub(r1, g + 1, hi, r[g].right, g, h)
    ensures Above(r1, c, top, lo, hi, g, r[g].parent, h + 1) && Black(r1, r1[i].right)
  {
    assert Sub(r, p + 1, g, i, p, h);
    InnerLeft(r, r1, lo, g, p, i, h);
    SubFrame(r, r1, g + 1, hi, r[g].right, g, h);
    AboveSwap(r, r1, c, top, top, lo, hi, g, g, r[g].parent, h + 1);
  }

  lemma {:induction false} FixRight(r: seq<Rec>, r1: seq<Rec>, r': seq<Rec>, c: Ctx, top: int, top': int,
                                    lo: int, hi: int, i: int, p: int, g: int, h: int)
    requires 0 <= lo <= hi <= |r| && RedRed(r, c, top, lo, hi, i, p, g, h) && p < g && Black(r, r[g].right)
    requires FixedRight(r, r1, r', i, p, g)
    requires top' == if r[g].parent == NIL then (if i == r[p].right then i else p) else top
    ensures Valid(r', top')
  {
    if i == r[p].right {
      FoldRight(r, r1, c, top, lo, hi, i, p, g, h);
      OuterRight(r1, r', c, top, top', lo, hi, i, g, h);
    } else {
      OuterRight(r, r', c, top, top', lo, hi, p, g, h);
    }
  }

  /** The writes of `__rb_insert` when `p` is the right child of `g` and the other child is black. */
  ghost predicate FixedLeft(r: seq<Rec>, r1: seq<Rec>, r': seq<Rec>, i: int, p: int, g: int)
    requires In(r, i) && In(r, p) && In(r, g)
  {
    if i == r[p].left then FoldedRight(r, r1, p, i) && TurnedLeft(r1, r', i, g)
    else r1 == r && TurnedLeft(r, r', p, g)
  }

  lemma {:induction false} FoldLeft(r: seq<Rec>, r1: seq<Rec>, c: Ctx, top: int, lo: int, hi: int, i: int, p: int,
      g: int, h: int)
    requires 0 <= lo <= hi <= |r| && RedRed(r, c, top, lo, hi, i, p, g, h) && g < p && i == r[p].left
    requires FoldedRight(r, r1, p, i)
    ensures |r1| == |r| && r1[g] == r[g] && Kids(r1, g + 1, hi, i, h) && Sub(r1, lo, g, r[g].left, g, h)
    ensures Above(r1, c, top, lo, hi, g, r[g].parent, h + 1) && Black(r1, r1[i].left)
  {
    assert Sub(r, g + 1, p, i, p, h);
    InnerRight(r, r1, g + 1, hi, p, i, h);
    SubFrame(r, r1, lo, g, r[g].left, g, h);
    AboveSwap(r, r1, c, top, top, lo, hi, g, g, r[g].parent, h + 1);
  }

  lemma {:induction false} FixLeft(r: seq<Rec>, r1: seq<Rec>, r': seq<Rec>, c: Ctx, top: int, top': int,
                                   lo: int, hi: int, i: int, p: int, g: int, h: int)
    requires 0 <= lo <= hi <= |r| && RedRed(r, c, top, lo, hi, i, p, g, h) && g < p && Black(r, r[g].left)
    requires FixedLeft(r, r1, r', i, p, g)
    requires top' == if r[g].parent == NIL then (if i == r[p].left then i else p) else top
    ensures Valid(r', top')
  {
    if i == r[p].left {
      FoldLeft(r, r1, c, top, lo, hi, i, p, g, h);
      OuterLeft(r1, r', c, top, top', lo, hi, i, g, h);
    } else {
      OuterLeft(r, r', c, top, top', lo, hi, p, g, h);
    }
  }

  lemma {:induction false} RedRedRecolor(r: seq<Rec>, r': seq<Rec>, c: Ctx, top: int, lo: int, hi: int, i: int, p: int,
      u: int, g: int, h: int)
    requires 0 <= lo <= hi <= |r| && RedRed(r, c, top, lo, hi, i, p, g, h)
    requires In(r, u) && r[u].red && u == if p < g then r[g].right else r[g].left
    requires u != p && u != g
        && r' == r[u := r[u].(parent := g, red := false)][p := r[p].(parent := g,
        red := false)][g := r[g].(red := true)]
    ensures Inserting(r', c, top, lo, hi, g, h + 1)
  {
    if p < g {
      assert Sub(r, g + 1, hi, u, g, h);
      assert r' == r[p := r[p].(red := false)][u := r[u].(red := false)][g := r[g].(red := true)];
      Recolor(r, r', c, top, lo, hi, p, g, u, h);
    } else {
      assert Sub(r, lo, g, u, g, h);
      Recolor(r, r', c, top, lo, hi, u, g, p, h);
    }
  }
}
