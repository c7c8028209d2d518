/** Making room for a position and closing a position, over numbered nodes: what linking a new
    leaf (`rb_link_node`) and taking a node out (`__rb_erase_augmented`) do to the numbering. */
module RbRenumber {
  import opened RbShape
  import opened RbErase

  // ---------------------------------------------------------------- making room at k

  function ShiftUp(x: int, k: int): int {
    if x >= k then x + 1 else x
  }

  function UpRec(x: Rec, k: int): Rec {
    Rec(ShiftUp(x.left, k), ShiftUp(x.right, k), ShiftUp(x.parent, k), x.red)
  }

  /** `r'` is `r` with a new position `k`. */
  ghost predicate Opened(r: seq<Rec>, r': seq<Rec>, k: int) {
    0 <= k <= |r| && |r'| == |r| + 1
    && (forall j :: 0 <= j < k ==> r'[j] == UpRec(r[j], k))
    && forall j :: k <= j < |r| ==> r'[j + 1] == UpRec(r[j], k)
  }

  ghost function Open(r: seq<Rec>, k: int, leaf: Rec): (r': seq<Rec>)
    requires 0 <= k <= |r|
    ensures Opened(r, r', k) && r'[k] == leaf
  {
    seq(|r| + 1, j requires 0 <= j <= |r| => if j < k then UpRec(r[j], k) else if j == k then leaf
        else UpRec(r[j - 1], k))
  }

  ghost function OpenedCtx(c: Ctx, k: int): Ctx {
    match c
    case Top => Top
    case Up(far, rest) => Up(if far > k then far + 1 else far, OpenedCtx(rest, k))
  }

  lemma {:induction false} OpenLow(r: seq<Rec>, r': seq<Rec>, k: int, lo: int, hi: int, i: int, p: int, h: int)
    requires Opened(r, r', k) && 0 <= lo <= hi <= |r| && Sub(r, lo, hi, i, p, h) && hi <= k
    ensures Sub(r', lo, hi, i, ShiftUp(p, k), h)
    decreases hi - lo
  {
    if i != NIL {
      var h' := if r[i].red then h else h - 1;
      SubLinks(r, lo, hi, i, p, h);
      OpenLow(r, r', k, lo, i, r[i].left, i, h');
      OpenLow(r, r', k, i + 1, hi, r[i].right, i, h');
    }
  }

  lemma {:induction false} OpenHigh(r: seq<Rec>, r': seq<Rec>, k: int, lo: int, hi: int, i: int, p: int, h: int)
    requires Opened(r, r', k) && 0 <= lo <= hi <= |r| && Sub(r, lo, hi, i, p, h) && lo >= k
    ensures Sub(r', lo + 1, hi + 1, ShiftUp(i, k), ShiftUp(p, k), h)
    decreases hi - lo
  {
    if i != NIL {
      var h' := if r[i].red then h else h - 1;
      SubLinks(r, lo, hi, i, p, h);
      OpenHigh(r, r', k, lo, i, r[i].left, i, h');
      OpenHigh(r, r', k, i + 1, hi, r[i].right, i, h');
    }
  }

  lemma {:induction false} OpenAboveLeft(r: seq<Rec>, r': seq<Rec>, k: int, c: Ctx, top: int, lo: int, far: int,
      i: int, p: int, h: int)
    requires Opened(r, r', k) && 0 <= lo <= k <= p < far <= |r| && Above(r, Up(far, c), top, lo, p, i, p, h)
    requires Above(r', OpenedCtx(c, k), ShiftUp(top, k), lo, far + 1, p + 1, ShiftUp(r[p].parent, k),
        if r[p].red then h else h + 1)
    ensures Above(r', Up(far + 1, OpenedCtx(c, k)), ShiftUp(top, k), lo, p + 1, ShiftUp(i, k), p + 1, h)
  {
    SubLinks(r, p + 1, far, r[p].right, p, h);
    OpenHigh(r, r', k, p + 1, far, r[p].right, p, h);
    AboveLeft(r', OpenedCtx(c, k), ShiftUp(top, k), lo, far + 1, ShiftUp(i, k), p + 1, h);
  }

  lemma {:induction false} OpenAboveRight(r: seq<Rec>, r': seq<Rec>, k: int, c: Ctx, top: int, far: int, hi: int,
      i: int, p: int, h: int)
    requires Opened(r, r', k) && 0 <= far <= p < k <= hi <= |r| && Above(r, Up(far, c), top, p + 1, hi, i, p, h)
    requires Above(r', OpenedCtx(c, k), ShiftUp(top, k), far, hi + 1, p, ShiftUp(r[p].parent, k), if r[p].red then h
        else h + 1)
    ensures Above(r', Up(far, OpenedCtx(c, k)), ShiftUp(top, k), p + 1, hi + 1, ShiftUp(i, k), p, h)
  {
    SubLinks(r, far, p, r[p].left, p, h);
    OpenLow(r, r', k, far, p, r[p].left, p, h);
    AboveRight(r', OpenedCtx(c, k), ShiftUp(top, k), far, hi + 1, ShiftUp(i, k), p, h);
  }

  /** One level up. */
  lemma {:induction false} AboveOut(r: seq<Rec>, c: Ctx, top: int, lo: int, hi: int, i: int, p: int, h: int)
    requires 0 <= lo <= hi <= |r| && c.Up? && Above(r, c, top, lo, hi, i, p, h)
    ensures 0 <= p < |r|
    ensures var h' := if r[p].red then h else h + 1;
      if p == hi then hi < c.far <= |r| && Above(r, c.rest, top, lo, c.far, p, r[p].parent, h')
      else p == lo - 1 && 0 <= c.far <= p && Above(r, c.rest, top, c.far, hi, p, r[p].parent, h')
  {}

  lemma {:induction false} OpenAbove(r: seq<Rec>, r': seq<Rec>, k: int, c: Ctx, top: int, lo: int, hi: int, i: int,
      p: int, h: int)
    requires Opened(r, r', k) && 0 <= lo <= k <= hi <= |r| && Above(r, c, top, lo, hi, i, p, h)
    ensures Above(r', OpenedCtx(c, k), ShiftUp(top, k), lo, hi + 1, ShiftUp(i, k), ShiftUp(p, k), h)
    decreases c
  {
    if c.Up? {
      AboveOut(r, c, top, lo, hi, i, p, h);
      var h' := if r[p].red then h else h + 1;
      if p == hi {
        OpenAbove(r, r', k, c.rest, top, lo, c.far, p, r[p].parent, h');
        OpenAboveLeft(r, r', k, c.rest, top, lo, c.far, i, p, h);
      } else {
        OpenAbove(r, r', k, c.rest, top, c.far, hi, p, r[p].parent, h');
        OpenAboveRight(r, r', k, c.rest, top, c.far, hi, i, p, h);
      }
    }
  }

  /** A new red leaf in the empty place `k` is all that can be wrong afterwards. */
  lemma {:induction false} LinkLeaf(r: seq<Rec>, r1: seq<Rec>, r': seq<Rec>, c: Ctx, top: int, top': int, k: int,
      p: int)
    requires 0 <= k <= |r| && Above(r, c, top, k, k, NIL, p, 0)
    requires Opened(r, r1, k) && r1[k] == Rec(NIL, NIL, ShiftUp(p, k), true)
    requires top' == if p == NIL then k else ShiftUp(top, k)
    requires r' == if p == NIL then r1 else if p == k then r1[k + 1 := r1[k + 1].(left := k)]
        else r1[p := r1[p].(right := k)]
    ensures |r'| == |r| + 1 && Inserting(r', OpenedCtx(c, k), top', k, k + 1, k, 0)
  {
    OpenAbove(r, r1, k, c, top, k, k, NIL, p, 0);
    AboveSwap(r1, r', OpenedCtx(c, k), ShiftUp(top, k), top', k, k + 1, NIL, k, ShiftUp(p, k), 0);
  }

  // ---------------------------------------------------------------- closing position d

  function ShiftDown(x: int, d: int): int {
    if x > d then x - 1 else x
  }

  function DnRec(x: Rec, d: int): Rec {
    Rec(ShiftDown(x.left, d), ShiftDown(x.right, d), ShiftDown(x.parent, d), x.red)
  }

  /** `r'` is `r` without the position `d`. */
  ghost predicate Closed(r: seq<Rec>, r': seq<Rec>, d: int) {
    0 <= d < |r| == |r'| + 1
    && (forall j :: 0 <= j < d ==> r'[j] == DnRec(r[j], d))
    && forall j :: d < j < |r| ==> r'[j - 1] == DnRec(r[j], d)
  }

  ghost function Shut(r: seq<Rec>, d: int): (r': seq<Rec>)
    requires 0 <= d < |r|
    ensures Closed(r, r', d)
  {
    seq(|r| - 1, j requires 0 <= j < |r| - 1 => if j < d then DnRec(r[j], d) else DnRec(r[j + 1], d))
  }

  ghost function ClosedCtx(c: Ctx, d: int): Ctx {
    match c
    case Top => Top
    case Up(far, rest) => Up(ShiftDown(far, d), ClosedCtx(rest, d))
  }

  lemma {:induction false} CloseLow(r: seq<Rec>, r': seq<Rec>, d: int, lo: int, hi: int, i: int, p: int, h: int)
    requires Closed(r, r', d) && 0 <= lo <= hi <= |r| && Sub(r, lo, hi, i, p, h) && hi <= d
    ensures Sub(r', lo, hi, i, ShiftDown(p, d), h)
    decreases hi - lo
  {
    if i != NIL {
      var h' := if r[i].red then h else h - 1;
      SubLinks(r, lo, hi, i, p, h);
      CloseLow(r, r', d, lo, i, r[i].left, i, h');
      CloseLow(r, r', d, i + 1, hi, r[i].right, i, h');
    }
  }

  lemma {:induction false} CloseHigh(r: seq<Rec>, r': seq<Rec>, d: int, lo: int, hi: int, i: int, p: int, h: int)
    requires Closed(r, r', d) && 0 <= lo <= hi <= |r| && Sub(r, lo, hi, i, p, h) && lo > d
    ensures Sub(r', lo - 1, hi - 1, ShiftDown(i, d), ShiftDown(p, d), h)
    decreases hi - lo
  {
    if i != NIL {
      var h' := if r[i].red then h else h - 1;
      SubLinks(r, lo, hi, i, p, h);
      CloseHigh(r, r', d, lo, i, r[i].left, i, h');
      CloseHigh(r, r', d, i + 1, hi, r[i].right, i, h');
    }
  }

  lemma {:induction false} CloseAboveLeft(r: seq<Rec>, r': seq<Rec>, d: int, c: Ctx, top: int, lo: int, far: int,
      i: int, p: int, h: int)
    requires Closed(r, r', d) && 0 <= lo <= d < p < far <= |r| && Above(r, Up(far, c), top, lo, p, i, p, h)
    requires r[p].parent != d
    requires Above(r', ClosedCtx(c, d), ShiftDown(top, d), lo, far - 1, p - 1, ShiftDown(r[p].parent, d),
        if r[p].red then h else h + 1)
    ensures Above(r', Up(far - 1, ClosedCtx(c, d)), ShiftDown(top, d), lo, p - 1, ShiftDown(i, d), p - 1, h)
  {
    SubLinks(r, p + 1, far, r[p].right, p, h);
    CloseHigh(r, r', d, p + 1, far, r[p].right, p, h);
    AboveLeft(r', ClosedCtx(c, d), ShiftDown(top, d), lo, far - 1, ShiftDown(i, d), p - 1, h);
  }

  lemma {:induction false} CloseAboveRight(r: seq<Rec>, r': seq<Rec>, d: int, c: Ctx, top: int, far: int, hi: int,
      i: int, p: int, h: int)
    requires Closed(r, r', d) && 0 <= far <= p < d < hi <= |r| && Above(r, Up(far, c), top, p + 1, hi, i, p, h)
    requires r[p].parent != d
    requires Above(r', ClosedCtx(c, d), ShiftDown(top, d), far, hi - 1, p, ShiftDown(r[p].parent, d),
        if r[p].red then h else h + 1)
    ensures Above(r', Up(far, ClosedCtx(c, d)), ShiftDown(top, d), p + 1, hi - 1, ShiftDown(i, d), p, h)
  {
    SubLinks(r, far, p, r[p].left, p, h);
    CloseLow(r, r', d, far, p, r[p].left, p, h);
    AboveRight(r', ClosedCtx(c, d), ShiftDown(top, d), far, hi - 1, ShiftDown(i, d), p, h);
  }

  lemma {:induction false} CloseAbove(r: seq<Rec>, r': seq<Rec>, d: int, c: Ctx, top: int, lo: int, hi: int, i: int,
      p: int, h: int)
    requires Closed(r, r', d) && 0 <= lo <= d < hi <= |r| && Above(r, c, top, lo, hi, i, p, h)
    ensures Above(r', ClosedCtx(c, d), ShiftDown(top, d), lo, hi - 1, ShiftDown(i, d), ShiftDown(p, d), h)
    decreases c
  {
    if c.Up? {
      var h' := if r[p].red then h else h + 1;
      if p == hi {
        HoleLink(r, c.rest, top, lo, c.far, p, r[p].parent, h');
        CloseAbove(r, r', d, c.rest, top, lo, c.far, p, r[p].parent, h');
        CloseAboveLeft(r, r', d, c.rest, top, lo, c.far, i, p, h);
      } else {
        HoleLink(r, c.rest, top, c.far, hi, p, r[p].parent, h');
        CloseAbove(r, r', d, c.rest, top, c.far, hi, p, r[p].parent, h');
        CloseAboveRight(r, r', d, c.rest, top, c.far, hi, i, p, h);
      }
    }
  }

  // ---------------------------------------------------------------- taking a node out

  /** A subtree of black height 0 is empty or a single red leaf. */
  lemma {:induction false} HeightZero(r: seq<Rec>, lo: int, hi: int, i: int, p: int)
    requires 0 <= lo <= hi <= |r| && Sub(r, lo, hi, i, p, 0)
    ensures i == NIL || (lo == i && hi == i + 1 && r[i].red && r[i].left == NIL && r[i].right == NIL)
  {
    if i != NIL {
      var h := if r[i].red then 0 else -1;
      Height(r, lo, i, r[i].left, i, h);
      if r[i].left != NIL {
        Height(r, lo, r[i].left, r[r[i].left].left, r[i].left, -1);
      }
      if r[i].right != NIL {
        Height(r, i + 1, r[i].right, r[r[i].right].left, r[i].right, -1);
      }
    }
  }

  lemma {:induction false} Leaf(r: seq<Rec>, i: int, p: int)
    requires 0 <= i < |r| && r[i] == Rec(NIL, NIL, p, false)
    ensures Sub(r, i, i + 1, i, p, 1)
  {
    assert Sub(r, i, i, NIL, i, 0) && Sub(r, i + 1, i + 1, NIL, i, 0);
  }

  /** The only child `ch` (or nothing) takes the place and colour of `d`. */
  ghost function Detached(r: seq<Rec>, d: int, ch: int): seq<Rec>
    requires 0 <= d < |r|
  {
    var r1 := Replaced(r, d, ch, r[d].parent);
    if 0 <= ch < |r1| then r1[ch := r1[ch].(parent := r[d].parent, red := r[d].red)] else r1
  }

  /** `d` has no left child. Either all is well, or the empty place left behind is short. */
  lemma {:induction false} TakeOut(r: seq<Rec>, r1: seq<Rec>, r': seq<Rec>, c: Ctx, top: int, top': int, lo: int,
      hi: int, d: int, p: int, h: int)
    requires 0 <= lo <= d < hi <= |r| && Above(r, c, top, lo, hi, d, p, h) && Sub(r, lo, hi, d, p, h)
    requires r[d].left == NIL
    requires (Black(r, d) || (In(r, p) && !r[p].red))
    requires r1 == Detached(r, d, r[d].right) && Closed(r1, r', d)
    requires top' == ShiftDown(if p == NIL then r[d].right else top, d)
    ensures r[d].right != NIL || r[d].red || p == NIL ==> Valid(r', top')
    ensures r[d].right == NIL && !r[d].red && p != NIL ==>
      d <= |r'| && Short(r', ClosedCtx(c, d), top', d, d, NIL, ShiftDown(p, d), 0)
  {
    var ch := r[d].right;
    HoleLink(r, c, top, lo, hi, d, p, h);
    HeightZero(r, d + 1, hi, ch, d);
    AboveSwap(r, r1, c, top, if p == NIL then ch else top, lo, hi, d, ch, p, h);
    CloseAbove(r1, r', d, c, if p == NIL then ch else top, lo, hi, ch, p, h);
    if ch != NIL {
      assert ch == d + 1 && r1[ch] == Rec(NIL, NIL, p, false);
      Leaf(r', d, ShiftDown(p, d));
    }
    if p == NIL && ch == NIL {
      assert Sub(r', 0, |r'|, top', NIL, 0);
    } else if ch != NIL || r[d].red {
      Close(r', ClosedCtx(c, d), top', d, hi - 1, ShiftDown(ch, d), ShiftDown(p, d), h);
    }
  }

  /** `d` has a left child only, which is then a red leaf. */
  lemma {:induction false} TakeOutLeft(r: seq<Rec>, r1: seq<Rec>, r': seq<Rec>, c: Ctx, top: int, top': int, lo: int,
      hi: int, d: int, p: int, h: int)
    requires 0 <= lo <= d < hi <= |r| && Above(r, c, top, lo, hi, d, p, h) && Sub(r, lo, hi, d, p, h)
    requires r[d].left != NIL && r[d].right == NIL
    requires r1 == Detached(r, d, r[d].left) && Closed(r1, r', d)
    requires top' == ShiftDown(if p == NIL then r[d].left else top, d)
    ensures Valid(r', top')
  {
    var ch := r[d].left;
    HoleLink(r, c, top, lo, hi, d, p, h);
    HeightZero(r, lo, d, ch, d);
    AboveSwap(r, r1, c, top, if p == NIL then ch else top, lo, hi, d, ch, p, h);
    CloseAbove(r1, r', d, c, if p == NIL then ch else top, lo, hi, ch, p, h);
    assert ch == d - 1 && r1[ch] == Rec(NIL, NIL, p, false);
    Leaf(r', ch, ShiftDown(p, d));
    Close(r', ClosedCtx(c, d), top', lo, hi - 1, ch, ShiftDown(p, d), h);
  }

  // ---------------------------------------------------------------- finding a node

  /** The link `i` below `p` leads to the sound subtree `lo..hi` of a sound tree. */
  ghost predicate Located(r: seq<Rec>, c: Ctx, top: int, lo: int, hi: int, i: int, p: int, h: int)
    requires 0 <= lo <= hi <= |r|
  {
    true == (Above(r, c, top, lo, hi, i, p, h) && Sub(r, lo, hi, i, p, h) && (Black(r, i) || (In(r, p) && !r[p].red)))
  }

  lemma {:induction false} GoLeft(r: seq<Rec>, c: Ctx, top: int, lo: int, hi: int, i: int, p: int, h: int)
    requires 0 <= lo <= hi <= |r| && Located(r, c, top, lo, hi, i, p, h) && i != NIL
    ensures lo <= i < hi && Located(r, Up(hi, c), top, lo, i, r[i].left, i, if r[i].red then h else h - 1)
  {
    AboveLeft(r, c, top, lo, hi, r[i].left, i, if r[i].red then h else h - 1);
  }

  lemma {:induction false} GoRight(r: seq<Rec>, c: Ctx, top: int, lo: int, hi: int, i: int, p: int, h: int)
    requires 0 <= lo <= hi <= |r| && Located(r, c, top, lo, hi, i, p, h) && i != NIL
    ensures lo <= i < hi && Located(r, Up(lo, c), top, i + 1, hi, r[i].right, i, if r[i].red then h else h - 1)
  {
    AboveRight(r, c, top, lo, hi, r[i].right, i, if r[i].red then h else h - 1);
  }

  lemma {:induction false} LocatedEmpty(r: seq<Rec>, c: Ctx, top: int, lo: int, hi: int, p: int, h: int)
    requires 0 <= lo <= hi <= |r| && Located(r, c, top, lo, hi, NIL, p, h)
    ensures lo == hi && h == 0 && Above(r, c, top, lo, lo, NIL, p, 0)
  {}

  /** Every node of a tree is the root of a subtree with everything else around it. */
  lemma {:induction false} Locate(r: seq<Rec>, c: Ctx, top: int, lo: int, hi: int, i: int, p: int, h: int, k: int)
    returns (c': Ctx, lo': int, hi': int, h': int)
    requires 0 <= lo <= k < hi <= |r| && Located(r, c, top, lo, hi, i, p, h)
    ensures 0 <= lo' <= k < hi' <= |r| && Located(r, c', top, lo', hi', k, r[k].parent, h')
    decreases hi - lo
  {
    var kh := if r[i].red then h else h - 1;
    if k < i {
      GoLeft(r, c, top, lo, hi, i, p, h);
      c', lo', hi', h' := Locate(r, Up(hi, c), top, lo, i, r[i].left, i, kh, k);
    } else if i < k {
      GoRight(r, c, top, lo, hi, i, p, h);
      c', lo', hi', h' := Locate(r, Up(lo, c), top, i + 1, hi, r[i].right, i, kh, k);
    } else {
      c', lo', hi', h' := c, lo, hi, h;
    }
  }

  ghost predicate CoherentAt(r: seq<Rec>, lo: int, hi: int, i: int, p: int, j: int)
    requires 0 <= lo <= j < hi <= |r|
  {
    (r[j].left == NIL || (lo <= r[j].left < j && r[r[j].left].parent == j))
    && (r[j].right == NIL || (j < r[j].right < hi && r[r[j].right].parent == j))
    && (if j == i then r[j].parent == p
        else lo <= r[j].parent < hi && (r[r[j].parent].left == j || r[r[j].parent].right == j))
  }

  /** Child links and parent links agree, and point to the proper side. */
  ghost predicate Coherent(r: seq<Rec>, top: int) {
    (top == NIL || In(r, top)) && forall j :: 0 <= j < |r| ==> CoherentAt(r, 0, |r|, top, NIL, j)
  }

  lemma {:induction false} SubCoherent(r: seq<Rec>, lo: int, hi: int, i: int, p: int, h: int, j: int)
    requires 0 <= lo <= j < hi <= |r| && Sub(r, lo, hi, i, p, h)
    ensures CoherentAt(r, lo, hi, i, p, j)
    decreases hi - lo
  {
    var kh := if r[i].red then h else h - 1;
    SubLinks(r, lo, i, r[i].left, i, kh);
    SubLinks(r, i + 1, hi, r[i].right, i, kh);
    if j < i {
      SubCoherent(r, lo, i, r[i].left, i, kh, j);
    } else if i < j {
      SubCoherent(r, i + 1, hi, r[i].right, i, kh, j);
    }
  }

  lemma {:induction false} ValidCoherent(r: seq<Rec>, top: int)
    requires Valid(r, top)
    ensures Coherent(r, top)
  {
    var h :| Sub(r, 0, |r|, top, NIL, h);
    forall j | 0 <= j < |r|
      ensures CoherentAt(r, 0, |r|, top, NIL, j)
    {
      SubCoherent(r, 0, |r|, top, NIL, h, j);
    }
  }

  /** Nothing but `k` itself links to `k`. */
  ghost predicate Unlinked(r: seq<Rec>, top: int, k: int) {
    true == (In(r, k) && top != k && forall j :: 0 <= j < |r| && j != k ==>
        r[j].left != k && r[j].right != k && r[j].parent != k)
  }

  lemma {:induction false} DetachedUnlinked(r: seq<Rec>, top: int, d: int, ch: int)
    requires Coherent(r, top) && In(r, d)
    requires (r[d].left == NIL && ch == r[d].right) || (r[d].right == NIL && ch == r[d].left)
    ensures Unlinked(Detached(r, d, ch), if r[d].parent == NIL then ch else top, d)
  {
    var r' := Detached(r, d, ch);
    assert CoherentAt(r, 0, |r|, top, NIL, d);
    forall j | 0 <= j < |r| && j != d
      ensures r'[j].left != d && r'[j].right != d && r'[j].parent != d
    {
      assert CoherentAt(r, 0, |r|, top, NIL, j);
    }
  }

  function Merge(x: int, k: int): int {
    if x == k + 1 then k else x
  }

  function MergeRec(x: Rec, k: int): Rec {
    Rec(Merge(x.left, k), Merge(x.right, k), Merge(x.parent, k), x.red)
  }

  /** Putting the node at `k + 1` in the place of the one at `k` and closing `k` is the same as
      closing `k + 1`. */
  lemma {:induction false} ClosedMerge(rc: seq<Rec>, r1: seq<Rec>, r': seq<Rec>, topc: int, top1: int, k: int)
    requires 0 <= k && k + 1 < |rc| == |r1| && Closed(rc, r', k) && Unlinked(rc, topc, k) && Unlinked(r1, top1, k + 1)
    requires r1[k] == MergeRec(rc[k + 1], k)
    requires forall j :: 0 <= j < |rc| && j != k && j != k + 1 ==> r1[j] == MergeRec(rc[j], k)
    ensures Closed(r1, r', k + 1)
  {
    forall j | 0 <= j < k + 1
      ensures r'[j] == DnRec(r1[j], k + 1)
    {
      assert r'[j] == DnRec(if j < k then rc[j] else rc[j + 1], k);
    }
  }

  // ---------------------------------------------------------------- a node with two children

  /** The successor leaves its old place (unless it is the right child itself). */
  ghost function Lifted(r: seq<Rec>, k: int): seq<Rec>
    requires 0 <= k && k + 1 < |r| && In(r, r[k].right) && In(r, r[k + 1].parent)
  {
    var s, ch, p := k + 1, r[k].right, r[k + 1].parent;
    if p == k then r else
      var r1 := r[p := r[p].(left := r[s].right)];
      var r2 := r1[s := r1[s].(right := ch)];
      r2[ch := r2[ch].(parent := s)]
  }

  /** The successor `s` takes over what was around `k`; `ch2` is hung below `p`. */
  ghost function Seated(r: seq<Rec>, k: int, s: int, l: int, q: int, ch2: int, p: int, red: bool): seq<Rec>
    requires In(r, k) && In(r, s) && In(r, l)
  {
    var r1 := r[s := r[s].(left := l)];
    var r2 := r1[l := r1[l].(parent := s)];
    var r3 := Replaced(r2, k, s, q);
    var r4 := Adopted(r3, ch2, p);
    r4[s := r4[s].(parent := q, red := red)]
  }

  lemma {:induction false} SeatedAt(r: seq<Rec>, k: int, s: int, l: int, q: int, ch2: int, p: int, red: bool, j: int)
    requires In(r, k) && In(r, s) && In(r, l) && In(r, j) && j != s && l != s
    requires (In(r, q) ==> q !in {s, l, ch2}) && (In(r, ch2) ==> ch2 !in {s, l})
    ensures var r' := Seated(r, k, s, l, q, ch2, p, red);
      |r'| == |r|
      && r'[s] == Rec(l, r[s].right, q, red)
      && r'[j] == if j == l then r[j].(parent := s)
                  else if j == q then (if r[j].left == k then r[j].(left := s) else r[j].(right := s))
                  else if j == ch2 then r[j].(parent := p, red := false)
                  else r[j]
  {}

  /** The writes of `__rb_erase_augmented` when the node `k` has two children. */
  ghost function Spliced(r: seq<Rec>, k: int): seq<Rec>
    requires 0 <= k && k + 1 < |r| && In(r, r[k].right) && In(r, r[k].left) && In(r, r[k + 1].parent)
  {
    var s, p := k + 1, r[k + 1].parent;
    Seated(Lifted(r, k), k, s, r[k].left, r[k].parent, r[s].right, if p == k then s else p, r[k].red)
  }

  function SpliceLink(x: int, k: int, ch2: int): int {
    if x == k then k + 1 else if x == k + 1 then ch2 else x
  }

  /** What the splice makes of a record other than those of the node and its successor. */
  ghost function SpliceRec(r: seq<Rec>, k: int, j: int): Rec
    requires 0 <= k && k + 1 < |r| && In(r, j)
  {
    var ch2, p := r[k + 1].right, r[k + 1].parent;
    Rec(SpliceLink(r[j].left, k, ch2), SpliceLink(r[j].right, k, ch2),
        if r[j].parent == k then k + 1 else if r[j].parent == k + 1 then (if p == k then k + 1 else p) else r[j].parent,
        j != ch2 && r[j].red)
  }

  /** Where the neighbours of a node with two children and of its successor are. */
  ghost predicate Neighbours(r: seq<Rec>, k: int) {
    true == (0 <= k && k + 1 < |r| && r[k + 1].left == NIL
    && 0 <= r[k].left < k < r[k].right < |r| && k <= r[k + 1].parent < |r| && r[k + 1].parent != k + 1
    && (r[k].parent == NIL
        || (In(r, r[k].parent) && r[k].parent !in {r[k].left, r[k].right, k, k + 1, r[k + 1].right, r[k + 1].parent}))
    && (r[k + 1].right == NIL || (k + 1 < r[k + 1].right < |r| && r[k + 1].right != r[k + 1].parent))
    && (r[k + 1].parent == k <==> r[k].right == k + 1)
    && (r[k + 1].parent != k ==> r[r[k + 1].parent].left == k + 1)
    && (In(r, r[k + 1].right) ==> r[r[k + 1].right].parent == k + 1 && r[r[k + 1].right].red && !r[k + 1].red))
  }

  /** Below which node the place of the successor is empty and short, if it is. */
  ghost function ShortPlace(r: seq<Rec>, k: int): int
    requires Neighbours(r, k)
  {
    if r[k + 1].right != NIL || r[k + 1].red then NIL else if r[k + 1].parent == k then k + 1 else r[k + 1].parent
  }

  lemma {:induction false} FindNeighbours(r: seq<Rec>, c: Ctx, top: int, lo: int, hi: int, k: int, h: int)
    requires 0 <= lo <= k < hi <= |r| && Located(r, c, top, lo, hi, k, r[k].parent, h)
    requires r[k].left != NIL && r[k].right != NIL && k + 1 < |r| && r[k + 1].left == NIL
    ensures Neighbours(r, k)
  {
    var kh := if r[k].red then h else h - 1;
    var l, ch := r[k].left, r[k].right;
    HoleLink(r, c, top, lo, hi, k, r[k].parent, h);
    SubLinks(r, lo, k, l, k, kh);
    SubLinks(r, k + 1, hi, ch, k, kh);
    SubCoherent(r, k + 1, hi, ch, k, kh, k + 1);
    GoRight(r, c, top, lo, hi, k, r[k].parent, h);
    var c', lo', hi', h' := Locate(r, Up(lo, c), top, k + 1, hi, ch, k, kh, k + 1);
    GoLeft(r, c', top, lo', hi', k + 1, r[k + 1].parent, h');
    LocatedEmpty(r, Up(hi', c'), top, lo', k + 1, k + 1, if r[k + 1].red then h' else h' - 1);
    GoRight(r, c', top, lo', hi', k + 1, r[k + 1].parent, h');
    HeightZero(r, k + 2, hi', r[k + 1].right, k + 1);
  }

  lemma {:induction false} LiftedAt(r: seq<Rec>, top: int, k: int, j: int)
    requires Coherent(r, top) && Neighbours(r, k) && In(r, j) && j != k && j != k + 1
    ensures |Lifted(r, k)| == |r|
    ensures Lifted(r, k)[k + 1].right == if r[k + 1].parent == k then r[k + 1].right else r[k].right
    ensures Lifted(r, k)[j] == if r[k + 1].parent == k then r[j]
      else Rec(if j == r[k + 1].parent then r[k + 1].right else r[j].left, r[j].right, if j == r[k].right then k + 1
          else r[j].parent, r[j].red)
  {}

  lemma {:induction false} SpliceSeat(r: seq<Rec>, top: int, k: int, j: int)
    requires Coherent(r, top) && Neighbours(r, k) && In(r, j) && j != k && j != k + 1
    ensures |Lifted(r, k)| == |r| == |Spliced(r, k)|
    ensures var x := Lifted(r, k)[j];
      Spliced(r, k)[j] == if j == r[k].left then x.(parent := k + 1)
        else if j == r[k].parent then (if x.left == k then x.(left := k + 1) else x.(right := k + 1))
        else if j == r[k + 1].right then
            x.(parent := if r[k + 1].parent == k then k + 1 else r[k + 1].parent, red := false)
        else x
  {
    var s, l, q, ch2, p := k + 1, r[k].left, r[k].parent, r[k + 1].right, r[k + 1].parent;
    LiftedAt(r, top, k, j);
    SeatedAt(Lifted(r, k), k, s, l, q, ch2, if p == k then s else p, r[k].red, j);
  }

  lemma {:induction false} SpliceAt(r: seq<Rec>, top: int, k: int, j: int)
    requires Coherent(r, top) && Neighbours(r, k) && In(r, j) && j != k && j != k + 1
    ensures |Spliced(r, k)| == |r| && Spliced(r, k)[j] == SpliceRec(r, k, j)
  {
    SpliceSeat(r, top, k, j);
    LiftedAt(r, top, k, j);
    assert CoherentAt(r, 0, |r|, top, NIL, k);
    assert CoherentAt(r, 0, |r|, top, NIL, k + 1);
    assert CoherentAt(r, 0, |r|, top, NIL, j);
  }

  lemma {:induction false} DetachAt(r: seq<Rec>, top: int, k: int, j: int)
    requires Coherent(r, top) && Neighbours(r, k) && In(r, j) && j != k && j != k + 1
    ensures |Detached(r, k + 1, r[k + 1].right)| == |r|
    ensures Detached(r, k + 1, r[k + 1].right)[j] == MergeRec(SpliceRec(r, k, j), k)
  {
    CoherentHere(r, top, k);
    CoherentHere(r, top, k + 1);
    CoherentHere(r, top, j);
  }

  lemma {:induction false} CoherentHere(r: seq<Rec>, top: int, j: int)
    requires Coherent(r, top) && In(r, j)
    ensures CoherentAt(r, 0, |r|, top, NIL, j)
  {}

  /** `rc` is `r` after the splice, record by record. */
  ghost predicate SplicedTo(r: seq<Rec>, rc: seq<Rec>, k: int)
    requires Neighbours(r, k)
  {
    true == (|rc| == |r|
    && rc[k + 1] == Rec(r[k].left, if r[k + 1].parent == k then r[k + 1].right else r[k].right, r[k].parent, r[k].red)
    && forall j :: 0 <= j < |r| && j != k && j != k + 1 ==> rc[j] == SpliceRec(r, k, j))
  }

  lemma {:induction false} SpliceEffect(r: seq<Rec>, top: int, k: int)
    requires Coherent(r, top) && Neighbours(r, k)
    ensures SplicedTo(r, Spliced(r, k), k)
  {
    var s, l, q, ch2, p := k + 1, r[k].left, r[k].parent, r[k + 1].right, r[k + 1].parent;
    LiftedAt(r, top, k, l);
    SeatedAt(Lifted(r, k), k, s, l, q, ch2, if p == k then s else p, r[k].red, k);
    forall j | 0 <= j < |r| && j != k && j != k + 1
      ensures Spliced(r, k)[j] == SpliceRec(r, k, j)
    {
      SpliceAt(r, top, k, j);
    }
  }

  lemma {:induction false} SplicedUnlinked(r: seq<Rec>, rc: seq<Rec>, top: int, k: int)
    requires Coherent(r, top) && Neighbours(r, k) && SplicedTo(r, rc, k)
    ensures Unlinked(rc, if r[k].parent == NIL then k + 1 else top, k)
  {
    assert CoherentAt(r, 0, |r|, top, NIL, k);
  }

  lemma {:induction false} SpliceClosed(r: seq<Rec>, rc: seq<Rec>, r': seq<Rec>, top: int, k: int)
    requires Coherent(r, top) && Neighbours(r, k) && SplicedTo(r, rc, k) && Closed(rc, r', k)
    ensures Closed(Detached(r, k + 1, r[k + 1].right), r', k + 1)
  {
    var r1 := Detached(r, k + 1, r[k + 1].right);
    SplicedUnlinked(r, rc, top, k);
    DetachedUnlinked(r, top, k + 1, r[k + 1].right);
    assert r1[k] == MergeRec(rc[k + 1], k) by {
      assert CoherentAt(r, 0, |r|, top, NIL, k);
      assert CoherentAt(r, 0, |r|, top, NIL, k + 1);
    }
    forall j | 0 <= j < |r| && j != k && j != k + 1
      ensures r1[j] == MergeRec(rc[j], k)
    {
      DetachAt(r, top, k, j);
    }
    ClosedMerge(rc, r1, r', if r[k].parent == NIL then k + 1 else top, top, k);
  }

  /** The successor of a node with two children, and where the links to both lead once it is gone. */
  lemma {:induction false} LocateSuccessor(r: seq<Rec>, c: Ctx, top: int, lo: int, hi: int, k: int, h: int)
    returns (c': Ctx, lo': int, hi': int, h': int)
    requires 0 <= lo <= k < hi <= |r| && Located(r, c, top, lo, hi, k, r[k].parent, h)
    requires Coherent(r, top) && Neighbours(r, k)
    ensures 0 <= lo' <= k + 1 < hi' <= |r| && Located(r, c', top, lo', hi', k + 1, r[k + 1].parent, h')
    ensures ShiftDown(if r[k].parent == NIL then k + 1 else top, k) == ShiftDown(top, k + 1)
    ensures ShortPlace(r, k) != NIL ==> ShiftDown(r[k + 1].parent, k + 1) == ShiftDown(ShortPlace(r, k), k)
  {
    assert CoherentAt(r, 0, |r|, top, NIL, k);
    assert CoherentAt(r, 0, |r|, top, NIL, k + 1);
    var kh := if r[k].red then h else h - 1;
    GoRight(r, c, top, lo, hi, k, r[k].parent, h);
    c', lo', hi', h' := Locate(r, Up(lo, c), top, k + 1, hi, r[k].right, k, kh, k + 1);
  }

  /** What `__rb_erase_augmented` has written for a node `k` with two children, and the
      place it reports. */
  ghost predicate SpliceDone(r: seq<Rec>, rc: seq<Rec>, top: int, topc: int, k: int, short: int) {
    true == (Neighbours(r, k) && rc == Spliced(r, k) && topc == (if r[k].parent == NIL then k + 1 else top)
    && short == ShortPlace(r, k))
  }

  /** Nothing links to `k`; without it the tree is sound or short below `short`. */
  ghost predicate SplicedOut(rc: seq<Rec>, topc: int, k: int, short: int, c: Ctx) {
    true == (Unlinked(rc, topc, k) && short != k && k + 1 < |rc|
    && (if short == NIL then Valid(Shut(rc, k), ShiftDown(topc, k))
        else Short(Shut(rc, k), c, ShiftDown(topc, k), k + 1, k + 1, NIL, ShiftDown(short, k), 0)))
  }

  lemma {:induction false} TakeOutSpliced(r: seq<Rec>, rc: seq<Rec>, r': seq<Rec>, c: Ctx, top: int, top': int,
      lo: int, hi: int, k: int, h: int)
    returns (c': Ctx)
    requires 0 <= lo <= k < hi <= |r| && Located(r, c, top, lo, hi, k, r[k].parent, h)
    requires Coherent(r, top) && Neighbours(r, k) && SplicedTo(r, rc, k) && Closed(rc, r', k)
    requires top' == ShiftDown(if r[k].parent == NIL then k + 1 else top, k)
    ensures ShortPlace(r, k) == NIL ==> Valid(r', top')
    ensures ShortPlace(r, k) != NIL ==>
      k + 1 <= |r'| && Short(r', c', top', k + 1, k + 1, NIL, ShiftDown(ShortPlace(r, k), k), 0)
  {
    var d, lo1, hi1, h1 := LocateSuccessor(r, c, top, lo, hi, k, h);
    SpliceClosed(r, rc, r', top, k);
    TakeOut(r, Detached(r, k + 1, r[k + 1].right), r', d, top, top', lo1, hi1, k + 1, r[k + 1].parent, h1);
    c' := ClosedCtx(d, k + 1);
  }

  /** Removing a node with two children amounts to taking its successor's place away. */
  lemma {:induction false} TakeOutTwo(r: seq<Rec>, rc: seq<Rec>, c: Ctx, top: int, topc: int, lo: int, hi: int, k: int,
      h: int, short: int)
    returns (c': Ctx)
    requires 0 <= lo <= k < hi <= |r| && Located(r, c, top, lo, hi, k, r[k].parent, h)
    requires Coherent(r, top) && SpliceDone(r, rc, top, topc, k, short)
    ensures SplicedOut(rc, topc, k, short, c')
  {
    SpliceEffect(r, top, k);
    SplicedUnlinked(r, rc, top, k);
    c' := TakeOutSpliced(r, rc, Shut(rc, k), c, top, ShiftDown(topc, k), lo, hi, k, h);
  }
}
