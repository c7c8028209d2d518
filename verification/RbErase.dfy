/** Restoring the black height after a removal (`____rb_erase_color`), over numbered nodes. */
module RbErase {
  import opened RbShape

  /** The loop invariant of `____rb_erase_color`: the subtree `lo..hi` is sound, has a black
      root (or none) and is one black node short of what its surroundings expect. */
  ghost predicate Short(r: seq<Rec>, c: Ctx, top: int, lo: int, hi: int, i: int, p: int, h: int)
    requires 0 <= lo <= hi <= |r|
  {
    true == (c.Up? && Sub(r, lo, hi, i, p, h) && Black(r, i) && Above(r, c, top, lo, hi, i, p, h + 1))
  }

  lemma {:induction false} Height(r: seq<Rec>, lo: int, hi: int, i: int, p: int, h: int)
    requires 0 <= lo <= hi <= |r| && Sub(r, lo, hi, i, p, h)
    ensures h >= 0
    decreases hi - lo
  {
    if i != NIL {
      Height(r, lo, i, r[i].left, i, if r[i].red then h else h - 1);
    }
  }

  /** What `____rb_erase_color` finds around a short left child: `p` with its right child `s`. */
  ghost predicate ShortLeft(r: seq<Rec>, c: Ctx, top: int, lo: int, far: int, i: int, p: int, s: int, h: int)
    requires 0 <= lo <= far <= |r|
  {
    true == (lo <= p < s < far && r[p].left == i && r[p].right == s && r[s].parent == p
    && Sub(r, lo, p, i, p, h) && Black(r, i)
    && Sub(r, p + 1, far, s, p, h + 1) && (r[p].red ==> !r[s].red)
    && (r[p].red ==> In(r, r[p].parent) && !r[r[p].parent].red)
    && Above(r, c, top, lo, far, p, r[p].parent, if r[p].red then h + 1 else h + 2))
  }

  lemma {:induction false} SplitLeft(r: seq<Rec>, c: Ctx, top: int, lo: int, hi: int, i: int, p: int, h: int)
    requires 0 <= lo <= hi <= |r| && Short(r, c, top, lo, hi, i, p, h) && p == hi
    ensures In(r, p) && lo <= c.far <= |r| && ShortLeft(r, c.rest, top, lo, c.far, i, p, r[p].right, h)
  {
    Height(r, lo, hi, i, p, h);
  }

  /** Case 1: the sibling is red. It rotates above `p`, which gets a black sibling. */
  lemma {:induction false} RaiseLeft(r: seq<Rec>, r': seq<Rec>, c: Ctx, top: int, top': int, lo: int, far: int, i: int,
      p: int, s: int, h: int)
    requires 0 <= lo <= far <= |r| && ShortLeft(r, c, top, lo, far, i, p, s, h) && r[s].red
    requires TurnedLeft(r, r', s, p) && top' == if r[p].parent == NIL then s else top
    ensures |r'| == |r| && lo <= s && ShortLeft(r', Up(far, c), top', lo, s, i, p, r[s].left, h) && r'[p].red
  {
    var t := r[s].left;
    var q := r[p].parent;
    HoleLink(r, c, top, lo, far, p, q, h + 2);
    Height(r, lo, p, i, p, h);
    assert Sub(r, p + 1, s, t, s, h + 1) && Black(r, t);
    SubFrame(r, r', lo, p, i, p, h);
    SubMove(r, r', p + 1, s, t, s, p, h + 1);
    SubFrame(r, r', s + 1, far, r[s].right, s, h + 1);
    AboveSwap(r, r', c, top, top', lo, far, p, s, q, h + 2);
  }

  lemma {:induction false} PaintSub(r: seq<Rec>, r': seq<Rec>, lo: int, far: int, i: int, p: int, s: int, h: int)
    requires 0 <= lo <= far <= |r| && lo <= p < s < far && r[p].left == i && r[p].right == s
    requires Sub(r, lo, p, i, p, h) && Sub(r, p + 1, far, s, p, h + 1) && !r[s].red && Black(r, r[s].left)
    requires Black(r, r[s].right)
    requires r' == r[s := r[s].(red := true)][p := r[p].(red := false)]
    ensures Sub(r', lo, far, p, r[p].parent, h + 1)
  {
    SubFrame(r, r', lo, p, i, p, h);
    SubFrame(r, r', p + 1, s, r[s].left, s, h);
    SubFrame(r, r', s + 1, far, r[s].right, s, h);
  }

  /** Case 2: the sibling and both its children are black. It becomes red; then a red `p`
      becomes black and all is well, a black `p` is the root of a short subtree. */
  lemma {:induction false} PaintLeft(r: seq<Rec>, r': seq<Rec>, c: Ctx, top: int, lo: int, far: int, i: int, p: int,
      s: int, h: int)
    requires 0 <= lo <= far <= |r| && ShortLeft(r, c, top, lo, far, i, p, s, h) && !r[s].red
    requires Black(r, r[s].left) && Black(r, r[s].right)
    requires r' == r[s := r[s].(red := true)][p := r[p].(red := false)]
    ensures r[p].red || r[p].parent == NIL ==> Valid(r', top)
    ensures !r[p].red && r[p].parent != NIL ==> Short(r', c, top, lo, far, p, r[p].parent, h + 1)
  {
    PaintSub(r, r', lo, far, i, p, s, h);
    var k := if r[p].red then h + 1 else h + 2;
    AboveSwap(r, r', c, top, top, lo, far, p, p, r[p].parent, k);
    if r[p].red {
      Close(r', c, top, lo, far, p, r[p].parent, h + 1);
    }
  }

  /** Case 3: the sibling's left child `t` is red and its right child is black; `t` rotates
      above the sibling. */
  ghost predicate Leaned(r: seq<Rec>, r': seq<Rec>, p: int, s: int, t: int)
    requires In(r, p) && In(r, s) && In(r, t)
  {
    Relinked(r, r', NIL, NIL, NIL, {p, s, t, r[t].right})
    && r'[p] == r[p].(right := t) && r'[s] == r[s].(left := r[t].right) && r'[t] == r[t].(right := s)
    && (In(r, r[t].right) ==> r'[r[t].right] == r[r[t].right].(parent := s, red := false))
  }

  /** Case 4: the sibling `s` rotates above `p`, takes its colour, and both its children
      become black. */
  ghost predicate Swung(r: seq<Rec>, r': seq<Rec>, p: int, s: int, t1: int)
    requires In(r, p) && In(r, s) && In(r, t1)
  {
    Relinked(r, r', p, s, r[p].parent, {p, s, t1, r[s].left})
    && r'[p] == Rec(r[p].left, r[s].left, s, false) && r'[s] == Rec(p, r[s].right, r[p].parent, r[p].red)
    && r'[t1] == r[t1].(parent := s, red := false)
    && (In(r, r[s].left) ==> r'[r[s].left] == r[r[s].left].(parent := p))
  }

  /** The shape before case 4, whatever `p` and `s` say of each other. */
  ghost predicate Swingable(r: seq<Rec>, c: Ctx, top: int, lo: int, far: int, i: int, p: int, s: int, t1: int, h: int)
    requires 0 <= lo <= far <= |r|
  {
    true == (lo <= p < s < t1 < far && r[p].left == i && r[s].right == t1
    && Sub(r, lo, p, i, p, h) && Sub(r, p + 1, s, r[s].left, s, h) && Kids(r, s + 1, far, t1, h)
    && (r[p].red ==> In(r, r[p].parent) && !r[r[p].parent].red)
    && Above(r, c, top, lo, far, p, r[p].parent, if r[p].red then h + 1 else h + 2))
  }

  lemma {:induction false} SwingSub(r: seq<Rec>, r': seq<Rec>, lo: int, far: int, i: int, p: int, s: int, t1: int,
      h: int)
    requires 0 <= lo <= far <= |r| && lo <= p < s < t1 < far && r[p].left == i && r[s].right == t1
    requires Sub(r, lo, p, i, p, h) && Sub(r, p + 1, s, r[s].left, s, h) && Kids(r, s + 1, far, t1, h)
    requires r[p].parent == NIL || r[p].parent < lo || far <= r[p].parent < |r|
    requires Swung(r, r', p, s, t1)
    ensures Sub(r', lo, far, s, r[p].parent, if r[p].red then h + 1 else h + 2)
  {
    SubFrame(r, r', lo, p, i, p, h);
    SubMove(r, r', p + 1, s, r[s].left, s, p, h);
    Blacken(r, r', s + 1, far, t1, s, h);
  }

  lemma {:induction false} SwingLeft(r: seq<Rec>, r': seq<Rec>, c: Ctx, top: int, top': int, lo: int, far: int, i: int,
      p: int, s: int, t1: int, h: int)
    requires 0 <= lo <= far <= |r| && Swingable(r, c, top, lo, far, i, p, s, t1, h)
    requires Swung(r, r', p, s, t1) && top' == if r[p].parent == NIL then s else top
    ensures Valid(r', top')
  {
    var k := if r[p].red then h + 1 else h + 2;
    HoleLink(r, c, top, lo, far, p, r[p].parent, k);
    SwingSub(r, r', lo, far, i, p, s, t1, h);
    AboveSwap(r, r', c, top, top', lo, far, p, s, r[p].parent, k);
    Close(r', c, top', lo, far, s, r[p].parent, k);
  }

  /** A black sibling with a red right child is ready for case 4. */
  lemma {:induction false} ReadyLeft(r: seq<Rec>, c: Ctx, top: int, lo: int, far: int, i: int, p: int, s: int, h: int)
    requires 0 <= lo <= far <= |r| && ShortLeft(r, c, top, lo, far, i, p, s, h) && !r[s].red
    requires In(r, r[s].right) && r[r[s].right].red
    ensures Swingable(r, c, top, lo, far, i, p, s, r[s].right, h)
  {
    assert Sub(r, s + 1, far, r[s].right, s, h);
  }

  lemma {:induction false} LeanSub(r: seq<Rec>, r': seq<Rec>, lo: int, far: int, i: int, p: int, s: int, t: int, h: int)
    requires 0 <= lo <= far <= |r| && lo <= p < s < far && Sub(r, lo, p, i, p, h) && Sub(r, p + 1, far, s, p, h + 1)
    requires !r[s].red
    requires r[s].left == t && In(r, t) && r[t].red && Leaned(r, r', p, s, t)
    ensures |r'| == |r| && p < t < s && (In(r, r[t].right) ==> t < r[t].right < s)
    ensures Sub(r', lo, p, i, p, h) && Sub(r', p + 1, t, r[t].left, t, h) && Kids(r', t + 1, far, s, h)
  {
    assert Sub(r, p + 1, s, t, s, h);
    assert Sub(r, t + 1, s, r[t].right, t, h) && Black(r, r[t].right);
    SubFrame(r, r', lo, p, i, p, h);
    SubFrame(r, r', p + 1, t, r[t].left, t, h);
    SubMove(r, r', t + 1, s, r[t].right, t, s, h);
    SubFrame(r, r', s + 1, far, r[s].right, s, h);
  }

  /** After case 3 the tree is ready for case 4. */
  lemma {:induction false} LeanLeft(r: seq<Rec>, r': seq<Rec>, c: Ctx, top: int, lo: int, far: int, i: int, p: int,
      s: int, t: int, h: int)
    requires 0 <= lo <= far <= |r| && ShortLeft(r, c, top, lo, far, i, p, s, h) && !r[s].red
    requires r[s].left == t && In(r, t) && r[t].red && Black(r, r[s].right) && Leaned(r, r', p, s, t)
    ensures |r'| == |r| && Swingable(r', c, top, lo, far, i, p, t, s, h)
  {
    LeanSub(r, r', lo, far, i, p, s, t, h);
    AboveSwap(r, r', c, top, top, lo, far, p, p, r[p].parent, if r[p].red then h + 1 else h + 2);
  }

  // ---------------------------------------------------------------- the mirror image

  ghost predicate ShortRight(r: seq<Rec>, c: Ctx, top: int, far: int, hi: int, i: int, p: int, s: int, h: int)
    requires 0 <= far <= hi <= |r|
  {
    true == (far <= s < p < hi && r[p].right == i && r[p].left == s && r[s].parent == p
    && Sub(r, p + 1, hi, i, p, h) && Black(r, i)
    && Sub(r, far, p, s, p, h + 1) && (r[p].red ==> !r[s].red)
    && (r[p].red ==> In(r, r[p].parent) && !r[r[p].parent].red)
    && Above(r, c, top, far, hi, p, r[p].parent, if r[p].red then h + 1 else h + 2))
  }

  lemma {:induction false} SplitRight(r: seq<Rec>, c: Ctx, top: int, lo: int, hi: int, i: int, p: int, h: int)
    requires 0 <= lo <= hi <= |r| && Short(r, c, top, lo, hi, i, p, h) && p != hi
    ensures In(r, p) && 0 <= c.far <= hi && ShortRight(r, c.rest, top, c.far, hi, i, p, r[p].left, h)
  {
    Height(r, lo, hi, i, p, h);
  }

  lemma {:induction false} RaiseRight(r: seq<Rec>, r': seq<Rec>, c: Ctx, top: int, top': int, far: int, hi: int,
      i: int, p: int, s: int, h: int)
    requires 0 <= far <= hi <= |r| && ShortRight(r, c, top, far, hi, i, p, s, h) && r[s].red
    requires TurnedRight(r, r', s, p) && top' == if r[p].parent == NIL then s else top
    ensures |r'| == |r| && s + 1 <= hi && ShortRight(r', Up(far, c), top', s + 1, hi, i, p, r[s].right, h) && r'[p].red
  {
    var t := r[s].right;
    var q := r[p].parent;
    HoleLink(r, c, top, far, hi, p, q, h + 2);
    Height(r, p + 1, hi, i, p, h);
    assert Sub(r, s + 1, p, t, s, h + 1) && Black(r, t);
    SubFrame(r, r', p + 1, hi, i, p, h);
    SubMove(r, r', s + 1, p, t, s, p, h + 1);
    SubFrame(r, r', far, s, r[s].left, s, h + 1);
    AboveSwap(r, r', c, top, top', far, hi, p, s, q, h + 2);
  }

  lemma {:induction false} PaintSubRight(r: seq<Rec>, r': seq<Rec>, far: int, hi: int, i: int, p: int, s: int, h: int)
    requires 0 <= far <= hi <= |r| && far <= s < p < hi && r[p].right == i && r[p].left == s
    requires Sub(r, p + 1, hi, i, p, h) && Sub(r, far, p, s, p, h + 1) && !r[s].red && Black(r, r[s].left)
    requires Black(r, r[s].right)
    requires r' == r[s := r[s].(red := true)][p := r[p].(red := false)]
    ensures Sub(r', far, hi, p, r[p].parent, h + 1)
  {
    SubFrame(r, r', p + 1, hi, i, p, h);
    SubFrame(r, r', far, s, r[s].left, s, h);
    SubFrame(r, r', s + 1, p, r[s].right, s, h);
  }

  lemma {:induction false} PaintRight(r: seq<Rec>, r': seq<Rec>, c: Ctx, top: int, far: int, hi: int, i: int, p: int,
      s: int, h: int)
    requires 0 <= far <= hi <= |r| && ShortRight(r, c, top, far, hi, i, p, s, h) && !r[s].red
    requires Black(r, r[s].left) && Black(r, r[s].right)
    requires r' == r[s := r[s].(red := true)][p := r[p].(red := false)]
    ensures r[p].red || r[p].parent == NIL ==> Valid(r', top)
    ensures !r[p].red && r[p].parent != NIL ==> Short(r', c, top, far, hi, p, r[p].parent, h + 1)
  {
    PaintSubRight(r, r', far, hi, i, p, s, h);
    var k := if r[p].red then h + 1 else h + 2;
    AboveSwap(r, r', c, top, top, far, hi, p, p, r[p].parent, k);
    if r[p].red {
      Close(r', c, top, far, hi, p, r[p].parent, h + 1);
    }
  }

  ghost predicate LeanedRight(r: seq<Rec>, r': seq<Rec>, p: int, s: int, t: int)
    requires In(r, p) && In(r, s) && In(r, t)
  {
    Relinked(r, r', NIL, NIL, NIL, {p, s, t, r[t].left})
    && r'[p] == r[p].(left := t) && r'[s] == r[s].(right := r[t].left) && r'[t] == r[t].(left := s)
    && (In(r, r[t].left) ==> r'[r[t].left] == r[r[t].left].(parent := s, red := false))
  }

  ghost predicate SwungRight(r: seq<Rec>, r': seq<Rec>, p: int, s: int, t1: int)
    requires In(r, p) && In(r, s) && In(r, t1)
  {
    Relinked(r, r', p, s, r[p].parent, {p, s, t1, r[s].right})
    && r'[p] == Rec(r[s].right, r[p].right, s, false) && r'[s] == Rec(r[s].left, p, r[p].parent, r[p].red)
    && r'[t1] == r[t1].(parent := s, red := false)
    && (In(r, r[s].right) ==> r'[r[s].right] == r[r[s].right].(parent := p))
  }

  ghost predicate SwingableRight(r: seq<Rec>, c: Ctx, top: int, far: int, hi: int, i: int, p: int, s: int, t1: int,
      h: int)
    requires 0 <= far <= hi <= |r|
  {
    true == (far <= t1 < s < p < hi && r[p].right == i && r[s].left == t1
    && Sub(r, p + 1, hi, i, p, h) && Sub(r, s + 1, p, r[s].right, s, h) && Kids(r, far, s, t1, h)
    && (r[p].red ==> In(r, r[p].parent) && !r[r[p].parent].red)
    && Above(r, c, top, far, hi, p, r[p].parent, if r[p].red then h + 1 else h + 2))
  }

  lemma {:induction false} SwingSubRight(r: seq<Rec>, r': seq<Rec>, far: int, hi: int, i: int, p: int, s: int, t1: int,
      h: int)
    requires 0 <= far <= hi <= |r| && far <= t1 < s < p < hi && r[p].right == i && r[s].left == t1
    requires Sub(r, p + 1, hi, i, p, h) && Sub(r, s + 1, p, r[s].right, s, h) && Kids(r, far, s, t1, h)
    requires r[p].parent == NIL || r[p].parent < far || hi <= r[p].parent < |r|
    requires SwungRight(r, r', p, s, t1)
    ensures Sub(r', far, hi, s, r[p].parent, if r[p].red then h + 1 else h + 2)
  {
    SubFrame(r, r', p + 1, hi, i, p, h);
    SubMove(r, r', s + 1, p, r[s].right, s, p, h);
    Blacken(r, r', far, s, t1, s, h);
  }

  lemma {:induction false} SwingRight(r: seq<Rec>, r': seq<Rec>, c: Ctx, top: int, top': int, far: int, hi: int,
      i: int, p: int, s: int, t1: int, h: int)
    requires 0 <= far <= hi <= |r| && SwingableRight(r, c, top, far, hi, i, p, s, t1, h)
    requires SwungRight(r, r', p, s, t1) && top' == if r[p].parent == NIL then s else top
    ensures Valid(r', top')
  {
    var k := if r[p].red then h + 1 else h + 2;
    HoleLink(r, c, top, far, hi, p, r[p].parent, k);
    SwingSubRight(r, r', far, hi, i, p, s, t1, h);
    AboveSwap(r, r', c, top, top', far, hi, p, s, r[p].parent, k);
    Close(r', c, top', far, hi, s, r[p].parent, k);
  }

  lemma {:induction false} ReadyRight(r: seq<Rec>, c: Ctx, top: int, far: int, hi: int, i: int, p: int, s: int, h: int)
    requires 0 <= far <= hi <= |r| && ShortRight(r, c, top, far, hi, i, p, s, h) && !r[s].red
    requires In(r, r[s].left) && r[r[s].left].red
    ensures SwingableRight(r, c, top, far, hi, i, p, s, r[s].left, h)
  {
    assert Sub(r, far, s, r[s].left, s, h);
  }

  lemma {:induction false} LeanSubRight(r: seq<Rec>, r': seq<Rec>, far: int, hi: int, i: int, p: int, s: int, t: int,
      h: int)
    requires 0 <= far <= hi <= |r| && far <= s < p < hi && Sub(r, p + 1, hi, i, p, h) && Sub(r, far, p, s, p, h + 1)
    requires !r[s].red
    requires r[s].right == t && In(r, t) && r[t].red && LeanedRight(r, r', p, s, t)
    ensures |r'| == |r| && s < t < p && (In(r, r[t].left) ==> s < r[t].left < t)
    ensures Sub(r', p + 1, hi, i, p, h) && Sub(r', t + 1, p, r[t].right, t, h) && Kids(r', far, t, s, h)
  {
    assert Sub(r, s + 1, p, t, s, h);
    assert Sub(r, s + 1, t, r[t].left, t, h) && Black(r, r[t].left);
    SubFrame(r, r', p + 1, hi, i, p, h);
    SubFrame(r, r', t + 1, p, r[t].right, t, h);
    SubMove(r, r', s + 1, t, r[t].left, t, s, h);
    SubFrame(r, r', far, s, r[s].left, s, h);
  }

  lemma {:induction false} LeanRight(r: seq<Rec>, r': seq<Rec>, c: Ctx, top: int, far: int, hi: int, i: int, p: int,
      s: int, t: int, h: int)
    requires 0 <= far <= hi <= |r| && ShortRight(r, c, top, far, hi, i, p, s, h) && !r[s].red
    requires r[s].right == t && In(r, t) && r[t].red && Black(r, r[s].left) && LeanedRight(r, r', p, s, t)
    ensures |r'| == |r| && SwingableRight(r', c, top, far, hi, i, p, t, s, h)
  {
    LeanSubRight(r, r', far, hi, i, p, s, t, h);
    AboveSwap(r, r', c, top, top, far, hi, p, p, r[p].parent, if r[p].red then h + 1 else h + 2);
  }

  // ---------------------------------------------------------------- who is who

  /** What the rotations of `____rb_erase_color` need to know: nobody is two people. */
  ghost predicate SwingApart(r: seq<Rec>, p: int, s: int, t1: int, t2: int) {
    In(r, p) && In(r, s) && In(r, t1) && p != s && s != t1 && t1 != p && (t2 == NIL || (In(r, t2) && t2 !in {p, s, t1}))
    && (r[p].parent == NIL || (In(r, r[p].parent) && r[p].parent !in {p, s, t1, t2}))
  }

  lemma {:induction false} SwingLeftApart(r: seq<Rec>, c: Ctx, top: int, lo: int, far: int, i: int, p: int, s: int,
      t1: int, h: int)
    requires 0 <= lo <= far <= |r| && Swingable(r, c, top, lo, far, i, p, s, t1, h)
    ensures SwingApart(r, p, s, t1, r[s].left)
  {
    HoleLink(r, c, top, lo, far, p, r[p].parent, if r[p].red then h + 1 else h + 2);
  }

  lemma {:induction false} SwingRightApart(r: seq<Rec>, c: Ctx, top: int, far: int, hi: int, i: int, p: int, s: int,
      t1: int, h: int)
    requires 0 <= far <= hi <= |r| && SwingableRight(r, c, top, far, hi, i, p, s, t1, h)
    ensures SwingApart(r, p, s, t1, r[s].right)
  {
    HoleLink(r, c, top, far, hi, p, r[p].parent, if r[p].red then h + 1 else h + 2);
  }

  ghost predicate Siblings(r: seq<Rec>, p: int, s: int, t: int) {
    In(r, p) && In(r, s) && p != s && (t == NIL || (In(r, t) && t !in {p, s} && {r[t].left, r[t].right} !! {p, s, t}))
    && (r[p].parent == NIL || (In(r, r[p].parent) && r[p].parent !in {p, s, t}))
  }

  lemma {:induction false} SiblingsLeft(r: seq<Rec>, c: Ctx, top: int, lo: int, far: int, i: int, p: int, s: int,
      h: int)
    requires 0 <= lo <= far <= |r| && ShortLeft(r, c, top, lo, far, i, p, s, h)
    ensures Siblings(r, p, s, r[s].left) && !(r[p].red && r[s].red) && r[s].parent == p && r[p].right == s
    ensures r[s].red ==> In(r, r[s].left)
  {
    HoleLink(r, c, top, lo, far, p, r[p].parent, if r[p].red then h + 1 else h + 2);
    var k := if r[s].red then h + 1 else h;
    SubLinks(r, p + 1, s, r[s].left, s, k);
    Height(r, lo, p, i, p, h);
  }

  lemma {:induction false} SiblingsRight(r: seq<Rec>, c: Ctx, top: int, far: int, hi: int, i: int, p: int, s: int,
      h: int)
    requires 0 <= far <= hi <= |r| && ShortRight(r, c, top, far, hi, i, p, s, h)
    ensures Siblings(r, p, s, r[s].right) && !(r[p].red && r[s].red) && r[s].parent == p && r[p].left == s
    ensures r[s].red ==> In(r, r[s].right)
  {
    HoleLink(r, c, top, far, hi, p, r[p].parent, if r[p].red then h + 1 else h + 2);
    var k := if r[s].red then h + 1 else h;
    SubLinks(r, s + 1, p, r[s].right, s, k);
    Height(r, p + 1, hi, i, p, h);
  }

  /** The writes of case 4 up to the rotation proper. */
  ghost function SwungLinks(r: seq<Rec>, p: int, s: int, t1: int): seq<Rec>
    requires In(r, p) && In(r, s) && In(r, t1) && p != s
  {
    var t2 := r[s].left;
    var r1 := r[p := r[p].(right := t2)][s := r[s].(left := p)];
    var r2 := r1[t1 := r1[t1].(parent := s, red := false)];
    if In(r, t2) then r2[t2 := r2[t2].(parent := p)] else r2
  }

  lemma {:induction false} SwingWrites(r: seq<Rec>, r': seq<Rec>, p: int, s: int, t1: int)
    requires In(r, p) && In(r, s) && In(r, t1) && SwingApart(r, p, s, t1, r[s].left)
    requires r' == Promoted(SwungLinks(r, p, s, t1), p, s, false)
    ensures Swung(r, r', p, s, t1)
  {}

  ghost function SwungLinksRight(r: seq<Rec>, p: int, s: int, t1: int): seq<Rec>
    requires In(r, p) && In(r, s) && In(r, t1) && p != s
  {
    var t2 := r[s].right;
    var r1 := r[p := r[p].(left := t2)][s := r[s].(right := p)];
    var r2 := r1[t1 := r1[t1].(parent := s, red := false)];
    if In(r, t2) then r2[t2 := r2[t2].(parent := p)] else r2
  }

  lemma {:induction false} SwingWritesRight(r: seq<Rec>, r': seq<Rec>, p: int, s: int, t1: int)
    requires In(r, p) && In(r, s) && In(r, t1) && SwingApart(r, p, s, t1, r[s].right)
    requires r' == Promoted(SwungLinksRight(r, p, s, t1), p, s, false)
    ensures SwungRight(r, r', p, s, t1)
  {}

  /** `node != parent->rb_right` tells on which side the short subtree hangs. */
  lemma {:induction false} ShortSide(r: seq<Rec>, c: Ctx, top: int, lo: int, hi: int, i: int, p: int, h: int)
    requires 0 <= lo <= hi <= |r| && Short(r, c, top, lo, hi, i, p, h)
    ensures In(r, p) && 0 <= c.far <= |r| && (r[p].right != i <==> p == hi)
    ensures if p == hi then lo <= c.far && In(r, r[p].right) else c.far <= hi && In(r, r[p].left)
  {
    Height(r, lo, hi, i, p, h);
  }
}
