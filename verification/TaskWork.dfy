/** The protocol of `kernel/task_work.c`: any number of adders and cancellers and the one task
    that runs its works, as interleaved atomic steps. Each step is one access to shared memory;
    `pending`, `batch` and the three multisets are bookkeeping of what the list stands for. */
module TaskWork {

  type Work = nat
  type Thread = nat

  /** A pointer in the list: `NULL`, `&work_exited`, or a work. */
  datatype Ref = Null | Exited | At(work: Work)

  /** What `pprev` points to: `task->task_works` or the `next` of an element. */
  datatype Cell = Head | NextOf(elem: Ref)

  /** `task_work_add` of `w`: before reading the head, before writing `next`, before the cmpxchg. */
  datatype Adder = AddIdle | AddRead(w: Work) | AddLink(w: Work, head: Ref) | AddSwap(w: Work, head: Ref)

  /** `task_work_cancel_match`: waiting for the lock, before reading `*pprev`, before looking at
      the element, before the cmpxchg, before unlocking. */
  datatype Canceller =
    | CancelIdle
    | CancelLock
    | CancelRead(pprev: Cell)
    | CancelMatch(pprev: Cell, work: Ref)
    | CancelSwap(pprev: Cell, work: Ref, next: Ref)
    | CancelUnlock(result: Ref)

  /** `task_work_run`: before reading the head, before the cmpxchg, before taking the lock, before
      releasing it, before reading `next`, before calling the function. */
  datatype Runner =
    | RunIdle
    | RunRead
    | RunSwap(work: Ref, head: Ref)
    | RunLock(work: Ref)
    | RunUnlock(work: Ref)
    | RunNext(work: Ref)
    | RunCall(work: Ref, next: Ref)

  datatype Lock = Free | ByRunner | ByCanceller(t: Thread)

  datatype State = State(
    head: Ref,
    next: map<Work, Ref>,
    lock: Lock,
    exiting: bool,
    adders: map<Thread, Adder>,
    cancellers: map<Thread, Canceller>,
    runner: Runner,
    pending: seq<Work>,
    batch: seq<Work>,
    added: multiset<Work>,
    executed: multiset<Work>,
    cancelled: multiset<Work>)

  function NextRef(s: State, r: Ref): Ref {
    if r.At? && r.work in s.next then s.next[r.work] else Null
  }

  function Load(s: State, c: Cell): Ref {
    match c
    case Head => s.head
    case NextOf(r) => NextRef(s, r)
  }

  function AdderOf(s: State, t: Thread): Adder {
    if t in s.adders then s.adders[t] else AddIdle
  }

  function CancellerOf(s: State, t: Thread): Canceller {
    if t in s.cancellers then s.cancellers[t] else CancelIdle
  }

  function Remove(l: seq<Work>, w: Work): seq<Work> {
    if l == [] then [] else if l[0] == w then l[1..] else [l[0]] + Remove(l[1..], w)
  }

  // ---------------------------------------------------------------- the steps

  datatype Event =
    | AddStart(t: Thread, w: Work)
    | AddStep(t: Thread)
    | CancelStart(t: Thread)
    | CancelStep(t: Thread, match_: bool)
    | RunStart
    | RunStep
    | Exit

  /** A work that nobody owns but its user. */
  predicate Owned(s: State, w: Work) {
    w !in s.pending && w !in s.batch
    && forall t :: t in s.adders && !s.adders[t].AddIdle? ==> s.adders[t].w != w
  }

  /** When a step can be taken. A work may be added only by its owner, and `task_work_run` is not
      entered again after the sentinel. */
  predicate Can(s: State, e: Event) {
    match e
    case AddStart(t, w) => AdderOf(s, t).AddIdle? && Owned(s, w)
    case AddStep(t) => !AdderOf(s, t).AddIdle?
    case CancelStart(t) => CancellerOf(s, t).CancelIdle?
    case CancelStep(t, _) => !CancellerOf(s, t).CancelIdle? && (CancellerOf(s, t).CancelLock? ==> s.lock == Free)
    case RunStart => s.runner.RunIdle? && s.head != Exited
    case RunStep => !s.runner.RunIdle? && (s.runner.RunLock? ==> s.lock == Free)
    case Exit => true
  }

  function AddDo(s: State, t: Thread): State {
    match AdderOf(s, t)
    case AddIdle => s
    case AddRead(w) =>
      if s.head == Exited then s.(adders := s.adders[t := AddIdle])
      else s.(adders := s.adders[t := AddLink(w, s.head)])
    case AddLink(w, h) => s.(next := s.next[w := h], adders := s.adders[t := AddSwap(w, h)])
    case AddSwap(w, h) =>
      if s.head == h then
        s.(head := At(w), pending := [w] + s.pending, added := s.added + multiset{w}, adders := s.adders[t := AddIdle])
      else s.(adders := s.adders[t := AddRead(w)])
  }

  /** A successful cmpxchg of the canceller: `work` leaves the list, be it the sentinel. */
  function Unlink(s: State, t: Thread, pprev: Cell, work: Ref, next: Ref): State {
    var s1 := match pprev
      case Head => s.(head := next)
      case NextOf(At(x)) => s.(next := s.next[x := next])
      case NextOf(_) => s;
    var s2 := s1.(cancellers := s.cancellers[t := CancelUnlock(work)]);
    if work.At? then
      s2.(pending := Remove(s.pending, work.work), batch := Remove(s.batch, work.work),
          cancelled := s.cancelled + multiset{work.work})
    else s2
  }

  function CancelDo(s: State, t: Thread, match_: bool): State {
    match CancellerOf(s, t)
    case CancelIdle => s
    case CancelLock => s.(lock := ByCanceller(t), cancellers := s.cancellers[t := CancelRead(Head)])
    case CancelRead(p) =>
      if Load(s, p) == Null then s.(cancellers := s.cancellers[t := CancelUnlock(Null)])
      else s.(cancellers := s.cancellers[t := CancelMatch(p, Load(s, p))])
    case CancelMatch(p, w) =>
      if match_ then s.(cancellers := s.cancellers[t := CancelSwap(p, w, NextRef(s, w))])
      else s.(cancellers := s.cancellers[t := CancelRead(NextOf(w))])
    case CancelSwap(p, w, n) =>
      if Load(s, p) == w then Unlink(s, t, p, w, n)
      else s.(cancellers := s.cancellers[t := CancelRead(p)])
    case CancelUnlock(_) => s.(lock := Free, cancellers := s.cancellers[t := CancelIdle])
  }

  function RunDo(s: State): State {
    match s.runner
    case RunIdle => s
    case RunRead =>
      if s.head == Null && !s.exiting then s.(runner := RunIdle)
      else s.(runner := RunSwap(s.head, if s.head == Null then Exited else Null))
    case RunSwap(w, h) =>
      if s.head != w then s.(runner := RunRead)
      else if w == Null then s.(head := h, runner := RunIdle)
      else s.(head := h, batch := s.pending, pending := [], runner := RunLock(w))
    case RunLock(w) => s.(lock := ByRunner, runner := RunUnlock(w))
    case RunUnlock(w) => s.(lock := Free, runner := RunNext(w))
    case RunNext(w) => s.(runner := RunCall(w, NextRef(s, w)))
    case RunCall(w, n) =>
      s.(executed := if w.At? then s.executed + multiset{w.work} else s.executed,
         batch := if s.batch == [] then [] else s.batch[1..],
         runner := if n == Null then RunRead else RunNext(n))
  }

  function Do(s: State, e: Event): State {
    match e
    case AddStart(t, w) => s.(adders := s.adders[t := AddRead(w)])
    case AddStep(t) => AddDo(s, t)
    case CancelStart(t) =>
      // task_work_pending
      if s.head == Null then s else s.(cancellers := s.cancellers[t := CancelLock])
    case CancelStep(t, m) => CancelDo(s, t, m)
    case RunStart => s.(runner := RunRead)
    case RunStep => RunDo(s)
    case Exit => s.(exiting := true)
  }

  // ---------------------------------------------------------------- lists

  function NextIn(next: map<Work, Ref>, w: Work): Ref {
    if w in next then next[w] else Null
  }

  ghost predicate NoDup(l: seq<Work>) {
    forall i, j :: 0 <= i < j < |l| ==> l[i] != l[j]
  }

  /** What comes after element `i`. */
  function After(l: seq<Work>, i: int): Ref
    requires 0 <= i < |l|
  {
    if i + 1 < |l| then At(l[i + 1]) else Null
  }

  /** The elements of `l` follow one another, and the last one ends the list. */
  ghost predicate Linked(next: map<Work, Ref>, l: seq<Work>) {
    forall i :: 0 <= i < |l| ==> NextIn(next, l[i]) == After(l, i)
  }

  lemma {:induction false} RemoveNone(l: seq<Work>, w: Work)
    requires w !in l
    ensures Remove(l, w) == l
  {
    if l != [] {
      RemoveNone(l[1..], w);
    }
  }

  /** `Remove` takes out exactly the one occurrence. */
  lemma {:induction false} RemoveAt(l: seq<Work>, i: nat)
    requires NoDup(l) && i < |l|
    ensures Remove(l, l[i]) == l[..i] + l[i + 1..]
  {
    if i > 0 {
      assert l[1..][i - 1] == l[i];
      RemoveAt(l[1..], i - 1);
      assert l[..i] == [l[0]] + l[1..][..i - 1] && l[i + 1..] == l[1..][i..];
    }
  }

  lemma {:induction false} RemoveFacts(l: seq<Work>, w: Work)
    requires NoDup(l)
    ensures NoDup(Remove(l, w)) && w !in Remove(l, w) && (forall x :: x in Remove(l, w) ==> x in l)
  {
    if w in l {
      var i: nat :| i < |l| && l[i] == w;
      RemoveAt(l, i);
      var l' := l[..i] + l[i + 1..];
      forall k | 0 <= k < |l'|
        ensures l'[k] == l[if k < i then k else k + 1] && l'[k] in l && l'[k] != w
      {
      }
    } else {
      RemoveNone(l, w);
    }
  }

  lemma {:induction false} RemoveCount(l: seq<Work>, w: Work)
    ensures multiset(l) == multiset(Remove(l, w)) + (if w in l then multiset{w} else multiset{})
  {
    if l != [] {
      var rest := l[1..];
      assert l == [l[0]] + rest;
      if l[0] != w {
        RemoveCount(rest, w);
        assert multiset([l[0]] + Remove(rest, w)) == multiset{l[0]} + multiset(Remove(rest, w));
      }
    }
  }

  /** The element after `l[i]` taken out of the list. */
  lemma {:induction false} UnlinkAfter(next: map<Work, Ref>, l: seq<Work>, i: nat)
    requires NoDup(l) && Linked(next, l) && i + 1 < |l|
    ensures Linked(next[l[i] := NextIn(next, l[i + 1])], Remove(l, l[i + 1]))
  {
    RemoveAt(l, i + 1);
    var l', next' := l[..i + 1] + l[i + 2..], next[l[i] := NextIn(next, l[i + 1])];
    forall k | 0 <= k < |l'|
      ensures NextIn(next', l'[k]) == After(l', k)
    {
      if k < i {
        assert l'[k] == l[k] && l'[k + 1] == l[k + 1];
      } else if k == i {
        assert l'[k] == l[i] && (k + 1 < |l'| ==> l'[k + 1] == l[i + 2]);
      } else {
        assert l'[k] == l[k + 1] && (k + 1 < |l'| ==> l'[k + 1] == l[k + 2]);
      }
    }
  }

  /** The first element taken out. */
  lemma {:induction false} UnlinkFirst(next: map<Work, Ref>, l: seq<Work>)
    requires NoDup(l) && Linked(next, l) && l != []
    ensures Remove(l, l[0]) == l[1..] && Linked(next, l[1..])
  {
    forall k | 0 <= k < |l[1..]|
      ensures NextIn(next, l[1..][k]) == After(l[1..], k)
    {
      assert l[1..][k] == l[k + 1];
    }
  }

  lemma {:induction false} LinkedFrame(next: map<Work, Ref>, l: seq<Work>, w: Work, r: Ref)
    requires Linked(next, l) && w !in l
    ensures Linked(next[w := r], l)
  {}

  // ---------------------------------------------------------------- what every step keeps

  /** The shared list and the runner's private one. */
  ghost predicate Lists(s: State) {
    true == (Linked(s.next, s.pending) && Linked(s.next, s.batch)
    && NoDup(s.pending) && NoDup(s.batch) && (forall w :: w in s.pending ==> w !in s.batch)
    && (if s.pending == [] then !s.head.At? else s.head == At(s.pending[0])))
  }

  /** Where the runner is and what it holds. */
  ghost predicate RunnerOk(s: State) {
    true == ((s.head == Exited ==> s.runner.RunIdle?)
    && match s.runner
       case RunLock(w) => s.batch != [] && w == At(s.batch[0])
       case RunUnlock(w) => s.batch != [] && w == At(s.batch[0])
       case RunNext(w) => s.batch != [] && w == At(s.batch[0])
       case RunCall(w, n) => s.batch != [] && w == At(s.batch[0]) && n == NextRef(s, w)
       case RunSwap(w, h) => s.batch == [] && w != Exited && h == if w == Null then Exited else Null
       case _ => s.batch == [])
  }

  /** An adder's work is its own until the cmpxchg succeeds. */
  ghost predicate AdderOk(s: State, t: Thread, a: Adder) {
    match a
    case AddIdle => true
    case AddRead(w) => w !in s.pending && w !in s.batch
    case AddLink(w, h) => w !in s.pending && w !in s.batch && h != Exited
    case AddSwap(w, h) => w !in s.pending && w !in s.batch && h != Exited && NextIn(s.next, w) == h
  }

  ghost predicate AddersOk(s: State) {
    true == ((forall t :: t in s.adders ==> AdderOk(s, t, s.adders[t]))
    && forall t, u :: t in s.adders && u in s.adders && t != u && !s.adders[t].AddIdle? && !s.adders[u].AddIdle? ==>
        s.adders[t].w != s.adders[u].w)
  }

  predicate Inside(c: Canceller) {
    !c.CancelIdle? && !c.CancelLock?
  }

  /** A canceller may stand on a pending work, or on a detached one while the runner waits. */
  predicate Within(s: State, w: Work) {
    w in s.pending || (w in s.batch && s.runner.RunLock?)
  }

  predicate CellOk(s: State, p: Cell) {
    p.NextOf? && p.elem.At? ==> Within(s, p.elem.work)
  }

  /** What a canceller has read from its cell. */
  predicate StandsOn(s: State, p: Cell, w: Ref) {
    CellOk(s, p) && w != Null && (w.At? ==> Within(s, w.work)) && (w == Exited ==> p == Head)
        && (p.NextOf? ==> Load(s, p) == w)
  }

  ghost predicate CancellerOk(s: State, c: Canceller) {
    match c
    case CancelRead(p) => CellOk(s, p)
    case CancelMatch(p, w) => StandsOn(s, p, w)
    case CancelSwap(p, w, n) => StandsOn(s, p, w) && n == NextRef(s, w)
    case _ => true
  }

  ghost predicate CancellersOk(s: State) {
    true == ((forall t :: t in s.cancellers ==> CancellerOk(s, s.cancellers[t]))
    && (forall t :: t in s.cancellers && Inside(s.cancellers[t]) ==> s.lock == ByCanceller(t))
    && (s.runner.RunUnlock? ==> s.lock == ByRunner))
  }

  /** Every successful add is accounted for exactly once. */
  ghost predicate Accounted(s: State) {
    s.added == s.executed + s.cancelled + multiset(s.pending) + multiset(s.batch)
  }

  ghost predicate Inv(s: State) {
    true == (Lists(s) && RunnerOk(s) && AddersOk(s) && CancellersOk(s) && Accounted(s))
  }

  predicate Init(s: State) {
    s.head == Null && s.lock == Free && s.adders == map[] && s.cancellers == map[] && s.runner == RunIdle
    && s.pending == [] && s.batch == [] && s.added == s.executed == s.cancelled == multiset{}
  }

  lemma {:induction false} InitInv(s: State)
    requires Init(s)
    ensures Inv(s)
  {}

  // ------------------------------------------------ an adder's steps

  /** A change to the record of one adder alone. */
  lemma {:induction false} AdderMoves(s: State, t: Thread, a: Adder)
    requires Inv(s) && AdderOk(s, t, a)
    requires !a.AddIdle? ==> forall u :: u in s.adders && u != t && !s.adders[u].AddIdle? ==> s.adders[u].w != a.w
    ensures Inv(s.(adders := s.adders[t := a]))
  {
    var s' := s.(adders := s.adders[t := a]);
    assert AddersOk(s') by {
      forall u | u in s'.adders
        ensures AdderOk(s', u, s'.adders[u])
      {
        assert u != t ==> AdderOk(s, u, s.adders[u]);
      }
    }
    assert CancellersOk(s') by {
      forall u | u in s'.cancellers
        ensures CancellerOk(s', s'.cancellers[u])
      {
        assert CancellerOk(s, s.cancellers[u]);
      }
    }
  }

  /** `work->next = head` on a work that is in neither list. */
  lemma {:induction false} PrivateWrite(s: State, t: Thread, w: Work, h: Ref)
    requires Inv(s) && t in s.adders && s.adders[t] == AddLink(w, h)
    ensures Inv(s.(next := s.next[w := h]))
  {
    var s' := s.(next := s.next[w := h]);
    assert AdderOk(s, t, s.adders[t]);
    LinkedFrame(s.next, s.pending, w, h);
    LinkedFrame(s.next, s.batch, w, h);
    assert AddersOk(s') by {
      forall u | u in s'.adders
        ensures AdderOk(s', u, s'.adders[u])
      {
        assert AdderOk(s, u, s.adders[u]);
      }
    }
    assert CancellersOk(s') by {
      forall u | u in s'.cancellers
        ensures CancellerOk(s', s'.cancellers[u])
      {
        assert CancellerOk(s, s.cancellers[u]);
      }
    }
  }

  lemma {:induction false} PushLists(s: State, w: Work)
    requires Lists(s) && w !in s.pending && w !in s.batch && s.head != Exited && NextIn(s.next, w) == s.head
    ensures Lists(s.(head := At(w), pending := [w] + s.pending))
  {
    var l := [w] + s.pending;
    forall i | 0 <= i < |l|
      ensures NextIn(s.next, l[i]) == After(l, i)
    {
      if i > 0 {
        assert l[i] == s.pending[i - 1];
      }
    }
  }

  lemma {:induction false} PushAdders(s: State, s': State, t: Thread, w: Work)
    requires AddersOk(s) && t in s.adders && s.adders[t] == AddSwap(w, s.head)
    requires s'.next == s.next && s'.pending == [w] + s.pending && s'.batch == s.batch
    requires s'.adders == s.adders[t := AddIdle]
    ensures AddersOk(s')
  {
    forall u | u in s'.adders
      ensures AdderOk(s', u, s'.adders[u])
    {
      if u != t && !s.adders[u].AddIdle? {
        assert AdderOk(s, u, s.adders[u]) && s.adders[u].w != w;
      }
    }
  }

  /** Cancellers do not mind a longer list. */
  lemma {:induction false} CancellersFrame(s: State, s': State)
    requires CancellersOk(s) && s'.next == s.next && s'.cancellers == s.cancellers && s'.lock == s.lock
    requires s'.runner == s.runner && s'.batch == s.batch
    requires forall w :: w in s.pending ==> w in s'.pending
    ensures CancellersOk(s')
  {
    forall u | u in s'.cancellers
      ensures CancellerOk(s', s'.cancellers[u])
    {
      assert CancellerOk(s, s.cancellers[u]);
    }
  }

  /** The cmpxchg of an adder succeeds. */
  lemma {:induction false} Push(s: State, t: Thread, w: Work)
    requires Inv(s) && t in s.adders && s.adders[t] == AddSwap(w, s.head)
    ensures Inv(s.(head := At(w), pending := [w] + s.pending, added := s.added + multiset{w},
        adders := s.adders[t := AddIdle]))
  {
    assert AdderOk(s, t, s.adders[t]);
    PushLists(s, w);
    var s' := s.(head := At(w), pending := [w] + s.pending, added := s.added + multiset{w},
        adders := s.adders[t := AddIdle]);
    PushAdders(s, s', t, w);
    CancellersFrame(s, s');
    assert Lists(s') && RunnerOk(s');
  }

  lemma {:induction false} AddKeeps(s: State, t: Thread)
    requires Inv(s) && Can(s, AddStep(t))
    ensures Inv(AddDo(s, t))
  {
    assert AdderOk(s, t, s.adders[t]);
    match s.adders[t] {
      case AddRead(w) =>
        AdderMoves(s, t, if s.head == Exited then AddIdle else AddLink(w, s.head));
      case AddLink(w, h) =>
        PrivateWrite(s, t, w, h);
        AdderMoves(s.(next := s.next[w := h]), t, AddSwap(w, h));
      case AddSwap(w, h) =>
        if s.head == h {
          Push(s, t, w);
        } else {
          AdderMoves(s, t, AddRead(w));
        }
    }
  }

  // ------------------------------------------------ a canceller's steps

  /** A change to the record of one canceller that already holds the lock. */
  lemma {:induction false} CancellerMoves(s: State, t: Thread, c: Canceller)
    requires Inv(s) && CancellerOk(s, c) && (Inside(c) ==> s.lock == ByCanceller(t))
    ensures Inv(s.(cancellers := s.cancellers[t := c]))
  {
    var s' := s.(cancellers := s.cancellers[t := c]);
    assert CancellersOk(s') by {
      forall u | u in s'.cancellers
        ensures CancellerOk(s', s'.cancellers[u])
      {
        assert u != t ==> CancellerOk(s, s.cancellers[u]);
      }
    }
    assert AddersOk(s') by {
      forall u | u in s'.adders
        ensures AdderOk(s', u, s'.adders[u])
      {
        assert AdderOk(s, u, s.adders[u]);
      }
    }
  }

  /** Taking and giving back the lock. */
  lemma {:induction false} CancelLocks(s: State, t: Thread)
    requires Inv(s) && t in s.cancellers
    ensures s.cancellers[t].CancelLock? && s.lock == Free ==>
      Inv(s.(lock := ByCanceller(t), cancellers := s.cancellers[t := CancelRead(Head)]))
    ensures s.cancellers[t].CancelUnlock? ==> Inv(s.(lock := Free, cancellers := s.cancellers[t := CancelIdle]))
  {
    var s1 := s.(lock := ByCanceller(t), cancellers := s.cancellers[t := CancelRead(Head)]);
    var s2 := s.(lock := Free, cancellers := s.cancellers[t := CancelIdle]);
    assert Lists(s1) && Lists(s2) && RunnerOk(s1) && RunnerOk(s2);
    forall u | u in s.adders
      ensures AdderOk(s1, u, s.adders[u]) && AdderOk(s2, u, s.adders[u])
    {
      assert AdderOk(s, u, s.adders[u]);
    }
    forall u | u in s.cancellers && u != t
      ensures CancellerOk(s1, s.cancellers[u]) && CancellerOk(s2, s.cancellers[u])
    {
      assert CancellerOk(s, s.cancellers[u]);
    }
  }

  /** What a canceller reads from its cell is an element of the list it stands on. */
  lemma {:induction false} ReadWithin(s: State, p: Cell)
    requires Lists(s) && CellOk(s, p) && Load(s, p) != Null
    ensures StandsOn(s, p, Load(s, p))
  {
    if p.NextOf? {
      var l := if p.elem.work in s.pending then s.pending else s.batch;
      var i :| 0 <= i < |l| && l[i] == p.elem.work;
      assert NextIn(s.next, l[i]) == After(l, i);
    }
  }

  lemma {:induction false} CancelKeepsEasy(s: State, t: Thread, m: bool)
    requires Inv(s) && Can(s, CancelStep(t, m))
    requires !(s.cancellers[t].CancelSwap? && Load(s, s.cancellers[t].pprev) == s.cancellers[t].work)
    ensures Inv(CancelDo(s, t, m))
  {
    assert CancellerOk(s, s.cancellers[t]);
    match s.cancellers[t] {
      case CancelLock => CancelLocks(s, t);
      case CancelUnlock(_) => CancelLocks(s, t);
      case CancelRead(p) =>
        if Load(s, p) != Null {
          ReadWithin(s, p);
        }
        CancellerMoves(s, t, if Load(s, p) == Null then CancelUnlock(Null) else CancelMatch(p, Load(s, p)));
      case CancelMatch(p, w) =>
        CancellerMoves(s, t, if m then CancelSwap(p, w, NextRef(s, w)) else CancelRead(NextOf(w)));
      case CancelSwap(p, w, n) =>
        CancellerMoves(s, t, CancelRead(p));
    }
  }

  /** Adders do not mind shorter lists, nor writes to the elements of the lists. */
  lemma {:induction false} AddersFrame(s: State, s': State)
    requires AddersOk(s) && s'.adders == s.adders
    requires forall w :: w !in s.pending && w !in s.batch ==>
        w !in s'.pending && w !in s'.batch && NextIn(s'.next, w) == NextIn(s.next, w)
    ensures AddersOk(s')
  {
    forall u | u in s'.adders
      ensures AdderOk(s', u, s'.adders[u])
    {
      assert AdderOk(s, u, s.adders[u]);
    }
  }

  lemma {:induction false} UnlinkAdders(s: State, t: Thread, p: Cell, r: Ref, n: Ref)
    requires Lists(s) && AddersOk(s) && CellOk(s, p)
    ensures AddersOk(Unlink(s, t, p, r, n))
  {
    if r.At? {
      RemoveFacts(s.pending, r.work);
      RemoveFacts(s.batch, r.work);
    }
    AddersFrame(s, Unlink(s, t, p, r, n));
  }

  /** The one canceller inside is done with its walk; the others are outside. */
  lemma {:induction false} UnlinkCancellers(s: State, t: Thread, p: Cell, r: Ref, n: Ref)
    requires CancellersOk(s) && t in s.cancellers && s.cancellers[t] == CancelSwap(p, r, n)
    ensures CancellersOk(Unlink(s, t, p, r, n))
  {
    var s' := Unlink(s, t, p, r, n);
    forall u | u in s'.cancellers && u != t
      ensures CancellerOk(s', s'.cancellers[u])
    {
      assert !Inside(s.cancellers[u]);
    }
  }

  /** A work is in one of the two lists only, and taken out of that one. */
  lemma {:induction false} RemoveBoth(p: seq<Work>, b: seq<Work>, y: Work)
    requires (y in p && y !in b) || (y in b && y !in p)
    ensures multiset(p) + multiset(b) == multiset(Remove(p, y)) + multiset(Remove(b, y)) + multiset{y}
  {
    RemoveCount(p, y);
    RemoveCount(b, y);
  }

  lemma {:induction false} UnlinkCount(s: State, t: Thread, p: Cell, y: Work, n: Ref)
    requires Lists(s) && Accounted(s) && Within(s, y)
    ensures Accounted(Unlink(s, t, p, At(y), n))
  {
    var s' := Unlink(s, t, p, At(y), n);
    assert s'.pending == Remove(s.pending, y) && s'.batch == Remove(s.batch, y);
    assert s'.added == s.added && s'.executed == s.executed && s'.cancelled == s.cancelled + multiset{y};
    RemoveBoth(s.pending, s.batch, y);
    Regroup(s.added, s.executed, s.cancelled, multiset(s.pending) + multiset(s.batch),
        multiset(s'.pending), multiset(s'.batch), y);
  }

  lemma {:induction false} Regroup(all: multiset<Work>, e: multiset<Work>, c: multiset<Work>, lists: multiset<Work>,
      p': multiset<Work>, b': multiset<Work>, y: Work)
    requires all == e + c + lists && lists == p' + b' + multiset{y}
    ensures all == e + (c + multiset{y}) + p' + b'
  {}

  lemma {:induction false} UnlinkHead(s: State, t: Thread, y: Work, n: Ref)
    requires Lists(s) && RunnerOk(s) && s.head == At(y) && n == NextRef(s, At(y))
    ensures Lists(Unlink(s, t, Head, At(y), n)) && RunnerOk(Unlink(s, t, Head, At(y), n))
  {
    UnlinkFirst(s.next, s.pending);
    RemoveNone(s.batch, y);
    assert NextIn(s.next, s.pending[0]) == After(s.pending, 0);
  }

  lemma {:induction false} PendingLess(next: map<Work, Ref>, l: seq<Work>, batch: seq<Work>, x: Work, y: Work)
    requires Linked(next, l) && Linked(next, batch) && NoDup(l) && (forall w :: w in l ==> w !in batch)
    requires x in l && NextIn(next, x) == At(y)
    ensures Linked(next[x := NextIn(next, y)], Remove(l, y)) && Linked(next[x := NextIn(next, y)], batch)
    ensures NoDup(Remove(l, y)) && (forall w :: w in Remove(l, y) ==> w in l) && Remove(batch, y) == batch
    ensures Remove(l, y) != [] && Remove(l, y)[0] == l[0]
  {
    var i :| 0 <= i < |l| && l[i] == x;
    assert NextIn(next, l[i]) == After(l, i);
    UnlinkAfter(next, l, i);
    RemoveAt(l, i + 1);
    RemoveNone(batch, y);
    LinkedFrame(next, batch, x, NextIn(next, y));
    RemoveFacts(l, y);
  }

  lemma {:induction false} UnlinkPending(s: State, t: Thread, x: Work, y: Work, n: Ref)
    requires Lists(s) && RunnerOk(s) && x in s.pending && NextIn(s.next, x) == At(y) && n == NextRef(s, At(y))
    ensures Lists(Unlink(s, t, NextOf(At(x)), At(y), n)) && RunnerOk(Unlink(s, t, NextOf(At(x)), At(y), n))
  {
    PendingLess(s.next, s.pending, s.batch, x, y);
    RunnerFrame(s, Unlink(s, t, NextOf(At(x)), At(y), n), x);
  }

  /** The runner does not see a change of a pending work's link. */
  lemma {:induction false} RunnerFrame(s: State, s': State, x: Work)
    requires RunnerOk(s) && s'.runner == s.runner && s'.batch == s.batch && s'.head == s.head && x !in s.batch
    requires forall w :: w != x ==> NextIn(s'.next, w) == NextIn(s.next, w)
    ensures RunnerOk(s')
  {
    if s.runner.RunCall? {
      assert NextIn(s'.next, s.batch[0]) == NextIn(s.next, s.batch[0]);
    }
  }

  lemma {:induction false} UnlinkBatch(s: State, t: Thread, x: Work, y: Work, n: Ref)
    requires Lists(s) && RunnerOk(s) && s.runner.RunLock? && x in s.batch && NextIn(s.next, x) == At(y)
    requires n == NextRef(s, At(y))
    ensures Lists(Unlink(s, t, NextOf(At(x)), At(y), n)) && RunnerOk(Unlink(s, t, NextOf(At(x)), At(y), n))
  {
    var i :| 0 <= i < |s.batch| && s.batch[i] == x;
    assert NextIn(s.next, s.batch[i]) == After(s.batch, i);
    UnlinkAfter(s.next, s.batch, i);
    RemoveAt(s.batch, i + 1);
    RemoveNone(s.pending, y);
    LinkedFrame(s.next, s.pending, x, n);
    RemoveFacts(s.batch, y);
  }

  /** The sentinel taken off the list: nothing waits, and the list is open again. */
  lemma {:induction false} UnlinkSentinel(s: State, t: Thread)
    requires Inv(s) && t in s.cancellers && s.cancellers[t] == CancelSwap(Head, Exited, Null) && s.head == Exited
    ensures Inv(Unlink(s, t, Head, Exited, Null))
  {
    UnlinkAdders(s, t, Head, Exited, Null);
    UnlinkCancellers(s, t, Head, Exited, Null);
    assert Lists(Unlink(s, t, Head, Exited, Null)) && RunnerOk(Unlink(s, t, Head, Exited, Null));
  }

  lemma {:induction false} UnlinkWork(s: State, t: Thread, p: Cell, y: Work, n: Ref)
    requires Inv(s) && t in s.cancellers && s.cancellers[t] == CancelSwap(p, At(y), n) && Load(s, p) == At(y)
    ensures Inv(Unlink(s, t, p, At(y), n))
  {
    assert CancellerOk(s, s.cancellers[t]);
    UnlinkAdders(s, t, p, At(y), n);
    UnlinkCancellers(s, t, p, At(y), n);
    UnlinkCount(s, t, p, y, n);
    if p.Head? {
      UnlinkHead(s, t, y, n);
    } else if p.elem.work in s.pending {
      UnlinkPending(s, t, p.elem.work, y, n);
    } else {
      UnlinkBatch(s, t, p.elem.work, y, n);
    }
  }

  lemma {:induction false} CancelKeeps(s: State, t: Thread, m: bool)
    requires Inv(s) && Can(s, CancelStep(t, m))
    ensures Inv(CancelDo(s, t, m))
  {
    var c := s.cancellers[t];
    assert CancellerOk(s, c);
    if c.CancelSwap? && Load(s, c.pprev) == c.work {
      if c.work.At? {
        UnlinkWork(s, t, c.pprev, c.work.work, c.next);
      } else {
        UnlinkSentinel(s, t);
      }
    } else {
      CancelKeepsEasy(s, t, m);
    }
  }

  // ------------------------------------------------ the runner's steps

  /** A change to the runner's own state while no canceller stands on the batch. */
  lemma {:induction false} RunnerMoves(s: State, r: Runner)
    requires Inv(s) && RunnerOk(s.(runner := r)) && !s.runner.RunLock? && !r.RunUnlock?
    ensures Inv(s.(runner := r))
  {
    var s' := s.(runner := r);
    AddersFrame(s, s');
    forall u | u in s'.cancellers
      ensures CancellerOk(s', s'.cancellers[u])
    {
      assert CancellerOk(s, s.cancellers[u]);
    }
  }

  /** The cmpxchg of the runner takes the whole list. */
  lemma {:induction false} Detach(s: State)
    requires Inv(s) && s.runner.RunSwap? && s.head == s.runner.work && s.head.At?
    ensures Inv(RunDo(s))
  {
    var s' := RunDo(s);
    AddersFrame(s, s');
    forall u | u in s'.cancellers
      ensures CancellerOk(s', s'.cancellers[u])
    {
      assert CancellerOk(s, s.cancellers[u]);
    }
    assert Lists(s') && RunnerOk(s') && CancellersOk(s');
    assert multiset(s.pending) + multiset(s.batch) == multiset(s'.pending) + multiset(s'.batch);
  }

  /** Once the runner has had the lock, no canceller is left on the batch. */
  lemma {:induction false} RunLocks(s: State)
    requires Inv(s)
    ensures s.runner.RunLock? && s.lock == Free ==> Inv(RunDo(s))
    ensures s.runner.RunUnlock? ==> Inv(RunDo(s))
  {
    if (s.runner.RunLock? && s.lock == Free) || s.runner.RunUnlock? {
      var s' := RunDo(s);
      AddersFrame(s, s');
      forall u | u in s'.cancellers
        ensures CancellerOk(s', s'.cancellers[u]) && !Inside(s'.cancellers[u])
      {
        assert CancellerOk(s, s.cancellers[u]);
      }
      assert Lists(s') && RunnerOk(s') && CancellersOk(s');
    }
  }

  lemma {:induction false} CallLists(s: State)
    requires Lists(s) && RunnerOk(s) && s.runner.RunCall?
    ensures Lists(RunDo(s)) && RunnerOk(RunDo(s))
  {
    UnlinkFirst(s.next, s.batch);
    assert NextIn(s.next, s.batch[0]) == After(s.batch, 0);
  }

  lemma {:induction false} CallCount(s: State)
    requires Accounted(s) && s.runner.RunCall? && s.batch != [] && s.runner.work == At(s.batch[0])
    ensures Accounted(RunDo(s))
  {
    assert s.batch == [s.batch[0]] + s.batch[1..];
    Regroup(s.added, s.cancelled, s.executed, multiset(s.pending) + multiset(s.batch), multiset(s.pending),
        multiset(s.batch[1..]), s.batch[0]);
  }

  lemma {:induction false} CallOthers(s: State, s': State)
    requires AddersOk(s) && CancellersOk(s) && s.runner.RunCall? && s' == RunDo(s)
    ensures AddersOk(s') && CancellersOk(s')
  {
    forall w | w in s'.batch
      ensures w in s.batch
    {
    }
    AddersFrame(s, s');
    forall u | u in s'.cancellers
      ensures CancellerOk(s', s'.cancellers[u])
    {
      assert CancellerOk(s, s.cancellers[u]);
    }
  }

  /** The function of the first work of the batch is called. */
  lemma {:induction false} Call(s: State)
    requires Inv(s) && s.runner.RunCall?
    ensures Inv(RunDo(s))
  {
    CallLists(s);
    CallCount(s);
    CallOthers(s, RunDo(s));
  }

  lemma {:induction false} RunKeeps(s: State)
    requires Inv(s) && Can(s, RunStep)
    ensures Inv(RunDo(s))
  {
    match s.runner {
      case RunRead =>
        RunnerMoves(s, RunDo(s).runner);
      case RunSwap(w, h) =>
        if s.head != w {
          RunnerMoves(s, RunRead);
        } else if w == Null {
          Sentinel(s);
        } else {
          Detach(s);
        }
      case RunLock(_) => RunLocks(s);
      case RunUnlock(_) => RunLocks(s);
      case RunNext(w) =>
        RunnerMoves(s, RunCall(w, NextRef(s, w)));
      case RunCall(_, _) => Call(s);
    }
  }

  /** The cmpxchg of an exiting runner replaces the empty list by the sentinel. */
  lemma {:induction false} Sentinel(s: State)
    requires Inv(s) && s.runner == RunSwap(Null, Exited) && s.head == Null
    ensures Inv(RunDo(s))
  {
    var s' := RunDo(s);
    AddersFrame(s, s');
    forall u | u in s'.cancellers
      ensures CancellerOk(s', s'.cancellers[u])
    {
      assert CancellerOk(s, s.cancellers[u]);
    }
    assert Lists(s') && RunnerOk(s') && CancellersOk(s');
  }

  // ---------------------------------------------------------------- whole runs

  /** Every step of every thread keeps the invariant. */
  lemma {:induction false} StepKeeps(s: State, e: Event)
    requires Inv(s) && Can(s, e)
    ensures Inv(Do(s, e))
  {
    match e {
      case AddStart(t, w) => AdderMoves(s, t, AddRead(w));
      case AddStep(t) => AddKeeps(s, t);
      case CancelStart(t) =>
        if s.head != Null {
          CancellerMoves(s, t, CancelLock);
        }
      case CancelStep(t, m) => CancelKeeps(s, t, m);
      case RunStart => RunnerMoves(s, RunRead);
      case RunStep => RunKeeps(s);
      case Exit => ExitKeeps(s);
    }
  }

  lemma {:induction false} ExitKeeps(s: State)
    requires Inv(s)
    ensures Inv(s.(exiting := true))
  {
    var s' := s.(exiting := true);
    AddersFrame(s, s');
    CancellersFrame(s, s');
    assert Lists(s') && RunnerOk(s');
  }

  /** The events can be taken one after the other from `s`. */
  ghost predicate Run(s: State, es: seq<Event>)
    decreases |es|
  {
    es == [] || (Can(s, es[0]) && Run(Do(s, es[0]), es[1..]))
  }

  function End(s: State, es: seq<Event>): State
    decreases |es|
  {
    if es == [] then s else End(Do(s, es[0]), es[1..])
  }

  lemma {:induction false} RunKeepsInv(s: State, es: seq<Event>)
    requires Inv(s) && Run(s, es)
    ensures Inv(End(s, es))
    decreases |es|
  {
    if es != [] {
      StepKeeps(s, es[0]);
      RunKeepsInv(Do(s, es[0]), es[1..]);
    }
  }

  /** In every run, every work successfully added is executed once, or returned by one cancel, or
      still waiting in one of the two lists; as often as it was added. */
  lemma {:induction false} ExactlyOnce(s: State, es: seq<Event>)
    requires Init(s) && Run(s, es)
    ensures var e := End(s, es);
      e.added == e.executed + e.cancelled + multiset(e.pending) + multiset(e.batch)
      && NoDup(e.pending) && NoDup(e.batch) && (forall w :: w in e.pending ==> w !in e.batch)
  {
    InitInv(s);
    RunKeepsInv(s, es);
  }

  // ---------------------------------------------------------------- after the sentinel

  /** A canceller whose cmpxchg is about to take the sentinel off. */
  predicate Taking(c: Canceller) {
    c.CancelSwap? && c.work == Exited
  }

  /** With the sentinel in place no step adds a work, and only such a cmpxchg removes the sentinel. */
  lemma {:induction false} ClosedStep(s: State, e: Event)
    requires Inv(s) && s.head == Exited && Can(s, e)
    ensures Do(s, e).added == s.added
    ensures Do(s, e).head != Exited <==> e.CancelStep? && Taking(CancellerOf(s, e.t))
  {
    match e {
      case AddStep(t) => assert AdderOk(s, t, s.adders[t]);
      case CancelStep(t, _) => assert CancellerOk(s, s.cancellers[t]);
      case _ =>
    }
  }

  /** `match` does not accept the sentinel, should this step show it to it. */
  predicate Refuses(s: State, e: Event) {
    e.CancelStep? && CancellerOf(s, e.t).CancelMatch? && CancellerOf(s, e.t).work == Exited ==> !e.match_
  }

  /** A run in which no matcher accepts the sentinel. */
  ghost predicate RefusingRun(s: State, es: seq<Event>)
    decreases |es|
  {
    es == [] || (Can(s, es[0]) && Refuses(s, es[0]) && RefusingRun(Do(s, es[0]), es[1..]))
  }

  ghost predicate NoneTaking(s: State) {
    forall t :: t in s.cancellers ==> !Taking(s.cancellers[t])
  }

  /** Where the step of a canceller takes it. */
  lemma {:induction false} CancellerAfter(s: State, t: Thread, m: bool) returns (c: Canceller)
    requires t in s.cancellers && !s.cancellers[t].CancelIdle?
    ensures CancelDo(s, t, m).cancellers == s.cancellers[t := c]
    ensures Taking(c) ==> s.cancellers[t].CancelMatch? && s.cancellers[t].work == Exited && m
  {
    match s.cancellers[t] {
      case CancelSwap(p, w, n) =>
        c := if Load(s, p) == w then CancelUnlock(w) else CancelRead(p);
        UnlinkMoves(s, t, p, w, n);
      case CancelMatch(p, w) => c := if m then CancelSwap(p, w, NextRef(s, w)) else CancelRead(NextOf(w));
      case CancelRead(p) => c := if Load(s, p) == Null then CancelUnlock(Null) else CancelMatch(p, Load(s, p));
      case CancelLock => c := CancelRead(Head);
      case CancelUnlock(_) => c := CancelIdle;
    }
  }

  lemma {:induction false} UnlinkMoves(s: State, t: Thread, p: Cell, w: Ref, n: Ref)
    ensures Unlink(s, t, p, w, n).cancellers == s.cancellers[t := CancelUnlock(w)]
  {}

  lemma {:induction false} RefusingCancel(s: State, t: Thread, m: bool)
    requires NoneTaking(s) && Refuses(s, CancelStep(t, m))
    ensures NoneTaking(CancelDo(s, t, m))
  {
    if t in s.cancellers && !s.cancellers[t].CancelIdle? {
      var c := CancellerAfter(s, t, m);
    }
  }

  lemma {:induction false} RefusingStep(s: State, e: Event)
    requires NoneTaking(s) && Refuses(s, e)
    ensures NoneTaking(Do(s, e))
  {
    match e {
      case CancelStep(t, m) => RefusingCancel(s, t, m);
      case AddStep(t) => assert AddDo(s, t).cancellers == s.cancellers;
      case RunStep => assert RunDo(s).cancellers == s.cancellers;
      case _ =>
    }
  }

  lemma {:induction false} RefusingRuns(s: State, es: seq<Event>)
    requires NoneTaking(s) && RefusingRun(s, es)
    ensures Run(s, es) && NoneTaking(End(s, es))
    decreases |es|
  {
    if es != [] {
      RefusingStep(s, es[0]);
      RefusingRuns(Do(s, es[0]), es[1..]);
    }
  }

  /** As long as no matcher accepts the sentinel, it stays, nothing waits and nothing is added. */
  lemma {:induction false} ClosedForGood(s: State, es: seq<Event>)
    requires Inv(s) && s.head == Exited && NoneTaking(s) && RefusingRun(s, es)
    ensures var e := End(s, es);
      e.head == Exited && e.added == s.added && e.pending == [] && e.batch == [] && e.added == e.executed + e.cancelled
    decreases |es|
  {
    if es != [] {
      ClosedStep(s, es[0]);
      StepKeeps(s, es[0]);
      RefusingStep(s, es[0]);
      ClosedForGood(Do(s, es[0]), es[1..]);
    }
  }

  /** From the start: once a run has put the sentinel in place, whatever follows adds nothing, and all
      that was ever added has been executed or cancelled. */
  lemma {:induction false} ClosedAfterExit(s: State, es: seq<Event>, fs: seq<Event>)
    requires Init(s) && RefusingRun(s, es) && End(s, es).head == Exited && RefusingRun(End(s, es), fs)
    ensures var m, e := End(s, es), End(End(s, es), fs);
      e.head == Exited && e.added == m.added == e.executed + e.cancelled && e.pending == [] && e.batch == []
  {
    InitInv(s);
    RefusingRuns(s, es);
    RunKeepsInv(s, es);
    ClosedForGood(End(s, es), fs);
  }

  /** A matcher that accepts the sentinel gets it, as a cancelled work, and a work can be added again.
      `task_work_cancel(task, NULL)` has such a matcher. */
  lemma {:induction false} SentinelTaken(s: State, t: Thread, u: Thread, w: Work)
    requires Inv(s) && s.head == Exited && t in s.cancellers && s.cancellers[t] == CancelMatch(Head, Exited)
    requires AdderOf(s, u) == AddIdle && Owned(s, w)
    ensures var accepted := Do(s, CancelStep(t, true));
      var taken := Do(accepted, CancelStep(t, true));
      Can(s, CancelStep(t, true)) && Can(accepted, CancelStep(t, true)) && taken.head == Null
      && CancellerOf(taken, t) == CancelUnlock(Exited)
      && Can(taken, AddStart(u, w)) && Reopened(Do(taken, AddStart(u, w)), u, w)
  {
    var accepted := Do(s, CancelStep(t, true));
    assert accepted == s.(cancellers := s.cancellers[t := CancelSwap(Head, Exited, Null)]);
    var taken := Do(accepted, CancelStep(t, true));
    assert taken == accepted.(head := Null, cancellers := s.cancellers[t := CancelUnlock(Exited)]);
    Reopens(Do(taken, AddStart(u, w)), u, w);
  }

  lemma {:induction false} Reopens(s: State, u: Thread, w: Work)
    requires AdderOf(s, u) == AddRead(w) && s.head == Null
    ensures Reopened(s, u, w)
  {}

  /** The adder that is about to start succeeds if nobody interferes. */
  predicate Reopened(s: State, u: Thread, w: Work) {
    var linking := Do(s, AddStep(u));
    var swapping := Do(linking, AddStep(u));
    var done := Do(swapping, AddStep(u));
    Can(s, AddStep(u)) && Can(linking, AddStep(u)) && Can(swapping, AddStep(u)) && done.head == At(w)
        && done.added == s.added + multiset{w}
  }

  lemma {:induction false} Then(s: State, e: Event, es: seq<Event>)
    requires Can(s, e) && Run(Do(s, e), es)
    ensures Run(s, [e] + es) && End(s, [e] + es) == End(Do(s, e), es)
  {
    assert ([e] + es)[1..] == es;
  }

  /** The task exits, and a canceller is shown the sentinel. */
  function Shown(t: Thread): seq<Event> {
    [Exit, RunStart, RunStep, RunStep, CancelStart(t), CancelStep(t, false), CancelStep(t, false)]
  }

  function ShownState(s: State, t: Thread): State {
    s.(head := Exited, exiting := true, lock := ByCanceller(t), runner := RunIdle,
       cancellers := s.cancellers[t := CancelMatch(Head, Exited)])
  }

  /** From the start a canceller can come to where `SentinelTaken` begins. */
  lemma {:induction false} SentinelShown(s: State, t: Thread)
    requires Init(s)
    ensures Run(s, Shown(t)) && End(s, Shown(t)) == ShownState(s, t)
  {
    var s1 := s.(exiting := true);
    var s4 := s1.(head := Exited);
    var es := [CancelStart(t), CancelStep(t, false), CancelStep(t, false)];
    ShownToCanceller(s4, t);
    Closes(s1, es);
    assert Do(s, Exit) == s1 && s4.(lock := ByCanceller(t), cancellers := s4.cancellers[t := CancelMatch(Head, Exited)])
        == ShownState(s, t);
    Then(s, Exit, [RunStart, RunStep, RunStep] + es);
    assert [Exit] + ([RunStart, RunStep, RunStep] + es) == Shown(t);
  }

  /** `task_work_run` of an exiting task closes the empty list. */
  lemma {:induction false} Closes(s: State, es: seq<Event>)
    requires s.exiting && s.head == Null && s.runner == RunIdle && Run(s.(head := Exited), es)
    ensures Run(s, [RunStart, RunStep, RunStep] + es)
    ensures End(s, [RunStart, RunStep, RunStep] + es) == End(s.(head := Exited), es)
  {
    var s2, s3 := s.(runner := RunRead), s.(runner := RunSwap(Null, Exited));
    assert Do(s, RunStart) == s2 && Do(s2, RunStep) == s3 && Do(s3, RunStep) == s.(head := Exited);
    Then(s3, RunStep, es);
    Then(s2, RunStep, [RunStep] + es);
    Then(s, RunStart, [RunStep] + ([RunStep] + es));
    assert [RunStart] + ([RunStep] + ([RunStep] + es)) == [RunStart, RunStep, RunStep] + es;
  }

  lemma {:induction false} ShownToCanceller(s: State, t: Thread)
    requires s.head == Exited && s.lock == Free && t !in s.cancellers
    ensures var es := [CancelStart(t), CancelStep(t, false), CancelStep(t, false)];
      Run(s, es)
      && End(s, es) == s.(lock := ByCanceller(t), cancellers := s.cancellers[t := CancelMatch(Head, Exited)])
  {
    var s5 := s.(cancellers := s.cancellers[t := CancelLock]);
    var s6 := s.(lock := ByCanceller(t), cancellers := s.cancellers[t := CancelRead(Head)]);
    var s7 := s.(lock := ByCanceller(t), cancellers := s.cancellers[t := CancelMatch(Head, Exited)]);
    assert Do(s, CancelStart(t)) == s5 && Do(s5, CancelStep(t, false)) == s6 && Do(s6, CancelStep(t, false)) == s7;
    Then(s6, CancelStep(t, false), []);
    Then(s5, CancelStep(t, false), [CancelStep(t, false)]);
    Then(s, CancelStart(t), [CancelStep(t, false), CancelStep(t, false)]);
  }

  lemma {:induction false} FirstAgain(a: seq<Event>, b: seq<Event>)
    requires a != []
    ensures [a[0]] + (a[1..] + b) == a + b
  {}

  lemma {:induction false} RunOn(s: State, a: seq<Event>, b: seq<Event>)
    requires Run(s, a) && Run(End(s, a), b)
    ensures Run(s, a + b) && End(s, a + b) == End(End(s, a), b)
    decreases |a|
  {
    if a == [] {
      assert a + b == b;
    } else {
      RunOn(Do(s, a[0]), a[1..], b);
      Then(s, a[0], a[1..] + b);
      FirstAgain(a, b);
    }
  }

  /** The canceller accepts the sentinel, and a work is added. */
  function Reviving(t: Thread, u: Thread, w: Work): seq<Event> {
    [CancelStep(t, true), CancelStep(t, true), AddStart(u, w), AddStep(u), AddStep(u), AddStep(u)]
  }

  lemma {:induction false} RevivingRuns(s: State, t: Thread, u: Thread, w: Work)
    requires Inv(s) && s.head == Exited && t in s.cancellers && s.cancellers[t] == CancelMatch(Head, Exited)
    requires AdderOf(s, u) == AddIdle && Owned(s, w)
    ensures Run(s, Reviving(t, u, w))
    ensures End(s, Reviving(t, u, w)).head == At(w) && End(s, Reviving(t, u, w)).added == s.added + multiset{w}
  {
    SentinelTaken(s, t, u, w);
    var s1 := Do(s, CancelStep(t, true));
    var s2 := Do(s1, CancelStep(t, true));
    var s3 := Do(s2, AddStart(u, w));
    var s4 := Do(s3, AddStep(u));
    var s5 := Do(s4, AddStep(u));
    Then(s5, AddStep(u), []);
    Then(s4, AddStep(u), [AddStep(u)]);
    Then(s3, AddStep(u), [AddStep(u), AddStep(u)]);
    Then(s2, AddStart(u, w), [AddStep(u), AddStep(u), AddStep(u)]);
    Then(s1, CancelStep(t, true), [AddStart(u, w), AddStep(u), AddStep(u), AddStep(u)]);
    Then(s, CancelStep(t, true), [CancelStep(t, true), AddStart(u, w), AddStep(u), AddStep(u), AddStep(u)]);
  }

  /** From the start: the task exits, its list is closed, and yet a work is added to it. */
  lemma {:induction false} Revived(s: State, t: Thread, u: Thread, w: Work)
    requires Init(s)
    ensures Run(s, Shown(t)) && End(s, Shown(t)).exiting && End(s, Shown(t)).head == Exited
    ensures var es := Shown(t) + Reviving(t, u, w);
      Run(s, es) && End(s, es).head == At(w) && End(s, es).added == multiset{w}
  {
    SentinelShown(s, t);
    InitInv(s);
    RunKeepsInv(s, Shown(t));
    RevivingRuns(End(s, Shown(t)), t, u, w);
    RunOn(s, Shown(t), Reviving(t, u, w));
  }

  /** Entered once more with the sentinel in place, `task_work_run` would take the sentinel off,
      ready to treat it as a work. That is why `RunStart` asks for its absence. */
  lemma {:induction false} RunAgain(s: State)
    requires s.head == Exited
    ensures var s1 := RunDo(RunDo(s.(runner := RunRead)));
      s1.head == Null && s1.runner == RunLock(Exited)
  {}
}
