/** What the callers of `task_work_add`, `task_work_cancel_match` and `task_work_run` see, step by step, and what that
    says about the list: the bookkeeping of the protocol is what was returned and called. */
module TaskReturns {

  import opened TaskWork

  // ---------------------------------------------------------------- what is seen

  /** `task_work_add` returns 0 in this step: the loop around its cmpxchg has been left. */
  function Granted(s: State, e: Event): multiset<Work> {
    if e.AddStep? && AdderOf(s, e.t).AddSwap? && AdderOf(Do(s, e), e.t).AddIdle? then multiset{AdderOf(s, e.t).w}
    else multiset{}
  }

  /** A cancel returns this work. */
  function Returned(s: State, e: Event): multiset<Work> {
    if e.CancelStep? && CancellerOf(s, e.t).CancelUnlock? && CancellerOf(s, e.t).result.At?
    then multiset{CancellerOf(s, e.t).result.work}
    else multiset{}
  }

  /** `task_work_run` calls the function of this work. */
  function Called(s: State, e: Event): multiset<Work> {
    if e.RunStep? && s.runner.RunCall? && s.runner.work.At? then multiset{s.runner.work.work} else multiset{}
  }

  /** All of a run. */
  ghost function AllGranted(s: State, es: seq<Event>): multiset<Work>
    decreases |es|
  {
    if es == [] then multiset{} else Granted(s, es[0]) + AllGranted(Do(s, es[0]), es[1..])
  }

  ghost function AllReturned(s: State, es: seq<Event>): multiset<Work>
    decreases |es|
  {
    if es == [] then multiset{} else Returned(s, es[0]) + AllReturned(Do(s, es[0]), es[1..])
  }

  ghost function AllCalled(s: State, es: seq<Event>): multiset<Work>
    decreases |es|
  {
    if es == [] then multiset{} else Called(s, es[0]) + AllCalled(Do(s, es[0]), es[1..])
  }

  /** The cancellers that are about to return `w`. */
  ghost function Returning(s: State, w: Work): set<Thread> {
    set t | t in s.cancellers && s.cancellers[t] == CancelUnlock(At(w))
  }

  /** The cmpxchg of `t` succeeds in this step. */
  predicate Takes(s: State, e: Event, t: Thread) {
    e.CancelStep? && e.t == t && CancellerOf(s, t).CancelSwap?
    && Load(s, CancellerOf(s, t).pprev) == CancellerOf(s, t).work
  }

  // ---------------------------------------------------------------- step by step

  lemma {:induction false} GrantedStep(s: State, e: Event)
    requires Can(s, e)
    ensures Do(s, e).added == s.added + Granted(s, e)
  {
    match e {
      case AddStep(t) => AddGrants(s, t);
      case CancelStep(t, m) => assert CancelDo(s, t, m).added == s.added;
      case RunStep => assert RunDo(s).added == s.added;
      case _ =>
    }
  }

  lemma {:induction false} AddGrants(s: State, t: Thread)
    requires t in s.adders && !s.adders[t].AddIdle?
    ensures AddDo(s, t).added == s.added + Granted(s, AddStep(t))
  {
    match s.adders[t] {
      case AddSwap(w, h) => assert AddDo(s, t).adders[t] == if s.head == h then AddIdle else AddRead(w);
      case _ =>
    }
  }

  lemma {:induction false} CalledStep(s: State, e: Event)
    requires Can(s, e)
    ensures Do(s, e).executed == s.executed + Called(s, e)
  {
    match e {
      case AddStep(t) => assert AddDo(s, t).executed == s.executed;
      case CancelStep(t, m) => assert CancelDo(s, t, m).executed == s.executed;
      case RunStep => assert RunDo(s).executed == s.executed + Called(s, e);
      case _ =>
    }
  }

  lemma {:induction false} OthersStay(s: State, e: Event, w: Work)
    requires Can(s, e) && !e.CancelStep?
    ensures Do(s, e).cancelled == s.cancelled && Returning(Do(s, e), w) == Returning(s, w)
  {
    match e {
      case AddStep(t) => assert AddDo(s, t).cancelled == s.cancelled && AddDo(s, t).cancellers == s.cancellers;
      case RunStep => assert RunDo(s).cancelled == s.cancelled && RunDo(s).cancellers == s.cancellers;
      case CancelStart(t) => StartStays(s, t, w);
      case _ =>
    }
  }

  lemma {:induction false} StartStays(s: State, t: Thread, w: Work)
    requires CancellerOf(s, t).CancelIdle?
    ensures Returning(s.(cancellers := s.cancellers[t := CancelLock]), w) == Returning(s, w)
  {
    assert t !in Returning(s, w);
  }

  /** Where a canceller goes, and what it takes along. */
  lemma {:induction false} CancelTakes(s: State, t: Thread, m: bool) returns (c: Canceller)
    requires t in s.cancellers && !s.cancellers[t].CancelIdle?
    ensures CancelDo(s, t, m).cancellers == s.cancellers[t := c]
    ensures CancelDo(s, t, m).cancelled
      == s.cancelled + if c.CancelUnlock? && c.result.At? then multiset{c.result.work} else multiset{}
    ensures s.cancellers[t].CancelUnlock? ==> c == CancelIdle
    ensures Takes(s, CancelStep(t, m), t) ==> c == CancelUnlock(s.cancellers[t].work)
    ensures !Takes(s, CancelStep(t, m), t) && c.CancelUnlock? ==> c.result == Null
    ensures c.CancelSwap? ==> s.cancellers[t].CancelMatch? && m && c.work == s.cancellers[t].work
  {
    match s.cancellers[t] {
      case CancelSwap(p, w, n) =>
        c := if Load(s, p) == w then CancelUnlock(w) else CancelRead(p);
        UnlinkTakes(s, t, p, w, n);
      case CancelMatch(p, w) => c := if m then CancelSwap(p, w, NextRef(s, w)) else CancelRead(NextOf(w));
      case CancelRead(p) => c := if Load(s, p) == Null then CancelUnlock(Null) else CancelMatch(p, Load(s, p));
      case CancelLock => c := CancelRead(Head);
      case CancelUnlock(_) => c := CancelIdle;
    }
  }

  lemma {:induction false} UnlinkTakes(s: State, t: Thread, p: Cell, w: Ref, n: Ref)
    ensures var u := Unlink(s, t, p, w, n);
      u.cancellers == s.cancellers[t := CancelUnlock(w)]
      && u.cancelled == s.cancelled + if w.At? then multiset{w.work} else multiset{}
  {}

  lemma {:induction false} OneGone(s: State, s': State, t: Thread, c: Canceller, w: Work)
    requires t in s.cancellers && s'.cancellers == s.cancellers[t := c] && s.cancellers[t] != CancelUnlock(At(w))
    ensures |Returning(s', w)| == |Returning(s, w)| + if c == CancelUnlock(At(w)) then 1 else 0
  {
    if c == CancelUnlock(At(w)) {
      assert Returning(s', w) == Returning(s, w) + {t};
    } else {
      assert Returning(s', w) == Returning(s, w);
    }
  }

  lemma {:induction false} OneLeft(s: State, s': State, t: Thread, w: Work)
    requires t in s.cancellers && s'.cancellers == s.cancellers[t := CancelIdle]
    ensures |Returning(s', w)| + (if s.cancellers[t] == CancelUnlock(At(w)) then 1 else 0) == |Returning(s, w)|
  {
    if s.cancellers[t] == CancelUnlock(At(w)) {
      assert Returning(s, w) == Returning(s', w) + {t};
    } else {
      assert Returning(s', w) == Returning(s, w);
    }
  }

  lemma {:induction false} ReturnedStep(s: State, e: Event, w: Work)
    requires Can(s, e)
    ensures Do(s, e).cancelled[w] + |Returning(s, w)| == s.cancelled[w] + Returned(s, e)[w] + |Returning(Do(s, e), w)|
  {
    if e.CancelStep? {
      var c := CancelTakes(s, e.t, e.match_);
      if s.cancellers[e.t].CancelUnlock? {
        OneLeft(s, Do(s, e), e.t, w);
      } else {
        OneGone(s, Do(s, e), e.t, c, w);
      }
    } else {
      OthersStay(s, e, w);
    }
  }

  // ---------------------------------------------------------------- whole runs

  lemma {:induction false} Seen(s: State, es: seq<Event>, w: Work)
    requires Run(s, es)
    ensures var e := End(s, es);
      e.added == s.added + AllGranted(s, es) && e.executed == s.executed + AllCalled(s, es)
      && e.cancelled[w] + |Returning(s, w)| == s.cancelled[w] + AllReturned(s, es)[w] + |Returning(e, w)|
    decreases |es|
  {
    if es != [] {
      GrantedStep(s, es[0]);
      CalledStep(s, es[0]);
      ReturnedStep(s, es[0], w);
      Seen(Do(s, es[0]), es[1..], w);
    }
  }

  /** In every run, as often as `task_work_add` returned 0 for a work, it was called, was returned by a cancel, is about
      to be returned, or is still waiting. */
  lemma {:induction false} NoneLost(s: State, es: seq<Event>, w: Work)
    requires Init(s) && Run(s, es)
    ensures var e := End(s, es);
      AllGranted(s, es)[w] == AllCalled(s, es)[w] + AllReturned(s, es)[w] + |Returning(e, w)|
        + multiset(e.pending)[w] + multiset(e.batch)[w]
  {
    Seen(s, es, w);
    ExactlyOnce(s, es);
    assert Returning(s, w) == {};
    var e := End(s, es);
    assert e.added[w] == AllGranted(s, es)[w] && e.executed[w] == AllCalled(s, es)[w];
    assert e.added[w] == e.executed[w] + e.cancelled[w] + multiset(e.pending)[w] + multiset(e.batch)[w];
  }

  // ---------------------------------------------------------------- one call of a canceller

  /** What `t` takes off the list in a run. */
  ghost function TakenBy(s: State, es: seq<Event>, t: Thread): seq<Ref>
    decreases |es|
  {
    if es == [] then []
    else (if Takes(s, es[0], t) then [CancellerOf(s, t).work] else []) + TakenBy(Do(s, es[0]), es[1..], t)
  }

  /** What the matcher of `t` accepts in a run. */
  ghost function AcceptedBy(s: State, es: seq<Event>, t: Thread): set<Ref>
    decreases |es|
  {
    if es == [] then {}
    else
      (if es[0] == CancelStep(t, true) && CancellerOf(s, t).CancelMatch? then {CancellerOf(s, t).work} else {})
      + AcceptedBy(Do(s, es[0]), es[1..], t)
  }

  /** No call of `t` begins or ends. */
  ghost predicate OneCall(s: State, es: seq<Event>, t: Thread)
    decreases |es|
  {
    es == []
    || (es[0] != CancelStart(t)
        && !(es[0].CancelStep? && es[0].t == t && CancellerOf(s, t).CancelUnlock?)
        && OneCall(Do(s, es[0]), es[1..], t))
  }

  lemma {:induction false} Elsewhere(s: State, e: Event, t: Thread)
    requires Can(s, e) && e != CancelStart(t) && !(e.CancelStep? && e.t == t)
    ensures CancellerOf(Do(s, e), t) == CancellerOf(s, t)
  {
    match e {
      case AddStep(u) => assert AddDo(s, u).cancellers == s.cancellers;
      case RunStep => assert RunDo(s).cancellers == s.cancellers;
      case CancelStep(u, m) => var c := CancelTakes(s, u, m);
      case _ =>
    }
  }

  /** A call that is about to return has this to return. */
  ghost predicate Owes(c0: Canceller, c: Canceller, taken: seq<Ref>, accepted: set<Ref>) {
    if c0.CancelUnlock? then c == c0 && taken == []
    else if c.CancelUnlock? && c.result != Null then
      taken == [c.result] && (c.result in accepted || (c0.CancelSwap? && c0.work == c.result))
    else taken == []
  }

  /** A cmpxchg is about to be tried only on what was accepted. */
  ghost predicate Tries(c0: Canceller, c: Canceller, accepted: set<Ref>) {
    c.CancelSwap? ==> c.work in accepted || c == c0
  }

  lemma {:induction false} OwesStep(s: State, e: Event, t: Thread)
    requires Inv(s) && Can(s, e) && OneCall(s, [e], t)
    ensures var c, c' := CancellerOf(s, t), CancellerOf(Do(s, e), t);
      Owes(c, c', TakenBy(s, [e], t), AcceptedBy(s, [e], t)) && Tries(c, c', AcceptedBy(s, [e], t))
  {
    assert [e][1..] == [];
    if e.CancelStep? && e.t == t {
      assert CancellerOk(s, s.cancellers[t]);
      var c := CancelTakes(s, t, e.match_);
    } else {
      Elsewhere(s, e, t);
    }
  }

  lemma {:induction false} OwesOn(c0: Canceller, c1: Canceller, c: Canceller, a: seq<Ref>, b: seq<Ref>, x: set<Ref>,
      y: set<Ref>)
    requires Owes(c0, c1, a, x) && Tries(c0, c1, x) && Owes(c1, c, b, y)
    ensures Owes(c0, c, a + b, x + y)
  {}

  lemma {:induction false} TakenFirst(s: State, es: seq<Event>, t: Thread)
    requires es != []
    ensures TakenBy(s, es, t) == TakenBy(s, [es[0]], t) + TakenBy(Do(s, es[0]), es[1..], t)
    ensures AcceptedBy(s, es, t) == AcceptedBy(s, [es[0]], t) + AcceptedBy(Do(s, es[0]), es[1..], t)
    ensures OneCall(s, es, t) ==> OneCall(s, [es[0]], t) && OneCall(Do(s, es[0]), es[1..], t)
  {
    assert [es[0]][1..] == [];
  }

  /** Whatever the others do, a call returns what its one successful cmpxchg took off the list, which its matcher had
      accepted, or NULL, and then it has taken nothing. */
  lemma {:induction false} ReturnsTaken(s: State, es: seq<Event>, t: Thread)
    requires Inv(s) && Run(s, es) && OneCall(s, es, t)
    ensures Owes(CancellerOf(s, t), CancellerOf(End(s, es), t), TakenBy(s, es, t), AcceptedBy(s, es, t))
    decreases |es|
  {
    if es != [] {
      var s' := Do(s, es[0]);
      TakenFirst(s, es, t);
      OwesStep(s, es[0], t);
      StepKeeps(s, es[0]);
      ReturnsTaken(s', es[1..], t);
      OwesOn(CancellerOf(s, t), CancellerOf(s', t), CancellerOf(End(s, es), t), TakenBy(s, [es[0]], t),
          TakenBy(s', es[1..], t), AcceptedBy(s, [es[0]], t), AcceptedBy(s', es[1..], t));
    }
  }

  // ---------------------------------------------------------------- a call with nobody interfering

  /** What a canceller is shown. */
  function Refs(s: State): seq<Ref> {
    if s.head == Exited then [Exited] else seq(|s.pending|, i requires 0 <= i < |s.pending| => At(s.pending[i]))
  }

  /** The first element from `i` on that the matcher accepts. */
  function FirstMatch(refs: seq<Ref>, i: nat, accepts: Ref -> bool): (j: nat)
    requires i <= |refs|
    ensures i <= j <= |refs| && (forall k :: i <= k < j ==> !accepts(refs[k])) && (j < |refs| ==> accepts(refs[j]))
    decreases |refs| - i
  {
    if i == |refs| || accepts(refs[i]) then i else FirstMatch(refs, i + 1, accepts)
  }

  /** The run is all `t`, whose matcher is this function. */
  ghost predicate Alone(s: State, es: seq<Event>, t: Thread, accepts: Ref -> bool)
    decreases |es|
  {
    es == []
    || (es[0].CancelStep? && es[0].t == t
        && (CancellerOf(s, t).CancelMatch? ==> es[0].match_ == accepts(CancellerOf(s, t).work))
        && Can(s, es[0]) && Alone(Do(s, es[0]), es[1..], t, accepts))
  }

  ghost function Standing(s: State, t: Thread, c: Canceller): State {
    s.(lock := ByCanceller(t), cancellers := s.cancellers[t := c])
  }

  function CellAt(refs: seq<Ref>, i: nat): Cell
    requires i <= |refs|
  {
    if i == 0 then Head else NextOf(refs[i - 1])
  }

  lemma {:induction false} Reads(s: State, t: Thread, c: Canceller, i: nat)
    requires Lists(s) && i <= |Refs(s)| && s.head != Null
    ensures var refs := Refs(s);
      Load(Standing(s, t, c), CellAt(refs, i)) == if i < |refs| then refs[i] else Null
  {
    if s.head.At? && i > 0 {
      assert NextIn(s.next, s.pending[i - 1]) == After(s.pending, i - 1);
    }
  }

  /** One event more in front. */
  lemma {:induction false} AloneThen(s: State, e: Event, es: seq<Event>, t: Thread, accepts: Ref -> bool)
    requires e.CancelStep? && e.t == t && Can(s, e) && Alone(Do(s, e), es, t, accepts)
    requires CancellerOf(s, t).CancelMatch? ==> e.match_ == accepts(CancellerOf(s, t).work)
    ensures Alone(s, [e] + es, t, accepts) && End(s, [e] + es) == End(Do(s, e), es)
  {
    assert ([e] + es)[1..] == es;
  }

  /** What the call leaves that takes element `i` off, or finds none. */
  ghost function Left(s: State, t: Thread, i: nat): State
    requires i <= |Refs(s)|
  {
    if i == |Refs(s)| then Standing(s, t, CancelUnlock(Null))
    else
      var w := Refs(s)[i];
      Unlink(Standing(s, t, CancelIdle), t, CellAt(Refs(s), i), w, NextRef(s, w))
  }

  /** The steps of the call, its cell being `p`. */
  lemma {:induction false} ReadStep(s: State, t: Thread, p: Cell, m: bool, w: Ref)
    requires Load(Standing(s, t, CancelRead(p)), p) == w
    ensures Do(Standing(s, t, CancelRead(p)), CancelStep(t, m))
      == Standing(s, t, if w == Null then CancelUnlock(Null) else CancelMatch(p, w))
  {
    assert s.cancellers[t := CancelRead(p)][t := CancelUnlock(Null)] == s.cancellers[t := CancelUnlock(Null)];
    assert s.cancellers[t := CancelRead(p)][t := CancelMatch(p, w)] == s.cancellers[t := CancelMatch(p, w)];
  }

  lemma {:induction false} MatchStep(s: State, t: Thread, p: Cell, w: Ref, m: bool)
    ensures Do(Standing(s, t, CancelMatch(p, w)), CancelStep(t, m))
      == Standing(s, t, if m then CancelSwap(p, w, NextRef(s, w)) else CancelRead(NextOf(w)))
  {
    var c, c' := CancelMatch(p, w), if m then CancelSwap(p, w, NextRef(s, w)) else CancelRead(NextOf(w));
    assert s.cancellers[t := c][t := c'] == s.cancellers[t := c'];
  }

  lemma {:induction false} TakesOff(s: State, t: Thread, i: nat, accepts: Ref -> bool) returns (es: seq<Event>)
    requires Lists(s) && s.head != Null && i < |Refs(s)| && accepts(Refs(s)[i])
    ensures Alone(Standing(s, t, CancelRead(CellAt(Refs(s), i))), es, t, accepts)
    ensures End(Standing(s, t, CancelRead(CellAt(Refs(s), i))), es) == Left(s, t, i)
  {
    var p, w := CellAt(Refs(s), i), Refs(s)[i];
    var n := NextRef(s, w);
    Reads(s, t, CancelRead(p), i);
    Reads(s, t, CancelSwap(p, w, n), i);
    es := TakesFrom(s, t, p, w, n, accepts);
  }

  lemma {:induction false} TakesFrom(s: State, t: Thread, p: Cell, w: Ref, n: Ref, accepts: Ref -> bool)
      returns (es: seq<Event>)
    requires w != Null && n == NextRef(s, w) && accepts(w)
    requires Load(Standing(s, t, CancelRead(p)), p) == w == Load(Standing(s, t, CancelSwap(p, w, n)), p)
    ensures Alone(Standing(s, t, CancelRead(p)), es, t, accepts)
    ensures End(Standing(s, t, CancelRead(p)), es) == Unlink(Standing(s, t, CancelIdle), t, p, w, n)
  {
    var e := CancelStep(t, true);
    ReadStep(s, t, p, true, w);
    MatchStep(s, t, p, w, true);
    Swaps(s, t, p, w, n);
    AloneThen(Standing(s, t, CancelSwap(p, w, n)), e, [], t, accepts);
    AloneThen(Standing(s, t, CancelMatch(p, w)), e, [e] + [], t, accepts);
    AloneThen(Standing(s, t, CancelRead(p)), e, [e] + ([e] + []), t, accepts);
    es := [e] + ([e] + ([e] + []));
  }

  lemma {:induction false} Swaps(s: State, t: Thread, p: Cell, w: Ref, n: Ref)
    requires Load(Standing(s, t, CancelSwap(p, w, n)), p) == w
    ensures Do(Standing(s, t, CancelSwap(p, w, n)), CancelStep(t, true))
      == Unlink(Standing(s, t, CancelIdle), t, p, w, n)
  {
    assert s.cancellers[t := CancelSwap(p, w, n)][t := CancelUnlock(w)]
        == s.cancellers[t := CancelIdle][t := CancelUnlock(w)];
  }

  /** The rest of a call that has come to element `i`. */
  lemma {:induction false} GoesOn(s: State, t: Thread, i: nat, accepts: Ref -> bool) returns (es: seq<Event>)
    requires Lists(s) && s.head != Null && i <= |Refs(s)|
    ensures Alone(Standing(s, t, CancelRead(CellAt(Refs(s), i))), es, t, accepts)
    ensures End(Standing(s, t, CancelRead(CellAt(Refs(s), i))), es) == Left(s, t, FirstMatch(Refs(s), i, accepts))
    decreases |Refs(s)| - i
  {
    var refs := Refs(s);
    if i < |refs| && accepts(refs[i]) {
      es := TakesOff(s, t, i, accepts);
      return;
    }
    var p := CellAt(refs, i);
    var s1 := Standing(s, t, CancelRead(p));
    var e := CancelStep(t, false);
    Reads(s, t, CancelRead(p), i);
    if i == |refs| {
      ReadStep(s, t, p, false, Null);
      AloneThen(s1, e, [], t, accepts);
      es := [e] + [];
    } else {
      var rest := GoesOn(s, t, i + 1, accepts);
      es := PassesOn(s, t, p, refs[i], accepts, rest);
    }
  }

  lemma {:induction false} PassesOn(s: State, t: Thread, p: Cell, w: Ref, accepts: Ref -> bool, rest: seq<Event>)
      returns (es: seq<Event>)
    requires w != Null && !accepts(w) && Load(Standing(s, t, CancelRead(p)), p) == w
    requires Alone(Standing(s, t, CancelRead(NextOf(w))), rest, t, accepts)
    ensures Alone(Standing(s, t, CancelRead(p)), es, t, accepts)
    ensures End(Standing(s, t, CancelRead(p)), es) == End(Standing(s, t, CancelRead(NextOf(w))), rest)
  {
    var e := CancelStep(t, false);
    ReadStep(s, t, p, false, w);
    MatchStep(s, t, p, w, false);
    AloneThen(Standing(s, t, CancelMatch(p, w)), e, rest, t, accepts);
    AloneThen(Standing(s, t, CancelRead(p)), e, [e] + rest, t, accepts);
    es := [e] + ([e] + rest);
  }

  /** With nobody interfering a call takes off and returns the first element that its matcher accepts. It returns NULL,
      the list being as before, if there is none. */
  lemma {:induction false} CancelAlone(s: State, t: Thread, accepts: Ref -> bool) returns (es: seq<Event>)
    requires Inv(s) && s.lock == Free && s.head != Null && CancellerOf(s, t).CancelIdle?
    ensures Can(s, CancelStart(t)) && Alone(Do(s, CancelStart(t)), es, t, accepts)
    ensures var refs, e := Refs(s), End(Do(s, CancelStart(t)), es);
      var j := FirstMatch(refs, 0, accepts);
      CancellerOf(e, t) == CancelUnlock(if j < |refs| then refs[j] else Null)
      && e.pending == (if j < |refs| && refs[j].At? then Remove(s.pending, refs[j].work) else s.pending)
      && e.head == (if j == 0 then NextRef(s, refs[0]) else s.head)
  {
    var s0 := Do(s, CancelStart(t));
    var e := CancelStep(t, false);
    var s1 := Standing(s, t, CancelRead(Head));
    assert s.cancellers[t := CancelLock][t := CancelRead(Head)] == s.cancellers[t := CancelRead(Head)];
    assert Do(s0, e) == s1;
    var rest := GoesOn(s, t, 0, accepts);
    AloneThen(s0, e, rest, t, accepts);
    es := [e] + rest;
    LeftWhat(s, t, FirstMatch(Refs(s), 0, accepts));
  }

  lemma {:induction false} LeftWhat(s: State, t: Thread, j: nat)
    requires Lists(s) && s.head != Null && j <= |Refs(s)|
    ensures var refs, e := Refs(s), Left(s, t, j);
      CancellerOf(e, t) == CancelUnlock(if j < |refs| then refs[j] else Null)
      && e.pending == (if j < |refs| && refs[j].At? then Remove(s.pending, refs[j].work) else s.pending)
      && e.head == (if j == 0 then NextRef(s, refs[0]) else s.head)
  {}

  // ---------------------------------------------------------------- an adder with nobody interfering

  ghost function Adding(s: State, t: Thread, a: Adder): State {
    s.(adders := s.adders[t := a])
  }

  lemma {:induction false} AddingOn(s: State, t: Thread, a: Adder, b: Adder)
    ensures Adding(Adding(s, t, a), t, b) == Adding(s, t, b)
  {
    assert s.adders[t := a][t := b] == s.adders[t := b];
  }

  /** With nobody interfering `task_work_add` puts the work in front and returns 0, */
  lemma {:induction false} AddAlone(s: State, t: Thread, w: Work)
    requires s.head != Exited && AdderOf(s, t).AddIdle? && Owned(s, w)
    ensures var e := AddStep(t);
      var s1 := Do(s, AddStart(t, w));
      var s2 := Do(s1, e);
      var s3 := Do(s2, e);
      var s4 := Do(s3, e);
      Can(s, AddStart(t, w)) && Can(s1, e) && Can(s2, e) && Can(s3, e) && Granted(s3, e) == multiset{w}
      && s4.head == At(w) && NextRef(s4, At(w)) == s.head && s4.pending == [w] + s.pending
  {
    var s' := s.(next := s.next[w := s.head]);
    AddingOn(s, t, AddRead(w), AddLink(w, s.head));
    AddingOn(s, t, AddLink(w, s.head), AddSwap(w, s.head));
    assert Do(Adding(s, t, AddRead(w)), AddStep(t)) == Adding(s, t, AddLink(w, s.head));
    assert Do(Adding(s, t, AddLink(w, s.head)), AddStep(t)) == Adding(s', t, AddSwap(w, s.head));
  }

  /** and on a closed list it changes nothing and returns an error. */
  lemma {:induction false} AddRefused(s: State, t: Thread, w: Work)
    requires s.head == Exited && AdderOf(s, t).AddIdle? && Owned(s, w)
    ensures var s1 := Do(s, AddStart(t, w));
      Can(s, AddStart(t, w)) && Can(s1, AddStep(t)) && Granted(s1, AddStep(t)) == multiset{}
      && Do(s1, AddStep(t)) == s.(adders := s.adders[t := AddIdle])
  {
    AddingOn(s, t, AddRead(w), AddIdle);
  }

  // ---------------------------------------------------------------- the runner with nobody interfering

  /** After `n` steps of the runner, in which it has called the works of `l` in this order, it is in `e`. */
  ghost predicate Course(s: State, n: nat, l: seq<Work>, e: State)
    decreases n
  {
    if n == 0 then l == [] && e == s
    else
      Can(s, RunStep)
      && if s.runner.RunCall? && s.runner.work.At?
         then l != [] && l[0] == s.runner.work.work && Course(RunDo(s), n - 1, l[1..], e)
         else Course(RunDo(s), n - 1, l, e)
  }

  ghost predicate Comes(s: State, l: seq<Work>, e: State) {
    exists n :: Course(s, n, l, e)
  }

  lemma {:induction false} ComesAtOnce(s: State)
    ensures Comes(s, [], s)
  {
    assert Course(s, 0, [], s);
  }

  lemma {:induction false} ComesNext(s: State, s': State, l: seq<Work>, e: State)
    requires Can(s, RunStep) && RunDo(s) == s' && !s.runner.RunCall? && Comes(s', l, e)
    ensures Comes(s, l, e)
  {
    var n: nat :| Course(s', n, l, e);
    assert Course(s, n + 1, l, e);
  }

  lemma {:induction false} ComesCall(s: State, s': State, l: seq<Work>, e: State)
    requires RunDo(s) == s' && s.runner.RunCall? && s.runner.work.At? && Comes(s', l, e)
    ensures Comes(s, [s.runner.work.work] + l, e)
  {
    var n: nat :| Course(s', n, l, e);
    assert ([s.runner.work.work] + l)[1..] == l;
    assert Course(s, n + 1, [s.runner.work.work] + l, e);
  }

  /** The works of `b` are still to be called, those of `x` have been. */
  ghost function Calling(s: State, b: seq<Work>, x: multiset<Work>): State {
    s.(batch := b, executed := x, runner := if b == [] then RunRead else RunNext(At(b[0])))
  }

  lemma {:induction false} CallsNext(s: State, b: seq<Work>, x: multiset<Work>)
    requires b != [] && Linked(s.next, b)
    ensures RunDo(Calling(s, b, x)) == Calling(s, b, x).(runner := RunCall(At(b[0]), After(b, 0)))
  {
    assert NextIn(s.next, b[0]) == After(b, 0);
  }

  lemma {:induction false} CallsOne(s: State, b: seq<Work>, x: multiset<Work>)
    requires b != []
    ensures RunDo(Calling(s, b, x).(runner := RunCall(At(b[0]), After(b, 0))))
      == Calling(s, b[1..], x + multiset{b[0]})
  {}

  lemma {:induction false} LinkedTail(next: map<Work, Ref>, b: seq<Work>)
    requires b != [] && Linked(next, b)
    ensures Linked(next, b[1..])
  {
    forall k | 0 <= k < |b[1..]|
      ensures NextIn(next, b[1..][k]) == After(b[1..], k)
    {
      assert b[1..][k] == b[k + 1] && After(b[1..], k) == After(b, k + 1);
    }
  }

  lemma {:induction false} CountOn(x: multiset<Work>, b: seq<Work>, l: seq<Work>)
    ensures if b == [] then x + multiset(b) == x && b + l == l
      else x + multiset{b[0]} + multiset(b[1..]) == x + multiset(b) && [b[0]] + (b[1..] + l) == b + l
  {
    assert b != [] ==> b == [b[0]] + b[1..];
  }

  lemma {:induction false} CallsAll(s: State, b: seq<Work>, x: multiset<Work>, l: seq<Work>, e: State)
    requires Linked(s.next, b) && Comes(Calling(s, [], x + multiset(b)), l, e)
    ensures Comes(Calling(s, b, x), b + l, e)
    decreases |b|
  {
    CountOn(x, b, l);
    if b != [] {
      LinkedTail(s.next, b);
      CallsAll(s, b[1..], x + multiset{b[0]}, l, e);
      CallsNext(s, b, x);
      CallsOne(s, b, x);
      var s' := Calling(s, b, x).(runner := RunCall(At(b[0]), After(b, 0)));
      ComesCall(s', Calling(s, b[1..], x + multiset{b[0]}), b[1..] + l, e);
      ComesNext(Calling(s, b, x), s', [b[0]] + (b[1..] + l), e);
    }
  }

  /** How `task_work_run` ends when the list is empty. */
  lemma {:induction false} RunsOut(s: State)
    requires s.head == Null && s.runner == RunRead
    ensures Comes(s, [], s.(runner := RunIdle, head := if s.exiting then Exited else Null))
  {
    var e := s.(runner := RunIdle, head := if s.exiting then Exited else Null);
    ComesAtOnce(e);
    if s.exiting {
      var s1 := s.(runner := RunSwap(Null, Exited));
      ComesNext(s1, e, [], e);
      ComesNext(s, s1, [], e);
    } else {
      assert RunDo(s) == e;
      ComesNext(s, e, [], e);
    }
  }

  /** The first steps of `task_work_run`: the list is detached. */
  lemma {:induction false} Detaches(s: State, l: seq<Work>, e: State)
    requires s.lock == Free && s.runner == RunRead && s.pending != [] && s.head == At(s.pending[0])
    requires Comes(Calling(s.(head := Null, pending := []), s.pending, s.executed), l, e)
    ensures Comes(s, l, e)
  {
    var s1 := s.(runner := RunSwap(s.head, Null));
    var s2 := s.(head := Null, pending := [], batch := s.pending, runner := RunLock(s.head));
    var s3 := s2.(lock := ByRunner, runner := RunUnlock(s.head));
    ComesNext(s3, Calling(s.(head := Null, pending := []), s.pending, s.executed), l, e);
    ComesNext(s2, s3, l, e);
    ComesNext(s1, s2, l, e);
    ComesNext(s, s1, l, e);
  }

  /** What `task_work_run` leaves. */
  ghost function RunOut(s: State): State {
    s.(head := if s.exiting then Exited else Null, pending := [], executed := s.executed + multiset(s.pending),
       runner := RunIdle)
  }

  /** With nobody interfering `task_work_run` calls all works in the order of the list, the last added first, and leaves
      an empty list, closed if the task is exiting. */
  lemma {:induction false} RunAlone(s: State)
    requires Inv(s) && s.runner == RunIdle && s.head != Exited && s.lock == Free
    ensures Can(s, RunStart) && Comes(Do(s, RunStart), s.pending, RunOut(s))
  {
    var s0 := s.(runner := RunRead);
    assert s.batch == [];
    if s.head == Null {
      RunsOut(s0);
      assert s.executed + multiset(s.pending) == s.executed;
    } else {
      var d := s0.(head := Null, pending := []);
      var out := Calling(d, [], s.executed + multiset(s.pending));
      RunsOut(out);
      CallsAll(d, s.pending, s.executed, [], RunOut(s));
      assert s.pending + [] == s.pending;
      Detaches(s0, s.pending, RunOut(s));
    }
  }
}
