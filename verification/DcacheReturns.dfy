/** What the callers of `d_alloc_parallel` are handed out, in every run, and what a lookup does that nobody interferes
    with. */
module DcacheReturns {

  import opened Dcache

  // ---------------------------------------------------------------- what a lookup hands out

  /** In this step `t` is handed out a dentry. */
  ghost predicate HandsOut(s: State, e: Event, t: Thread, k: Key, d: Dentry)
    requires Can(s, e)
  {
    PcOf(s, t) != Got(k, d) && PcOf(Do(s, e), t) == Got(k, d)
  }

  /** The key a thread looks up stays the same until it is done. */
  lemma {:induction false} SameKey(s: State, e: Event, t: Thread)
    requires Inv(s) && Can(s, e)
    ensures PcOf(Do(s, e), t).Got? ==> !PcOf(s, t).Idle? && PcOf(Do(s, e), t).k == PcOf(s, t).k
  {
    if PcOf(Do(s, e), t) != PcOf(s, t) {
      assert e.Drop? || e.t == t;
    }
  }

  /** Whatever is handed out has the name looked up and is in the primary hash, or the caller gave up and keeps the
      dentry that it owns. */
  lemma {:induction false} HandedOut(states: seq<State>, events: seq<Event>, i: nat, t: Thread, k: Key, d: Dentry)
    requires Run(states, events) && i < |events| && HandsOut(states[i], events[i], t, k, d)
    ensures Has(states[i + 1], d, k) && !PcOf(states[i], t).Idle? && PcOf(states[i], t).k == k
    ensures d in states[i + 1].hashed || (events[i] == GiveUp(t) && PcOf(states[i], t) == Own(k, d))
  {
    RunKeeps(states, events, i);
    RunKeeps(states, events, i + 1);
    SameKey(states[i], events[i], t);
    HandsHashed(states[i], events[i], t, k, d);
    assert PcOk(states[i + 1], states[i + 1].threads[t]);
  }

  lemma {:induction false} HandsHashed(s: State, e: Event, t: Thread, k: Key, d: Dentry)
    requires Inv(s) && Can(s, e) && HandsOut(s, e, t, k, d)
    ensures d in Do(s, e).hashed || (e == GiveUp(t) && PcOf(s, t) == Own(k, d))
  {
    GotBy(s, e, t);
    match e {
      case DoEnd(_) => assert PcOk(s, s.threads[t]);
      case _ =>
    }
  }

  /** The steps by which a thread is handed out something. */
  lemma {:induction false} GotBy(s: State, e: Event, t: Thread)
    requires Can(s, e) && PcOf(Do(s, e), t).Got? && PcOf(Do(s, e), t) != PcOf(s, t)
    ensures (e.HashHit? || e.WaitDone? || e.DoEnd? || e.GiveUp?) && e.t == t
  {}

  /** A dentry leaves the primary hash only by being dropped. */
  lemma {:induction false} StaysHashed(states: seq<State>, events: seq<Event>, i: nat, j: nat, d: Dentry)
    requires Run(states, events) && i <= j < |states| && d in states[i].hashed && d in states[i].key
    requires forall m :: i <= m < j ==> events[m] != Drop(d)
    ensures d in states[j].hashed && d in states[j].key && states[j].key[d] == states[i].key[d]
    decreases j - i
  {
    if i < j {
      RunKeeps(states, events, j - 1);
      StaysHashed(states, events, i, j - 1, d);
      HashedStep(states[j - 1], events[j - 1], d);
    }
  }

  lemma {:induction false} HashedStep(s: State, e: Event, d: Dentry)
    requires Can(s, e) && e != Drop(d) && d in s.hashed && d in s.key
    ensures d in Do(s, e).hashed && d in Do(s, e).key && Do(s, e).key[d] == s.key[d]
  {}

  /** Two lookups of one name are handed out the same dentry, unless the first one's was dropped in between or one of
      the two gave up. */
  lemma {:induction false} SameDentry(states: seq<State>, events: seq<Event>, i: nat, j: nat, t: Thread, u: Thread,
      k: Key, d: Dentry, e: Dentry)
    requires Run(states, events) && i <= j < |events|
    requires HandsOut(states[i], events[i], t, k, d) && !events[i].GiveUp?
    requires HandsOut(states[j], events[j], u, k, e) && !events[j].GiveUp?
    requires forall m :: i < m <= j ==> events[m] != Drop(d)
    ensures d == e
  {
    HandedOut(states, events, i, t, k, d);
    HandedOut(states, events, j, u, k, e);
    StaysHashed(states, events, i + 1, j + 1, d);
    OneDentryPerName(states, events, j + 1, d, e);
  }

  // ---------------------------------------------------------------- a lookup with nobody interfering

  ghost predicate Leads(s: State, es: seq<Event>, e: State)
    decreases |es|
  {
    if es == [] then s == e else Can(s, es[0]) && Leads(Do(s, es[0]), es[1..], e)
  }

  lemma {:induction false} LeadsThen(s: State, a: Event, s': State, es: seq<Event>, e: State)
    requires Can(s, a) && Do(s, a) == s' && Leads(s', es, e)
    ensures Leads(s, [a] + es, e)
  {
    assert ([a] + es)[1..] == es;
  }

  lemma {:induction false} GoOn(s: State, t: Thread, p: Pc, q: Pc)
    ensures Go(Go(s, t, p), t, q) == Go(s, t, q)
  {
    assert s.threads[t := p][t := q] == s.threads[t := q];
  }

  ghost predicate Quiet(s: State) {
    forall u :: u in s.threads ==> s.threads[u].Idle?
  }

  /** A lookup of a name that is in the primary hash is handed out its dentry. */
  lemma {:induction false} FindsHashed(s: State, t: Thread, k: Key, n: Dentry, d: Dentry)
    requires Quiet(s) && n !in s.key && d in s.hashed && Has(s, d, k)
    ensures Leads(s, [StartLookup(t, k, n)] + ([DoReadSeq(t)] + ([HashHit(t, d)] + [])),
        Go(s.(key := s.key[n := k]), t, Got(k, d)))
  {
    var x := s.(key := s.key[n := k]);
    var q := Now(s, k.dir);
    GoOn(x, t, ReadSeq(k, n), LookHash(k, n, q));
    GoOn(x, t, LookHash(k, n, q), Got(k, d));
    LeadsThen(Go(x, t, LookHash(k, n, q)), HashHit(t, d), Go(x, t, Got(k, d)), [], Go(x, t, Got(k, d)));
    LeadsThen(Go(x, t, ReadSeq(k, n)), DoReadSeq(t), Go(x, t, LookHash(k, n, q)), [HashHit(t, d)] + [],
        Go(x, t, Got(k, d)));
    LeadsThen(s, StartLookup(t, k, n), Go(x, t, ReadSeq(k, n)), [DoReadSeq(t)] + ([HashHit(t, d)] + []),
        Go(x, t, Got(k, d)));
  }

  /** With this dentry of its own a thread comes from one place to another, tables and numbers being those of `x`. */
  ghost predicate Passes(x: State, t: Thread, p: Pc, e: Event, q: Pc) {
    Can(Go(x, t, p), e) && Do(Go(x, t, p), e) == Go(x, t, q)
  }

  lemma {:induction false} LooksInVain(x: State, t: Thread, k: Key, n: Dentry, q: nat)
    requires q == Now(x, k.dir) && q % 2 == 0 && NoHashed(x, k)
    ensures Passes(x, t, ReadSeq(k, n), DoReadSeq(t), LookHash(k, n, q))
    ensures Passes(x, t, LookHash(k, n, q), HashMiss(t), TakeBucket(k, n, q))
  {
    GoOn(x, t, ReadSeq(k, n), LookHash(k, n, q));
    GoOn(x, t, LookHash(k, n, q), TakeBucket(k, n, q));
  }

  lemma {:induction false} ScansInVain(x: State, t: Thread, k: Key, n: Dentry, q: nat)
    requires Quiet(x) && q == Now(x, k.dir) && NoLooking(x, k)
    ensures Passes(x, t, TakeBucket(k, n, q), LockBucket(t), CheckSeq(k, n, q))
    ensures Passes(x, t, CheckSeq(k, n, q), DoCheck(t), Scan(k, n))
    ensures Passes(x, t, Scan(k, n), ScanMiss(t), Insert(k, n))
  {
    GoOn(x, t, TakeBucket(k, n, q), CheckSeq(k, n, q));
    GoOn(x, t, CheckSeq(k, n, q), Scan(k, n));
    GoOn(x, t, Scan(k, n), Insert(k, n));
  }

  lemma {:induction false} PassesThen(x: State, t: Thread, p: Pc, a: Event, q: Pc, es: seq<Event>, e: State)
    requires Passes(x, t, p, a, q) && Leads(Go(x, t, q), es, e)
    ensures Leads(Go(x, t, p), [a] + es, e)
  {
    LeadsThen(Go(x, t, p), a, Go(x, t, q), es, e);
  }

  /** The events of a lookup that finds nothing. */
  function InVain(t: Thread, es: seq<Event>): seq<Event> {
    [DoReadSeq(t)] + ([HashMiss(t)] + ([LockBucket(t)] + ([DoCheck(t)] + ([ScanMiss(t)] + ([DoInsert(t)] + es)))))
  }

  /** A lookup of a name that is in no table puts its own dentry into the in-lookup table and goes on from there. */
  lemma {:induction false} MakesNew(s: State, t: Thread, k: Key, n: Dentry, es: seq<Event>, e: State)
    requires Quiet(s) && n !in s.key && Now(s, k.dir) % 2 == 0
    requires NoHashed(s, k) && NoLooking(s, k) && Unique(s)
    requires Leads(Go(s.(key := s.key[n := k], inLookup := s.inLookup + {n}), t, Own(k, n)), es, e)
    ensures Leads(s, [StartLookup(t, k, n)] + InVain(t, es), e)
  {
    var x := s.(key := s.key[n := k]);
    var q := Now(s, k.dir);
    var l := x.(inLookup := s.inLookup + {n});
    assert NoHashed(x, k) && NoLooking(x, k);
    LooksInVain(x, t, k, n, q);
    ScansInVain(x, t, k, n, q);
    GoOn(l, t, Insert(k, n), Own(k, n));
    LeadsThen(Go(x, t, Insert(k, n)), DoInsert(t), Go(l, t, Own(k, n)), es, e);
    var e5 := [DoInsert(t)] + es;
    PassesThen(x, t, Scan(k, n), ScanMiss(t), Insert(k, n), e5, e);
    var e4 := [ScanMiss(t)] + e5;
    PassesThen(x, t, CheckSeq(k, n, q), DoCheck(t), Scan(k, n), e4, e);
    var e3 := [DoCheck(t)] + e4;
    PassesThen(x, t, TakeBucket(k, n, q), LockBucket(t), CheckSeq(k, n, q), e3, e);
    var e2 := [LockBucket(t)] + e3;
    PassesThen(x, t, LookHash(k, n, q), HashMiss(t), TakeBucket(k, n, q), e2, e);
    PassesThen(x, t, ReadSeq(k, n), DoReadSeq(t), LookHash(k, n, q), [HashMiss(t)] + e2, e);
    LeadsThen(s, StartLookup(t, k, n), Go(x, t, ReadSeq(k, n)), InVain(t, es), e);
  }

  /** The owner of an in-lookup dentry adds it: it is in the primary hash, the number of the directory two higher. */
  lemma {:induction false} AddsOwn(s: State, t: Thread, k: Key, d: Dentry)
    requires Quiet(s) && d in s.inLookup && Now(s, k.dir) % 2 == 0
    ensures var n := Now(s, k.dir);
      Leads(Go(s, t, Own(k, d)), [Add(t)] + ([DoStart(t)] + ([DoLeave(t)] + ([DoRehash(t)] + ([DoEnd(t)] + [])))),
        Go(s.(inLookup := s.inLookup - {d}, hashed := s.hashed + {d}, seqs := s.seqs[k.dir := n + 2]), t, Got(k, d)))
  {
    var n := Now(s, k.dir);
    var s1 := s.(seqs := s.seqs[k.dir := n + 1]);
    AddsRest(s1, t, k, d, n);
    assert s1.seqs[k.dir := n + 2] == s.seqs[k.dir := n + 2];
    var es := [DoLeave(t)] + ([DoRehash(t)] + ([DoEnd(t)] + []));
    var e := Go(s1.(inLookup := s.inLookup - {d}, hashed := s.hashed + {d}, seqs := s1.seqs[k.dir := n + 2]), t,
      Got(k, d));
    GoOn(s, t, Own(k, d), StartAdd(k, d));
    GoOn(s1, t, StartAdd(k, d), LeaveTable(k, d, n));
    LeadsThen(Go(s, t, StartAdd(k, d)), DoStart(t), Go(s1, t, LeaveTable(k, d, n)), es, e);
    LeadsThen(Go(s, t, Own(k, d)), Add(t), Go(s, t, StartAdd(k, d)), [DoStart(t)] + es, e);
  }

  lemma {:induction false} AddsRest(s: State, t: Thread, k: Key, d: Dentry, n: nat)
    requires Quiet(s)
    ensures Leads(Go(s, t, LeaveTable(k, d, n)), [DoLeave(t)] + ([DoRehash(t)] + ([DoEnd(t)] + [])),
        Go(s.(inLookup := s.inLookup - {d}, hashed := s.hashed + {d}, seqs := s.seqs[k.dir := n + 2]), t, Got(k, d)))
  {
    var s2 := s.(inLookup := s.inLookup - {d});
    var s3 := s2.(hashed := s.hashed + {d});
    var s4 := s3.(seqs := s.seqs[k.dir := n + 2]);
    var e := Go(s4, t, Got(k, d));
    GoOn(s2, t, LeaveTable(k, d, n), Rehash(k, d, n));
    GoOn(s3, t, Rehash(k, d, n), EndAdd(k, d, n));
    GoOn(s4, t, EndAdd(k, d, n), Got(k, d));
    LeadsThen(Go(s3, t, EndAdd(k, d, n)), DoEnd(t), e, [], e);
    LeadsThen(Go(s2, t, Rehash(k, d, n)), DoRehash(t), Go(s3, t, EndAdd(k, d, n)), [DoEnd(t)] + [], e);
    LeadsThen(Go(s, t, LeaveTable(k, d, n)), DoLeave(t), Go(s2, t, Rehash(k, d, n)),
        [DoRehash(t)] + ([DoEnd(t)] + []), e);
  }

  /** All are idle but `u`, which owns the in-lookup dentry `d`. */
  ghost predicate OnlyOwner(s: State, u: Thread, k: Key, d: Dentry) {
    PcOf(s, u) == Own(k, d) && d in s.inLookup && Has(s, d, k)
    && forall v :: v in s.threads && v != u ==> s.threads[v].Idle?
  }

  /** The events of a lookup that meets another one of the same name. */
  function Meeting(t: Thread, d: Dentry, es: seq<Event>): seq<Event> {
    [DoReadSeq(t)] + ([HashMiss(t)] + ([LockBucket(t)] + ([DoCheck(t)] + ([ScanHit(t, d)] + es))))
  }

  lemma {:induction false} ScansOwner(x: State, t: Thread, u: Thread, k: Key, n: Dentry, d: Dentry, q: nat)
    requires OnlyOwner(x, u, k, d) && t != u && q == Now(x, k.dir)
    ensures Passes(x, t, TakeBucket(k, n, q), LockBucket(t), CheckSeq(k, n, q))
    ensures Passes(x, t, CheckSeq(k, n, q), DoCheck(t), Scan(k, n))
    ensures Passes(x, t, Scan(k, n), ScanHit(t, d), Wait(k, n, d))
  {
    GoOn(x, t, TakeBucket(k, n, q), CheckSeq(k, n, q));
    GoOn(x, t, CheckSeq(k, n, q), Scan(k, n));
    GoOn(x, t, Scan(k, n), Wait(k, n, d));
  }

  /** A lookup of a name that is being looked up waits for the dentry of the first, */
  lemma {:induction false} WaitsForOwner(s: State, t: Thread, u: Thread, k: Key, n: Dentry, d: Dentry, es: seq<Event>,
      e: State)
    requires OnlyOwner(s, u, k, d) && PcOf(s, t).Idle? && n !in s.key && Now(s, k.dir) % 2 == 0
    requires NoHashed(s, k) && Unique(s) && Leads(Go(s.(key := s.key[n := k]), t, Wait(k, n, d)), es, e)
    ensures Leads(s, [StartLookup(t, k, n)] + Meeting(t, d, es), e)
  {
    var x := s.(key := s.key[n := k]);
    var q := Now(s, k.dir);
    assert NoHashed(x, k) && OnlyOwner(x, u, k, d);
    LooksInVain(x, t, k, n, q);
    ScansOwner(x, t, u, k, n, d, q);
    PassesThen(x, t, Scan(k, n), ScanHit(t, d), Wait(k, n, d), es, e);
    var e4 := [ScanHit(t, d)] + es;
    PassesThen(x, t, CheckSeq(k, n, q), DoCheck(t), Scan(k, n), e4, e);
    var e3 := [DoCheck(t)] + e4;
    PassesThen(x, t, TakeBucket(k, n, q), LockBucket(t), CheckSeq(k, n, q), e3, e);
    var e2 := [LockBucket(t)] + e3;
    PassesThen(x, t, LookHash(k, n, q), HashMiss(t), TakeBucket(k, n, q), e2, e);
    PassesThen(x, t, ReadSeq(k, n), DoReadSeq(t), LookHash(k, n, q), [HashMiss(t)] + e2, e);
    LeadsThen(s, StartLookup(t, k, n), Go(x, t, ReadSeq(k, n)), Meeting(t, d, es), e);
  }

  /** cannot go on while that is in the in-lookup table, and is handed it out once it is in the primary hash. */
  lemma {:induction false} WaitsAndGets(s: State, t: Thread, k: Key, n: Dentry, d: Dentry)
    requires PcOf(s, t) == Wait(k, n, d)
    ensures d in s.inLookup ==> !Can(s, WaitDone(t))
    ensures d !in s.inLookup && d in s.hashed ==> Leads(s, [WaitDone(t)] + [], Go(s, t, Got(k, d)))
  {
    if d !in s.inLookup && d in s.hashed {
      LeadsThen(s, WaitDone(t), Go(s, t, Got(k, d)), [], Go(s, t, Got(k, d)));
    }
  }
}
