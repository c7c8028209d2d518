/** The protocol of `d_alloc_parallel` in `fs/dcache.c`: any number of threads look names up in
    directories they hold shared, others insert under the exclusive lock. Every access to shared
    memory is a step; the locks are guards of steps. */
module Dcache {

  type Dentry = nat
  type Thread = nat

  datatype Key = Key(dir: nat, name: nat)

  /** Where a thread is, in the order of the code. `k` is what it looks up, `new` the dentry from
      `d_alloc`, `seq` the value read from `i_dir_seq`, `n` that of `start_dir_add`. */
  datatype Pc =
    | Idle
    | ReadSeq(k: Key, new_: Dentry)
    | LookHash(k: Key, new_: Dentry, seq_: nat)
    | TakeBucket(k: Key, new_: Dentry, seq_: nat)
    | CheckSeq(k: Key, new_: Dentry, seq_: nat)
    | Scan(k: Key, new_: Dentry)
    | Insert(k: Key, new_: Dentry)
    | Wait(k: Key, new_: Dentry, on: Dentry)
    | Own(k: Key, d: Dentry)
    | StartAdd(k: Key, d: Dentry)
    | LeaveTable(k: Key, d: Dentry, n: nat)
    | Rehash(k: Key, d: Dentry, n: nat)
    | EndAdd(k: Key, d: Dentry, n: nat)
    | Got(k: Key, d: Dentry)
    | XLook(k: Key)
    | XAdd(k: Key, new_: Dentry)

  /** The dentries with their keys, the in-lookup table and the primary hash, `i_dir_seq` of each
      directory, the threads, and the hash function that gives the buckets of the in-lookup table. */
  datatype State = State(
    key: map<Dentry, Key>,
    inLookup: set<Dentry>,
    hashed: set<Dentry>,
    seqs: map<nat, nat>,
    threads: map<Thread, Pc>,
    bucket: Key -> nat)

  function PcOf(s: State, t: Thread): Pc {
    if t in s.threads then s.threads[t] else Idle
  }

  function Now(s: State, dir: nat): nat {
    if dir in s.seqs then s.seqs[dir] else 0
  }

  predicate Has(s: State, d: Dentry, k: Key) {
    d in s.key && s.key[d] == k
  }

  predicate Exclusive(p: Pc) {
    p.XLook? || p.XAdd?
  }

  /** The thread holds the bucket lock. */
  predicate InBucket(p: Pc) {
    p.CheckSeq? || p.Scan? || p.Insert?
  }

  /** Between `start_dir_add` and `end_dir_add`. */
  predicate Adding(p: Pc) {
    p.LeaveTable? || p.Rehash? || p.EndAdd?
  }

  /** The thread has an in-lookup dentry. */
  predicate Owner(p: Pc) {
    p.Own? || p.StartAdd? || p.LeaveTable?
  }

  /** The thread has a dentry of its own from `d_alloc`. */
  predicate HasNew(p: Pc) {
    p.ReadSeq? || p.LookHash? || p.TakeBucket? || p.CheckSeq? || p.Scan? || p.Insert? || p.Wait? || p.XAdd?
  }

  predicate BucketFree(s: State, b: nat) {
    forall t :: t in s.threads && InBucket(s.threads[t]) ==> s.bucket(s.threads[t].k) != b
  }

  // ---------------------------------------------------------------- the steps

  datatype Event =
    | StartLookup(t: Thread, k: Key, d: Dentry)
    | DoReadSeq(t: Thread)
    | HashHit(t: Thread, d: Dentry)
    | HashMiss(t: Thread)
    | Retry(t: Thread)
    | LockBucket(t: Thread)
    | DoCheck(t: Thread)
    | ScanHit(t: Thread, d: Dentry)
    | ScanMiss(t: Thread)
    | DoInsert(t: Thread)
    | WaitDone(t: Thread)
    | Add(t: Thread)
    | DoStart(t: Thread)
    | DoLeave(t: Thread)
    | DoRehash(t: Thread)
    | DoEnd(t: Thread)
    | GiveUp(t: Thread)
    | Release(t: Thread)
    | XStart(t: Thread, k: Key)
    | XHit(t: Thread, d: Dentry)
    | XMiss(t: Thread, d: Dentry)
    | XInsert(t: Thread)
    | Drop(d: Dentry)

  /** When a step can be taken. `__d_add` holds `d_lock` to its end, which keeps its dentry from being dropped. */
  predicate Can(s: State, e: Event) {
    match e
    case StartLookup(t, k, d) =>
      PcOf(s, t).Idle? && d !in s.key && forall u :: u in s.threads && Exclusive(s.threads[u]) ==>
          s.threads[u].k.dir != k.dir
    case DoReadSeq(t) => PcOf(s, t).ReadSeq?
    case HashHit(t, d) => PcOf(s, t).LookHash? && d in s.hashed && Has(s, d, PcOf(s, t).k)
    case HashMiss(t) => PcOf(s, t).LookHash? && forall d :: d in s.hashed ==> !Has(s, d, PcOf(s, t).k)
    case Retry(t) => PcOf(s, t).LookHash? || PcOf(s, t).Wait?
    case LockBucket(t) => PcOf(s, t).TakeBucket? && BucketFree(s, s.bucket(PcOf(s, t).k))
    case DoCheck(t) => PcOf(s, t).CheckSeq?
    case ScanHit(t, d) => PcOf(s, t).Scan? && d in s.inLookup && Has(s, d, PcOf(s, t).k)
    case ScanMiss(t) => PcOf(s, t).Scan? && forall d :: d in s.inLookup ==> !Has(s, d, PcOf(s, t).k)
    case DoInsert(t) => PcOf(s, t).Insert?
    case WaitDone(t) => PcOf(s, t).Wait? && PcOf(s, t).on !in s.inLookup
    case Add(t) => PcOf(s, t).Own?
    case DoStart(t) => PcOf(s, t).StartAdd? && Now(s, PcOf(s, t).k.dir) % 2 == 0
    case DoLeave(t) => PcOf(s, t).LeaveTable? && BucketFree(s, s.bucket(PcOf(s, t).k))
    case DoRehash(t) => PcOf(s, t).Rehash?
    case DoEnd(t) => PcOf(s, t).EndAdd?
    case GiveUp(t) => PcOf(s, t).Own? && BucketFree(s, s.bucket(PcOf(s, t).k))
    case Release(t) => PcOf(s, t).Got?
    case XStart(t, k) => PcOf(s, t).Idle? && forall u :: u in s.threads && !s.threads[u].Idle? ==>
        s.threads[u].k.dir != k.dir
    case XHit(t, d) => PcOf(s, t).XLook? && d in s.hashed && Has(s, d, PcOf(s, t).k)
    case XMiss(t, d) => PcOf(s, t).XLook? && d !in s.key && forall e :: e in s.hashed ==> !Has(s, e, PcOf(s, t).k)
    case XInsert(t) => PcOf(s, t).XAdd?
    case Drop(d) => d in s.hashed && forall t :: t in s.threads && s.threads[t].EndAdd? ==> s.threads[t].d != d
  }

  function Go(s: State, t: Thread, p: Pc): State {
    s.(threads := s.threads[t := p])
  }

  function Do(s: State, e: Event): State
    requires Can(s, e)
  {
    match e
    case StartLookup(t, k, d) => Go(s.(key := s.key[d := k]), t, ReadSeq(k, d))
    case DoReadSeq(t) => var p := s.threads[t]; Go(s, t, LookHash(p.k, p.new_, Now(s, p.k.dir)))
    case HashHit(t, d) => Go(s, t, Got(s.threads[t].k, d))
    case HashMiss(t) =>
      var p := s.threads[t];
      Go(s, t, if p.seq_ % 2 == 1 then ReadSeq(p.k, p.new_) else TakeBucket(p.k, p.new_, p.seq_))
    case Retry(t) => var p := s.threads[t]; Go(s, t, ReadSeq(p.k, p.new_))
    case LockBucket(t) => var p := s.threads[t]; Go(s, t, CheckSeq(p.k, p.new_, p.seq_))
    case DoCheck(t) =>
      var p := s.threads[t];
      Go(s, t, if Now(s, p.k.dir) != p.seq_ then ReadSeq(p.k, p.new_) else Scan(p.k, p.new_))
    case ScanHit(t, d) => var p := s.threads[t]; Go(s, t, Wait(p.k, p.new_, d))
    case ScanMiss(t) => var p := s.threads[t]; Go(s, t, Insert(p.k, p.new_))
    case DoInsert(t) =>
      var p := s.threads[t];
      Go(s.(inLookup := s.inLookup + {p.new_}), t, Own(p.k, p.new_))
    case WaitDone(t) =>
      var p := s.threads[t];
      Go(s, t, if p.on in s.hashed then Got(p.k, p.on) else ReadSeq(p.k, p.new_))
    case Add(t) => var p := s.threads[t]; Go(s, t, StartAdd(p.k, p.d))
    case DoStart(t) =>
      var p := s.threads[t];
      var n := Now(s, p.k.dir);
      Go(s.(seqs := s.seqs[p.k.dir := n + 1]), t, LeaveTable(p.k, p.d, n))
    case DoLeave(t) =>
      var p := s.threads[t];
      Go(s.(inLookup := s.inLookup - {p.d}), t, Rehash(p.k, p.d, p.n))
    case DoRehash(t) =>
      var p := s.threads[t];
      Go(s.(hashed := s.hashed + {p.d}), t, EndAdd(p.k, p.d, p.n))
    case DoEnd(t) => var p := s.threads[t]; Go(s.(seqs := s.seqs[p.k.dir := p.n + 2]), t, Got(p.k, p.d))
    case GiveUp(t) => var p := s.threads[t]; Go(s.(inLookup := s.inLookup - {p.d}), t, Got(p.k, p.d))
    case Release(t) => Go(s, t, Idle)
    case XStart(t, k) => Go(s, t, XLook(k))
    case XHit(t, d) => Go(s, t, Idle)
    case XMiss(t, d) => var p := s.threads[t]; Go(s.(key := s.key[d := p.k]), t, XAdd(p.k, d))
    case XInsert(t) => var p := s.threads[t]; Go(s.(hashed := s.hashed + {p.new_}), t, Idle)
    case Drop(d) => s.(hashed := s.hashed - {d})
  }

  // ---------------------------------------------------------------- what every step keeps

  ghost predicate NoHashed(s: State, k: Key) {
    forall d :: d in s.hashed ==> !Has(s, d, k)
  }

  ghost predicate NoLooking(s: State, k: Key) {
    forall d :: d in s.inLookup ==> !Has(s, d, k)
  }

  /** At most one dentry per parent and name, the two tables taken together. */
  ghost predicate Unique(s: State) {
    true == ((forall d :: d in s.inLookup || d in s.hashed ==> d in s.key)
    && (forall d, e :: d in s.inLookup + s.hashed && e in s.inLookup + s.hashed && s.key[d] == s.key[e] ==> d == e)
    && s.inLookup * s.hashed == {})
  }

  /** Every in-lookup dentry is some thread's. */
  ghost predicate Claimed(s: State) {
    true == (forall d :: d in s.inLookup ==> exists t :: t in s.threads && Owner(s.threads[t]) && s.threads[t].d == d)
  }

  /** The dentry that nobody else may put into a table. */
  function Mine(p: Pc): set<Dentry> {
    if HasNew(p) then {p.new_} else if Owner(p) || p.Rehash? then {p.d} else {}
  }

  /** What a thread knows where it is. */
  ghost predicate PcOk(s: State, p: Pc) {
    true == ((HasNew(p) ==> Has(s, p.new_, p.k) && p.new_ !in s.inLookup && p.new_ !in s.hashed)
    && (Owner(p) ==> Has(s, p.d, p.k) && p.d in s.inLookup)
    && (Adding(p) ==> p.n % 2 == 0 && Now(s, p.k.dir) == p.n + 1)
    && match p
       case LookHash(k, _, q) => q <= Now(s, k.dir)
       case TakeBucket(k, _, q) => q <= Now(s, k.dir) && q % 2 == 0 && (q == Now(s, k.dir) ==> NoHashed(s, k))
       case CheckSeq(k, _, q) => q <= Now(s, k.dir) && q % 2 == 0 && (q == Now(s, k.dir) ==> NoHashed(s, k))
       case Scan(k, _) => NoHashed(s, k)
       case Insert(k, _) => NoHashed(s, k) && NoLooking(s, k)
       case Rehash(k, d, _) => Has(s, d, k) && NoHashed(s, k) && NoLooking(s, k)
       case XAdd(k, _) => NoHashed(s, k)
       case Wait(k, _, d) => Has(s, d, k)
       case EndAdd(k, d, _) => Has(s, d, k) && d in s.hashed
       case Got(k, d) => Has(s, d, k)
       case _ => true)
  }

  /** What two threads owe each other. */
  ghost predicate PairOk(s: State, p: Pc, q: Pc) {
    true == (Mine(p) * Mine(q) == {}
    && (InBucket(p) && InBucket(q) ==> s.bucket(p.k) != s.bucket(q.k))
    && (Adding(p) && Adding(q) ==> p.k.dir != q.k.dir)
    && (Exclusive(p) && !q.Idle? ==> p.k.dir != q.k.dir)
    && ((p.Scan? || p.Insert?) && q.Rehash? ==> p.k != q.k))
  }

  ghost predicate Inv(s: State) {
    true == (Unique(s) && Claimed(s)
    && (forall t :: t in s.threads ==> PcOk(s, s.threads[t]))
    && forall t, u :: t in s.threads && u in s.threads && t != u ==> PairOk(s, s.threads[t], s.threads[u]))
  }

  predicate Init(s: State) {
    s.inLookup == s.hashed == {} && s.threads == map[]
  }

  lemma {:induction false} InitInv(s: State)
    requires Init(s)
    ensures Inv(s)
  {}

  /** One thread has moved from a state of the invariant to `p`. */
  lemma {:induction false} Assemble(s: State, s': State, t: Thread, p: Pc)
    requires Inv(s) && s'.threads == s.threads[t := p] && s'.bucket == s.bucket
    requires Unique(s') && Claimed(s') && PcOk(s', p)
    requires forall u :: u in s.threads && u != t ==>
        PcOk(s', s.threads[u]) && PairOk(s, p, s.threads[u]) && PairOk(s, s.threads[u], p)
    ensures Inv(s')
  {
    forall u, v | u in s'.threads && v in s'.threads && u != v
      ensures PairOk(s', s'.threads[u], s'.threads[v])
    {
      assert u != t && v != t ==> PairOk(s, s.threads[u], s.threads[v]);
    }
  }

  /** A thread moves, the tables stay. */
  lemma {:induction false} Moves(s: State, t: Thread, p: Pc)
    requires Inv(s) && PcOk(s, p) && (Owner(PcOf(s, t)) ==> Owner(p) && p.d == PcOf(s, t).d)
    requires forall u :: u in s.threads && u != t ==> PairOk(s, p, s.threads[u]) && PairOk(s, s.threads[u], p)
    ensures Inv(Go(s, t, p))
  {
    var s' := Go(s, t, p);
    forall u | u in s.threads
      ensures PcOk(s', s.threads[u])
    {
      assert PcOk(s, s.threads[u]);
    }
    SameClaims(s, s', t, p);
    SameTables(s, s');
    Assemble(s, s', t, p);
  }

  // ------------------------------------------------ steps that leave the tables alone

  /** `p` claims nothing that `p0` did not claim. */
  ghost predicate Tame(p0: Pc, p: Pc) {
    true == (!p0.Idle? && (!p.Idle? ==> p.k == p0.k) && Mine(p) <= Mine(p0) && (InBucket(p) ==> InBucket(p0))
    && (Adding(p) ==> Adding(p0))
    && (Exclusive(p) ==> Exclusive(p0)) && (p.Scan? || p.Insert? ==> p0.Scan? || p0.Insert?)
    && (p.Rehash? ==> p0.Rehash?))
  }

  lemma {:induction false} TamePair(s: State, p0: Pc, p: Pc, q: Pc)
    requires Tame(p0, p) && PairOk(s, p0, q) && PairOk(s, q, p0)
    ensures PairOk(s, p, q) && PairOk(s, q, p)
  {}

  lemma {:induction false} TameMoves(s: State, t: Thread, p: Pc)
    requires Inv(s) && PcOk(s, p) && Tame(PcOf(s, t), p) && (Owner(PcOf(s, t)) ==> Owner(p) && p.d == PcOf(s, t).d)
    ensures Inv(Go(s, t, p))
  {
    forall u | u in s.threads && u != t
      ensures PairOk(s, p, s.threads[u]) && PairOk(s, s.threads[u], p)
    {
      TamePair(s, s.threads[t], p, s.threads[u]);
    }
    Moves(s, t, p);
  }

  lemma {:induction false} LockKeeps(s: State, t: Thread)
    requires Inv(s) && Can(s, LockBucket(t))
    ensures Inv(Do(s, LockBucket(t)))
  {
    var p0 := s.threads[t];
    var p := CheckSeq(p0.k, p0.new_, p0.seq_);
    assert PcOk(s, p0);
    forall u | u in s.threads && u != t
      ensures PairOk(s, p, s.threads[u]) && PairOk(s, s.threads[u], p)
    {
      assert PairOk(s, p0, s.threads[u]) && PairOk(s, s.threads[u], p0);
    }
    Moves(s, t, p);
  }

  /** An unchanged even sequence number means that no one is between leaving the in-lookup table
      and the primary hash. */
  lemma {:induction false} CheckKeeps(s: State, t: Thread)
    requires Inv(s) && Can(s, DoCheck(t))
    ensures Inv(Do(s, DoCheck(t)))
  {
    var p0 := s.threads[t];
    assert PcOk(s, p0);
    if Now(s, p0.k.dir) != p0.seq_ {
      TameMoves(s, t, ReadSeq(p0.k, p0.new_));
    } else {
      var p := Scan(p0.k, p0.new_);
      forall u | u in s.threads && u != t
        ensures PairOk(s, p, s.threads[u]) && PairOk(s, s.threads[u], p)
      {
        assert PairOk(s, p0, s.threads[u]) && PairOk(s, s.threads[u], p0) && PcOk(s, s.threads[u]);
      }
      Moves(s, t, p);
    }
  }

  lemma {:induction false} XStartKeeps(s: State, t: Thread, k: Key)
    requires Inv(s) && Can(s, XStart(t, k))
    ensures Inv(Do(s, XStart(t, k)))
  {
    forall u | u in s.threads && u != t
      ensures PairOk(s, XLook(k), s.threads[u]) && PairOk(s, s.threads[u], XLook(k))
    {
    }
    Moves(s, t, XLook(k));
  }

  /** Where a thread goes that only reads. */
  lemma {:induction false} ReadMoves(s: State, t: Thread, p: Pc)
    requires Inv(s) && t in s.threads && PcOk(s, p) && Tame(s.threads[t], p)
    requires Owner(s.threads[t]) ==> Owner(p) && p.d == s.threads[t].d
    ensures Inv(Go(s, t, p))
  {
    TameMoves(s, t, p);
  }

  lemma {:induction false} LookKeeps(s: State, e: Event)
    requires Inv(s) && Can(s, e) && (e.DoReadSeq? || e.HashHit? || e.Retry?)
    ensures Inv(Do(s, e))
  {
    var p := s.threads[e.t];
    assert PcOk(s, p);
    match e {
      case DoReadSeq(t) => ReadMoves(s, t, LookHash(p.k, p.new_, Now(s, p.k.dir)));
      case HashHit(t, d) => ReadMoves(s, t, Got(p.k, d));
      case Retry(t) => ReadMoves(s, t, ReadSeq(p.k, p.new_));
    }
  }

  lemma {:induction false} MissKeeps(s: State, t: Thread)
    requires Inv(s) && Can(s, HashMiss(t))
    ensures Inv(Do(s, HashMiss(t)))
  {
    var p := s.threads[t];
    assert PcOk(s, p);
    ReadMoves(s, t, if p.seq_ % 2 == 1 then ReadSeq(p.k, p.new_) else TakeBucket(p.k, p.new_, p.seq_));
  }

  lemma {:induction false} ScanKeeps(s: State, e: Event)
    requires Inv(s) && Can(s, e) && (e.ScanHit? || e.ScanMiss?)
    ensures Inv(Do(s, e))
  {
    var p := s.threads[e.t];
    assert PcOk(s, p);
    match e {
      case ScanHit(t, d) => ReadMoves(s, t, Wait(p.k, p.new_, d));
      case ScanMiss(t) => ReadMoves(s, t, Insert(p.k, p.new_));
    }
  }

  lemma {:induction false} WaitKeeps(s: State, t: Thread)
    requires Inv(s) && Can(s, WaitDone(t))
    ensures Inv(Do(s, WaitDone(t)))
  {
    var p := s.threads[t];
    assert PcOk(s, p);
    ReadMoves(s, t, if p.on in s.hashed then Got(p.k, p.on) else ReadSeq(p.k, p.new_));
  }

  lemma {:induction false} EndKeeps(s: State, e: Event)
    requires Inv(s) && Can(s, e) && (e.Add? || e.Release? || e.XHit?)
    ensures Inv(Do(s, e))
  {
    var p := s.threads[e.t];
    assert PcOk(s, p);
    match e {
      case Add(t) => ReadMoves(s, t, StartAdd(p.k, p.d));
      case Release(t) => ReadMoves(s, t, Idle);
      case XHit(t, _) => ReadMoves(s, t, Idle);
    }
  }

  // ------------------------------------------------ steps that write

  /** A new dentry is known to no one. */
  lemma {:induction false} NewDentry(s: State, s': State, d: Dentry, k: Key, q: Pc)
    requires d !in s.key && s' == s.(key := s.key[d := k]) && Unique(s) && PcOk(s, q)
    ensures PcOk(s', q) && d !in Mine(q)
  {}

  lemma {:induction false} StartKeeps(s: State, t: Thread, k: Key, d: Dentry)
    requires Inv(s) && Can(s, StartLookup(t, k, d))
    ensures Inv(Do(s, StartLookup(t, k, d)))
  {
    var s1 := s.(key := s.key[d := k]);
    var p := ReadSeq(k, d);
    NewKey(s, s1, d, k);
    forall u | u in s.threads && u != t
      ensures PairOk(s1, p, s.threads[u]) && PairOk(s1, s.threads[u], p)
    {
      NewDentry(s, s1, d, k, s.threads[u]);
    }
    Moves(s1, t, p);
  }

  lemma {:induction false} NewKey(s: State, s1: State, d: Dentry, k: Key)
    requires Inv(s) && d !in s.key && s1 == s.(key := s.key[d := k])
    ensures Inv(s1)
  {
    forall u | u in s.threads
      ensures PcOk(s1, s.threads[u])
    {
      NewDentry(s, s1, d, k, s.threads[u]);
    }
    forall u, v | u in s.threads && v in s.threads && u != v
      ensures PairOk(s1, s.threads[u], s.threads[v])
    {
      assert PairOk(s, s.threads[u], s.threads[v]);
    }
    assert Unique(s1) && Claimed(s1);
  }

  lemma {:induction false} XMissKeeps(s: State, t: Thread, d: Dentry)
    requires Inv(s) && Can(s, XMiss(t, d))
    ensures Inv(Do(s, XMiss(t, d)))
  {
    var k := s.threads[t].k;
    var s1 := s.(key := s.key[d := k]);
    var p := XAdd(k, d);
    NewKey(s, s1, d, k);
    forall u | u in s.threads && u != t
      ensures PairOk(s1, p, s.threads[u]) && PairOk(s1, s.threads[u], p)
    {
      NewDentry(s, s1, d, k, s.threads[u]);
      assert PairOk(s, s.threads[t], s.threads[u]) && PairOk(s, s.threads[u], s.threads[t]);
    }
    assert PcOk(s1, p);
    Moves(s1, t, p);
  }

  // -- into the in-lookup table

  lemma {:induction false} InsertOthers(s: State, s': State, p0: Pc, q: Pc)
    requires p0.Insert? && PcOk(s, p0) && PcOk(s, q) && PairOk(s, p0, q) && PairOk(s, q, p0)
    requires s'.key == s.key && s'.hashed == s.hashed && s'.seqs == s.seqs && s'.inLookup == s.inLookup + {p0.new_}
    ensures PcOk(s', q)
  {
    assert q.Insert? || q.Rehash? ==> q.k != p0.k;
  }

  lemma {:induction false} InsertUnique(s: State, s': State, p0: Pc)
    requires Unique(s) && p0.Insert? && PcOk(s, p0)
    requires s'.key == s.key && s'.hashed == s.hashed && s'.inLookup == s.inLookup + {p0.new_}
    ensures Unique(s')
  {}

  lemma {:induction false} InsertStep(s: State, s': State, t: Thread)
    requires Inv(s) && t in s.threads && s.threads[t].Insert?
    requires var p := s.threads[t];
      s' == Go(s.(inLookup := s.inLookup + {p.new_}), t, Own(p.k, p.new_))
    ensures Inv(s')
  {
    var p0 := s.threads[t];
    var p := Own(p0.k, p0.new_);
    assert PcOk(s, p0);
    forall u | u in s.threads && u != t
      ensures PcOk(s', s.threads[u]) && PairOk(s, p, s.threads[u]) && PairOk(s, s.threads[u], p)
    {
      TamePair(s, p0, p, s.threads[u]);
      InsertOthers(s, s', p0, s.threads[u]);
    }
    InsertClaimed(s, s', t, p);
    InsertUnique(s, s', p0);
    assert PcOk(s', p);
    Assemble(s, s', t, p);
  }

  lemma {:induction false} InsertKeeps(s: State, t: Thread)
    requires Inv(s) && Can(s, DoInsert(t))
    ensures Inv(Do(s, DoInsert(t)))
  {
    InsertStep(s, Do(s, DoInsert(t)), t);
  }

  lemma {:induction false} InsertClaimed(s: State, s': State, t: Thread, p: Pc)
    requires Claimed(s) && s'.threads == s.threads[t := p] && !Owner(PcOf(s, t)) && Owner(p)
    requires s'.inLookup == s.inLookup + {p.d}
    ensures Claimed(s')
  {
    forall d | d in s'.inLookup
      ensures exists u :: u in s'.threads && Owner(s'.threads[u]) && s'.threads[u].d == d
    {
      if d == p.d {
        assert t in s'.threads && Owner(s'.threads[t]) && s'.threads[t].d == d;
      } else {
        var u :| u in s.threads && Owner(s.threads[u]) && s.threads[u].d == d;
        assert u in s'.threads && Owner(s'.threads[u]) && s'.threads[u].d == d;
      }
    }
  }

  // -- out of the in-lookup table

  lemma {:induction false} LeaveClaimed(s: State, s': State, t: Thread, p: Pc)
    requires Claimed(s) && s'.threads == s.threads[t := p] && Owner(PcOf(s, t))
    requires s'.inLookup == s.inLookup - {PcOf(s, t).d}
    ensures Claimed(s')
  {
    forall d | d in s'.inLookup
      ensures exists u :: u in s'.threads && Owner(s'.threads[u]) && s'.threads[u].d == d
    {
      var u :| u in s.threads && Owner(s.threads[u]) && s.threads[u].d == d;
      assert u in s'.threads && Owner(s'.threads[u]) && s'.threads[u].d == d;
    }
  }

  lemma {:induction false} LeaveOthers(s: State, s': State, p0: Pc, q: Pc)
    requires Owner(p0) && PcOk(s, q) && PairOk(s, p0, q)
    requires s'.key == s.key && s'.hashed == s.hashed && s'.seqs == s.seqs && s'.inLookup == s.inLookup - {p0.d}
    ensures PcOk(s', q)
  {
    assert p0.d in Mine(p0) && (Owner(q) ==> q.d in Mine(q));
    assert p0.d !in Mine(p0) * Mine(q);
  }

  /** An in-lookup dentry is the only one of its key. */
  lemma {:induction false} OnlyOne(s: State, d: Dentry, k: Key)
    requires Unique(s) && d in s.inLookup && Has(s, d, k)
    ensures NoHashed(s, k) && NoLooking(s.(inLookup := s.inLookup - {d}), k)
  {
    forall e | e in s.inLookup + s.hashed && Has(s, e, k)
      ensures e == d
    {
    }
    assert d !in s.inLookup * s.hashed;
  }

  lemma {:induction false} LeaveUnique(s: State, s': State, d: Dentry)
    requires Unique(s) && s'.key == s.key && s'.hashed == s.hashed && s'.inLookup == s.inLookup - {d}
    ensures Unique(s')
  {}

  /** `__d_lookup_done`, within `__d_add` or without. */
  lemma {:induction false} LeaveStep(s: State, s': State, t: Thread, p: Pc)
    requires Inv(s) && t in s.threads && Owner(s.threads[t]) && BucketFree(s, s.bucket(s.threads[t].k))
    requires var p0 := s.threads[t];
      s' == Go(s.(inLookup := s.inLookup - {p0.d}), t, p)
      && ((p0.LeaveTable? && p == Rehash(p0.k, p0.d, p0.n)) || (p0.Own? && p == Got(p0.k, p0.d)))
    ensures Inv(s')
  {
    var p0 := s.threads[t];
    assert PcOk(s, p0);
    forall u | u in s.threads && u != t
      ensures PcOk(s', s.threads[u]) && PairOk(s, p, s.threads[u]) && PairOk(s, s.threads[u], p)
    {
      assert PairOk(s, p0, s.threads[u]) && PairOk(s, s.threads[u], p0);
      LeaveOthers(s, s', p0, s.threads[u]);
      LeavePair(s, p0, p, s.threads[u]);
    }
    LeaveClaimed(s, s', t, p);
    OnlyOne(s, p0.d, p0.k);
    assert PcOk(s', p);
    LeaveUnique(s, s', p0.d);
    Assemble(s, s', t, p);
  }

  lemma {:induction false} LeavePair(s: State, p0: Pc, p: Pc, q: Pc)
    requires (p0.LeaveTable? && p == Rehash(p0.k, p0.d, p0.n)) || (p0.Own? && p == Got(p0.k, p0.d))
    requires PairOk(s, p0, q) && PairOk(s, q, p0) && (InBucket(q) ==> s.bucket(q.k) != s.bucket(p0.k))
    ensures PairOk(s, p, q) && PairOk(s, q, p)
  {}

  lemma {:induction false} LeaveKeeps(s: State, t: Thread, e: Event)
    requires Inv(s) && Can(s, e) && (e == DoLeave(t) || e == GiveUp(t))
    ensures Inv(Do(s, e))
  {
    LeaveStep(s, Do(s, e), t, Do(s, e).threads[t]);
  }

  // -- into and out of the primary hash

  lemma {:induction false} RehashOthers(s: State, s': State, p0: Pc, q: Pc)
    requires p0.Rehash? && PcOk(s, p0) && PcOk(s, q) && PairOk(s, p0, q) && PairOk(s, q, p0)
    requires s'.key == s.key && s'.inLookup == s.inLookup && s'.seqs == s.seqs && s'.hashed == s.hashed + {p0.d}
    ensures PcOk(s', q)
  {
    assert p0.d !in Mine(p0) * Mine(q) && p0.d in Mine(p0);
    assert q.Scan? || q.Insert? || q.Rehash? || q.XAdd? ==> q.k != p0.k;
    assert q.TakeBucket? || q.CheckSeq? ==> q.k != p0.k || q.seq_ != Now(s, q.k.dir);
    forall k | k != p0.k && NoHashed(s, k)
      ensures NoHashed(s', k)
    {
    }
  }

  lemma {:induction false} HashUnique(s: State, s': State, d: Dentry, k: Key)
    requires Unique(s) && Has(s, d, k) && NoHashed(s, k) && NoLooking(s, k)
    requires s'.key == s.key && s'.inLookup == s.inLookup && s'.hashed == s.hashed + {d}
    ensures Unique(s')
  {}

  /** Between the tables the name is nobody else's, so the dentry may enter the hash. */
  lemma {:induction false} RehashStep(s: State, s': State, t: Thread)
    requires Inv(s) && t in s.threads && s.threads[t].Rehash?
    requires var p := s.threads[t];
      s' == Go(s.(hashed := s.hashed + {p.d}), t, EndAdd(p.k, p.d, p.n))
    ensures Inv(s')
  {
    var p0 := s.threads[t];
    var p := EndAdd(p0.k, p0.d, p0.n);
    assert PcOk(s, p0);
    forall u | u in s.threads && u != t
      ensures PcOk(s', s.threads[u]) && PairOk(s, p, s.threads[u]) && PairOk(s, s.threads[u], p)
    {
      TamePair(s, p0, p, s.threads[u]);
      RehashOthers(s, s', p0, s.threads[u]);
    }
    SameClaims(s, s', t, p);
    assert PcOk(s', p);
    HashUnique(s, s', p0.d, p0.k);
    Assemble(s, s', t, p);
  }

  lemma {:induction false} RehashKeeps(s: State, t: Thread)
    requires Inv(s) && Can(s, DoRehash(t))
    ensures Inv(Do(s, DoRehash(t)))
  {
    RehashStep(s, Do(s, DoRehash(t)), t);
  }

  lemma {:induction false} SameClaims(s: State, s': State, t: Thread, p: Pc)
    requires Claimed(s) && s'.threads == s.threads[t := p] && s'.inLookup == s.inLookup
    requires Owner(PcOf(s, t)) ==> Owner(p) && p.d == PcOf(s, t).d
    ensures Claimed(s')
  {
    forall d | d in s'.inLookup
      ensures exists u :: u in s'.threads && Owner(s'.threads[u]) && s'.threads[u].d == d
    {
      var u :| u in s.threads && Owner(s.threads[u]) && s.threads[u].d == d;
      assert u in s'.threads && Owner(s'.threads[u]) && s'.threads[u].d == d;
    }
  }

  /** Under the exclusive lock no lookup of the directory is under way. */
  lemma {:induction false} NobodyLooks(s: State, t: Thread)
    requires Inv(s) && t in s.threads && s.threads[t].XAdd?
    ensures NoLooking(s, s.threads[t].k)
  {
    forall d | d in s.inLookup
      ensures !Has(s, d, s.threads[t].k)
    {
      var u :| u in s.threads && Owner(s.threads[u]) && s.threads[u].d == d;
      assert PcOk(s, s.threads[u]) && PairOk(s, s.threads[t], s.threads[u]);
    }
  }

  lemma {:induction false} XInsertOthers(s: State, s': State, p0: Pc, q: Pc)
    requires p0.XAdd? && PcOk(s, p0) && PcOk(s, q) && PairOk(s, p0, q)
    requires s'.key == s.key && s'.inLookup == s.inLookup && s'.seqs == s.seqs && s'.hashed == s.hashed + {p0.new_}
    ensures PcOk(s', q)
  {
    assert p0.new_ !in Mine(p0) * Mine(q) && p0.new_ in Mine(p0);
    assert !q.Idle? ==> q.k != p0.k;
    forall k | k != p0.k && NoHashed(s, k)
      ensures NoHashed(s', k)
    {
    }
  }

  lemma {:induction false} XInsertStep(s: State, s': State, t: Thread)
    requires Inv(s) && t in s.threads && s.threads[t].XAdd?
    requires s' == Go(s.(hashed := s.hashed + {s.threads[t].new_}), t, Idle)
    ensures Inv(s')
  {
    var p0 := s.threads[t];
    assert PcOk(s, p0);
    NobodyLooks(s, t);
    forall u | u in s.threads && u != t
      ensures PcOk(s', s.threads[u]) && PairOk(s, Idle, s.threads[u]) && PairOk(s, s.threads[u], Idle)
    {
      TamePair(s, p0, Idle, s.threads[u]);
      XInsertOthers(s, s', p0, s.threads[u]);
    }
    SameClaims(s, s', t, Idle);
    assert PcOk(s', Idle);
    HashUnique(s, s', p0.new_, p0.k);
    Assemble(s, s', t, Idle);
  }

  lemma {:induction false} XInsertKeeps(s: State, t: Thread)
    requires Inv(s) && Can(s, XInsert(t))
    ensures Inv(Do(s, XInsert(t)))
  {
    XInsertStep(s, Do(s, XInsert(t)), t);
  }

  lemma {:induction false} DropKeeps(s: State, d: Dentry)
    requires Inv(s) && Can(s, Drop(d))
    ensures Inv(Do(s, Drop(d)))
  {
    var s' := s.(hashed := s.hashed - {d});
    forall u | u in s.threads
      ensures PcOk(s', s.threads[u])
    {
      DropOthers(s, s', d, s.threads[u]);
    }
    forall u, v | u in s.threads && v in s.threads && u != v
      ensures PairOk(s', s.threads[u], s.threads[v])
    {
      assert PairOk(s, s.threads[u], s.threads[v]);
    }
    assert Claimed(s');
    assert Unique(s');
  }

  lemma {:induction false} DropOthers(s: State, s': State, d: Dentry, q: Pc)
    requires PcOk(s, q) && s' == s.(hashed := s.hashed - {d}) && (q.EndAdd? ==> q.d != d)
    ensures PcOk(s', q)
  {}

  // -- the directory's sequence number

  lemma {:induction false} SeqOthers(s: State, s': State, dir: nat, q: Pc)
    requires PcOk(s, q) && s'.key == s.key && s'.inLookup == s.inLookup && s'.hashed == s.hashed
    requires s'.seqs == s.seqs[dir := Now(s, dir) + 1]
    requires Adding(q) ==> q.k.dir != dir
    ensures PcOk(s', q)
  {
  }

  lemma {:induction false} StartPair(s: State, p0: Pc, p: Pc, q: Pc)
    requires p0.StartAdd? && p == LeaveTable(p0.k, p0.d, Now(s, p0.k.dir)) && Now(s, p0.k.dir) % 2 == 0
    requires PairOk(s, p0, q) && PairOk(s, q, p0) && PcOk(s, q)
    ensures PairOk(s, p, q) && PairOk(s, q, p) && (Adding(q) ==> q.k.dir != p0.k.dir)
  {}

  lemma {:induction false} SameTables(s: State, s': State)
    requires Unique(s) && s'.key == s.key && s'.inLookup == s.inLookup && s'.hashed == s.hashed
    ensures Unique(s')
  {}

  lemma {:induction false} StartAddStep(s: State, s': State, t: Thread)
    requires Inv(s) && t in s.threads && s.threads[t].StartAdd? && Now(s, s.threads[t].k.dir) % 2 == 0
    requires var p, n := s.threads[t], Now(s, s.threads[t].k.dir);
      s' == Go(s.(seqs := s.seqs[p.k.dir := n + 1]), t, LeaveTable(p.k, p.d, n))
    ensures Inv(s')
  {
    var p0 := s.threads[t];
    var p := LeaveTable(p0.k, p0.d, Now(s, p0.k.dir));
    assert PcOk(s, p0);
    forall u | u in s.threads && u != t
      ensures PcOk(s', s.threads[u]) && PairOk(s, p, s.threads[u]) && PairOk(s, s.threads[u], p)
    {
      StartPair(s, p0, p, s.threads[u]);
      SeqOthers(s, s', p0.k.dir, s.threads[u]);
    }
    SameClaims(s, s', t, p);
    assert PcOk(s', p);
    SameTables(s, s');
    Assemble(s, s', t, p);
  }

  lemma {:induction false} StartAddKeeps(s: State, t: Thread)
    requires Inv(s) && Can(s, DoStart(t))
    ensures Inv(Do(s, DoStart(t)))
  {
    StartAddStep(s, Do(s, DoStart(t)), t);
  }

  lemma {:induction false} EndAddKeeps(s: State, t: Thread)
    requires Inv(s) && Can(s, DoEnd(t))
    ensures Inv(Do(s, DoEnd(t)))
  {
    var p0 := s.threads[t];
    var s' := Do(s, DoEnd(t));
    var p := Got(p0.k, p0.d);
    assert PcOk(s, p0);
    forall u | u in s.threads && u != t
      ensures PcOk(s', s.threads[u]) && PairOk(s, p, s.threads[u]) && PairOk(s, s.threads[u], p)
    {
      TamePair(s, p0, p, s.threads[u]);
      SeqOthers(s, s', p0.k.dir, s.threads[u]);
    }
    SameClaims(s, s', t, p);
    assert PcOk(s', p);
    SameTables(s, s');
    Assemble(s, s', t, p);
  }

  // ---------------------------------------------------------------- whole runs

  /** Every step of every thread keeps the invariant. */
  lemma {:induction false} StepKeeps(s: State, e: Event)
    requires Inv(s) && Can(s, e)
    ensures Inv(Do(s, e))
  {
    match e {
      case StartLookup(t, k, d) => StartKeeps(s, t, k, d);
      case LockBucket(t) => LockKeeps(s, t);
      case DoCheck(t) => CheckKeeps(s, t);
      case DoInsert(t) => InsertKeeps(s, t);
      case DoStart(t) => StartAddKeeps(s, t);
      case DoLeave(t) => LeaveKeeps(s, t, e);
      case DoRehash(t) => RehashKeeps(s, t);
      case DoEnd(t) => EndAddKeeps(s, t);
      case GiveUp(t) => LeaveKeeps(s, t, e);
      case XStart(t, k) => XStartKeeps(s, t, k);
      case XMiss(t, d) => XMissKeeps(s, t, d);
      case XInsert(t) => XInsertKeeps(s, t);
      case Drop(d) => DropKeeps(s, d);
      case DoReadSeq(_) => LookKeeps(s, e);
      case HashHit(_, _) => LookKeeps(s, e);
      case HashMiss(t) => MissKeeps(s, t);
      case Retry(_) => LookKeeps(s, e);
      case ScanHit(_, _) => ScanKeeps(s, e);
      case ScanMiss(_) => ScanKeeps(s, e);
      case WaitDone(t) => WaitKeeps(s, t);
      case _ => EndKeeps(s, e);
    }
  }

  /** The states of a run: each follows from the one before by a step. */
  ghost predicate Run(states: seq<State>, events: seq<Event>) {
    |states| == |events| + 1 && Init(states[0])
    && forall i :: 0 <= i < |events| ==> Can(states[i], events[i]) && states[i + 1] == Do(states[i], events[i])
  }

  lemma {:induction false} RunKeeps(states: seq<State>, events: seq<Event>, i: nat)
    requires Run(states, events) && i < |states|
    ensures Inv(states[i])
  {
    if i == 0 {
      InitInv(states[0]);
    } else {
      RunKeeps(states, events, i - 1);
      StepKeeps(states[i - 1], events[i - 1]);
    }
  }

  /** In every state of every run there is at most one dentry per parent and name in the in-lookup
      table and the primary hash together, and none in both. */
  lemma {:induction false} OneDentryPerName(states: seq<State>, events: seq<Event>, i: nat, d: Dentry, e: Dentry)
    requires Run(states, events) && i < |states|
    requires d in states[i].inLookup + states[i].hashed && e in states[i].inLookup + states[i].hashed
    ensures d in states[i].key && e in states[i].key && (states[i].key[d] == states[i].key[e] ==> d == e)
    ensures !(d in states[i].inLookup && d in states[i].hashed)
  {
    RunKeeps(states, events, i);
    assert d !in states[i].inLookup * states[i].hashed;
  }
}
