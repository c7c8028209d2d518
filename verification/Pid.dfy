/** `kernel/pid.c`: a pid gets one number in its namespace and in every namespace above it, all
    or none. */
module Pid {

  import opened Idr
  import opened Machine

  const PIDNS_ADDING: nat := 0x8000_0000
  const RESERVED_PIDS: nat := 300
  /** `PID_MAX_LIMIT`, an upper bound of `pid_max`. */
  const PID_MAX_LIMIT: nat := 0x40_0000

  datatype Outcome = Pid(numbers: seq<nat>) | EINVAL | EPERM | EEXIST | EAGAIN | ENOMEM

  function Put(ids: map<nat, int>, x: nat, ptr: int): map<nat, int> {
    ids[x := ptr]
  }

  /** The ids of pids that have been published: their slot holds the pid. */
  function Published(ids: map<nat, int>): set<nat> {
    set x | x in ids && ids[x] != 0
  }

  lemma {:induction false} PutUnpublished(ids: map<nat, int>, nr: nat)
    ensures nr !in ids ==> Published(Put(ids, nr, 0)) == Published(ids)
  {}

  /** From level `i` down the numbers are taken and hold `ptr`; above, nothing has changed. */
  ghost predicate Reserved(was: seq<map<nat, int>>, now: seq<map<nat, int>>, i: int, numbers: seq<nat>, ptr: int)
    requires |numbers| == |was|
  {
    true == (|now| == |was|
    && forall j :: 0 <= j < |was| ==>
      if i <= j then numbers[j] !in was[j] && now[j] == Put(was[j], numbers[j], ptr) else now[j] == was[j])
  }

  /** From level `i` down the numbers are given up; above, nothing has changed. */
  ghost predicate Released(was: seq<map<nat, int>>, now: seq<map<nat, int>>, i: int, numbers: seq<nat>)
    requires |numbers| == |was|
  {
    true == (|now| == |was| && forall j :: 0 <= j < |was| ==> now[j] == if j < i then was[j] - {numbers[j]} else was[j])
  }

  /** The counts after one pid less on the levels before `i`. */
  ghost predicate Fewer(was: seq<int>, now: seq<int>, i: int) {
    true == (|now| == |was|
    && forall j :: 0 <= j < |was| ==>
      now[j] == if i <= j then was[j] else if was[j] == PIDNS_ADDING + 1 then 0 else was[j] - 1)
  }

  /** The counts after one pid more on the levels from `i` on. */
  ghost predicate More(was: seq<int>, now: seq<int>, i: int) {
    true == (|now| == |was| && forall j :: 0 <= j < |was| ==> now[j] == was[j] + if i <= j then 1 else 0)
  }

  /** The numbers are taken; from level `i` down they hold `pid`. */
  ghost predicate Shown(was: seq<map<nat, int>>, now: seq<map<nat, int>>, i: int, numbers: seq<nat>, pid: int)
    requires |numbers| == |was|
  {
    true == (|now| == |was|
    && forall j :: 0 <= j < |was| ==>
        numbers[j] !in was[j] && now[j] == Put(was[j], numbers[j], if i <= j then pid else 0))
  }

  /** The numbers asked for at the levels after `i`. */
  ghost predicate AsWanted(numbers: seq<nat>, setTid: seq<int>, i: int, pidMax: nat) {
    true == (forall j :: 0 <= j < |numbers| && i < j ==>
      numbers[j] < pidMax && (|numbers| - 1 - j < |setTid| ==> numbers[j] == setTid[|numbers| - 1 - j]))
  }

  /** The least number that `alloc_pid` hands out unasked, the cursor being at `next`. */
  function FirstPid(next: nat): nat {
    if next > 300 then 300 else 1
  }

  /** All numbers that `alloc_pid` hands out unasked are in use. */
  ghost predicate NoneLeft(ids: map<nat, int>, next: nat, pidMax: nat) {
    Taken(ids, FirstPid(next), pidMax)
  }

  /** The next free number from the cursor on, else from the least on. */
  ghost predicate NextFree(ids: map<nat, int>, next: nat, pidMax: nat, nr: nat) {
    var from := if next == 0 then 1 else next;
    FirstPid(next) <= nr < pidMax && nr !in ids
    && if from <= nr then Taken(ids, from, nr) else Taken(ids, from, pidMax) && Taken(ids, FirstPid(next), nr)
  }

  /** A number set aside: `tid` itself or, without one, the next free. It is refused exactly if that is in use. */
  ghost predicate Took(was: map<nat, int>, now: map<nat, int>, next: nat, tid: nat, pidMax: nat, ok: bool, nr: nat) {
    true == (ok == !(if tid != 0 then tid in was else NoneLeft(was, next, pidMax))
    && if ok then
         nr < pidMax && nr !in was && now == Put(was, nr, 0)
         && if tid != 0 then nr == tid else NextFree(was, next, pidMax, nr)
       else now == was)
  }

  /** What is wrong with entry `k` of `set_tid`, if there is one; nothing is `Pid([])`. */
  function Fitness(reaper: bool, setTid: seq<int>, k: nat, capable: bool, pidMax: nat): Outcome {
    if k >= |setTid| then Outcome.Pid([])
    else if setTid[k] < 1 || setTid[k] >= pidMax || (setTid[k] != 1 && !reaper) then Outcome.EINVAL
    else if !capable then EPERM
    else Outcome.Pid([])
  }

  /** What a namespace with these ids says when it is asked for a number. */
  ghost function Verdict(ids: map<nat, int>, side: Side, setTid: seq<int>, k: nat, capable: bool, pidMax: nat): Outcome
  {
    if !Fitness(side.reaper, setTid, k, capable, pidMax).Pid? then Fitness(side.reaper, setTid, k, capable, pidMax)
    else if k < |setTid| then if setTid[k] in ids then EEXIST else Outcome.Pid([])
    else if NoneLeft(ids, side.next, pidMax) then EAGAIN
    else Outcome.Pid([])
  }

  /** The cursor of a namespace, and whether it has a reaper. */
  datatype Side = Side(next: nat, reaper: bool)

  /** The namespaces of the levels after `i` give numbers. */
  ghost predicate Agreed(was: seq<map<nat, int>>, sides: seq<Side>, i: int, setTid: seq<int>, capable: seq<bool>,
      pidMax: nat)
  {
    true == (|was| == |capable| == |sides|
    && forall j :: 0 <= j < |was| && i < j ==>
      Verdict(was[j], sides[j], setTid, |was| - 1 - j, capable[j], pidMax) == Outcome.Pid([]))
  }

  /** That of level `i` is the first to give none. */
  ghost predicate Stopped(was: seq<map<nat, int>>, sides: seq<Side>, i: int, setTid: seq<int>, capable: seq<bool>,
      pidMax: nat, err: Outcome)
  {
    true == (0 <= i < |was| == |capable| == |sides| && !err.Pid?
    && err == Verdict(was[i], sides[i], setTid, |was| - 1 - i, capable[i], pidMax)
    && Agreed(was, sides, i, setTid, capable, pidMax))
  }

  ghost predicate SameUpTo(s: seq<Side>, s': seq<Side>, i: int) {
    true == (|s| == |s'| && forall j :: 0 <= j < |s| && j <= i ==> s'[j] == s[j])
  }

  lemma {:induction false} SidesStep(sides: seq<Side>, s: seq<Side>, s': seq<Side>, i: nat)
    requires SameUpTo(sides, s, i) && Only(s, s', i) && i < |sides|
    ensures |s| == |s'| == |sides| && sides[i] == s[i] && SameUpTo(sides, s', i - 1)
    ensures s'[i] == s[i] ==> SameUpTo(sides, s', i)
  {}

  /** One namespace has set `nr` aside, as asked for by entry `k` of `set_tid`, or refuses. */
  ghost predicate Gave(was: map<nat, int>, now: map<nat, int>, side: Side, setTid: seq<int>, k: nat, capable: bool,
      pidMax: nat, nr: nat, err: Outcome)
  {
    true == (err == Verdict(was, side, setTid, k, capable, pidMax)
    && if err.Pid? then
         nr < pidMax && nr !in was && now == Put(was, nr, 0)
         && if k < |setTid| then nr == setTid[k] else NextFree(was, side.next, pidMax, nr)
       else now == was)
  }

  /** The numbers that were not asked for, at the levels after `i`, are the next free ones. */
  ghost predicate NextOnes(was: seq<map<nat, int>>, sides: seq<Side>, i: int, numbers: seq<nat>, setTid: seq<int>,
      pidMax: nat)
    requires |numbers| == |was| == |sides|
  {
    true == (forall j :: 0 <= j < |was| && i < j && |was| - 1 - j >= |setTid| ==>
      NextFree(was[j], sides[j].next, pidMax, numbers[j]))
  }

  /** The numbers are set aside at the levels after `i`; cursors and reapers are as before up to there. */
  ghost predicate Aside(was: seq<map<nat, int>>, now: seq<map<nat, int>>, sides: seq<Side>, side: seq<Side>, i: int,
      numbers: seq<nat>, setTid: seq<int>, capable: seq<bool>, pidMax: nat)
  {
    true == (|numbers| == |was| == |sides| && Reserved(was, now, i + 1, numbers, 0)
    && Agreed(was, sides, i, setTid, capable, pidMax)
    && AsWanted(numbers, setTid, i, pidMax)
    && SameUpTo(sides, side, i) && NextOnes(was, sides, i, numbers, setTid, pidMax))
  }

  /** One namespace of the line has given a number or refused; nothing else has changed. */
  ghost predicate Turn(now: seq<map<nat, int>>, now': seq<map<nat, int>>, side: seq<Side>, side': seq<Side>, i: nat,
      setTid: seq<int>, k: nat, capable: bool, pidMax: nat, nr: nat, err: Outcome)
  {
    true == (Only(now, now', i) && Only(side, side', i) && (!err.Pid? ==> side'[i] == side[i])
    && Gave(now[i], now'[i], side[i], setTid, k, capable, pidMax, nr, err))
  }

  lemma {:induction false} AsideStep(was: seq<map<nat, int>>, now: seq<map<nat, int>>, now': seq<map<nat, int>>,
      sides: seq<Side>, side: seq<Side>, side': seq<Side>, i: nat, numbers: seq<nat>, setTid: seq<int>,
      capable: seq<bool>, pidMax: nat, nr: nat, err: Outcome)
    requires Aside(was, now, sides, side, i, numbers, setTid, capable, pidMax) && i < |was| == |capable| == |side|
    requires Turn(now, now', side, side', i, setTid, |was| - 1 - i, capable[i], pidMax, nr, err)
    ensures err.Pid? ==>
      |numbers| > i && Aside(was, now', sides, side', i - 1, numbers[i := nr], setTid, capable, pidMax)
    ensures !err.Pid? ==>
      Aside(was, now', sides, side', i, numbers, setTid, capable, pidMax)
      && Stopped(was, sides, i, setTid, capable, pidMax, err)
  {
    SameBut(now, now', i);
    SidesStep(sides, side, side', i);
    if err.Pid? {
      ReserveStep(was, now, i, numbers, nr);
      WantedStep(numbers, setTid, i, pidMax, nr);
      VerdictOk(now[i], side[i], setTid, |was| - 1 - i, capable[i], pidMax);
    }
  }

  lemma {:induction false} VerdictOk(ids: map<nat, int>, side: Side, setTid: seq<int>, k: nat, capable: bool,
      pidMax: nat)
    ensures Verdict(ids, side, setTid, k, capable, pidMax).Pid? ==>
      Verdict(ids, side, setTid, k, capable, pidMax) == Outcome.Pid([])
  {}

  lemma {:induction false} TookGave(was: map<nat, int>, now: map<nat, int>, side: Side, setTid: seq<int>, k: nat,
      capable: bool, pidMax: nat, tid: nat, ok: bool, nr: nat, err: Outcome)
    requires Took(was, now, side.next, tid, pidMax, ok, nr)
    requires if k < |setTid| then tid == setTid[k] > 0 else tid == 0
    requires Fitness(side.reaper, setTid, k, capable, pidMax) == Outcome.Pid([])
    requires err == if ok then Outcome.Pid([]) else if tid != 0 then EEXIST else EAGAIN
    ensures Gave(was, now, side, setTid, k, capable, pidMax, nr, err)
  {}

  /** The two differ at `k` at most. */
  ghost predicate Only<T(!new)>(s: seq<T>, s': seq<T>, k: nat) {
    true == (k < |s| == |s'| && forall j :: 0 <= j < |s| && j != k ==> s'[j] == s[j])
  }

  lemma {:induction false} SameBut<T(!new)>(s: seq<T>, s': seq<T>, k: nat)
    requires k < |s| && Only(s, s', k)
    ensures s' == s[k := s'[k]]
  {}

  /** `spaces` agrees with `line` after `i`. */
  ghost predicate SameFrom(spaces: seq<Namespace>, line: seq<Namespace>, i: int) {
    true == (|spaces| == |line| && forall j :: 0 <= j < |line| && i < j ==> spaces[j] == line[j])
  }

  lemma {:induction false} WantedStep(numbers: seq<nat>, setTid: seq<int>, i: int, pidMax: nat, nr: nat)
    requires AsWanted(numbers, setTid, i, pidMax) && 0 <= i < |numbers| && nr < pidMax
    requires |numbers| - 1 - i < |setTid| ==> nr == setTid[|numbers| - 1 - i]
    ensures AsWanted(numbers[i := nr], setTid, i - 1, pidMax)
  {}

  lemma {:induction false} WantedAll(numbers: seq<nat>, setTid: seq<int>, pidMax: nat)
    requires AsWanted(numbers, setTid, -1, pidMax) && |setTid| <= |numbers|
    ensures forall k :: 0 <= k < |setTid| ==> numbers[|numbers| - 1 - k] == setTid[k]
  {
    forall k | 0 <= k < |setTid|
      ensures numbers[|numbers| - 1 - k] == setTid[k]
    {
      var j := |numbers| - 1 - k;
      assert |numbers| - 1 - j == k;
      assert numbers[j] < pidMax;
    }
  }

  lemma {:induction false} ReserveStep(was: seq<map<nat, int>>, now: seq<map<nat, int>>, i: int, numbers: seq<nat>,
      nr: nat)
    requires |numbers| == |was| && Reserved(was, now, i + 1, numbers, 0) && 0 <= i < |was| == |now| && nr !in now[i]
    ensures Reserved(was, now[i := Put(now[i], nr, 0)], i, numbers[i := nr], 0)
  {}

  lemma {:induction false} RollBackStep(was: seq<map<nat, int>>, now: seq<map<nat, int>>, i: int, numbers: seq<nat>)
    requires |numbers| == |was| && Reserved(was, now, i, numbers, 0) && 0 <= i < |was| == |now|
    ensures Reserved(was, now[i := now[i] - {numbers[i]}], i + 1, numbers, 0)
  {
    assert Put(was[i], numbers[i], 0) - {numbers[i]} == was[i];
  }

  lemma {:induction false} ShowStep(was: seq<map<nat, int>>, now: seq<map<nat, int>>, i: int, numbers: seq<nat>,
      pid: int)
    requires |numbers| == |was| && Shown(was, now, i + 1, numbers, pid) && 0 <= i < |was| == |now|
    ensures Shown(was, now[i := Put(now[i], numbers[i], pid)], i, numbers, pid) && numbers[i] in now[i]
    ensures now[i][numbers[i]] == 0
  {
    assert Put(Put(was[i], numbers[i], 0), numbers[i], pid) == Put(was[i], numbers[i], pid);
  }

  lemma {:induction false} MoreStep(was: seq<int>, now: seq<int>, i: int)
    requires More(was, now, i + 1) && 0 <= i < |was| == |now|
    ensures More(was, now[i := now[i] + 1], i)
  {}

  lemma {:induction false} FewerStep(was: seq<int>, now: seq<int>, i: int)
    requires Fewer(was, now, i) && 0 <= i < |was| == |now|
    ensures Fewer(was, now[i := if now[i] == PIDNS_ADDING + 1 then 0 else now[i] - 1], i + 1)
  {}

  lemma {:induction false} ReleaseStep(was: seq<map<nat, int>>, now: seq<map<nat, int>>, i: int, numbers: seq<nat>)
    requires |numbers| == |was| && Released(was, now, i, numbers) && 0 <= i < |was| == |now|
    ensures Released(was, now[i := now[i] - {numbers[i]}], i + 1, numbers) && now[i] == was[i]
  {}

  /** `struct pid_namespace`. */
  class Namespace {
    const level: nat
    const parent: Namespace?
    const idr: Table
    /** `pid_allocated`: the number of live pids, and the bit `PIDNS_ADDING`. */
    var live: nat
    var reaper: bool
    /** The namespaces from the initial one down to this one. */
    ghost const line: seq<Namespace>

    /** This namespace by itself: its ids, and its count of live pids. */
    ghost predicate Sound()
      reads this, idr, idr.root
    {
      true == (idr.Valid() && idr.base == 0
      && (forall x :: x in idr.root.ids ==> x < PID_MAX_LIMIT)
      && live % PIDNS_ADDING == |Published(idr.root.ids)| && live < 2 * PIDNS_ADDING)
    }

    /** The line of namespaces above, each with tables of its own. */
    ghost predicate Lined()
    {
      true == (|line| == level + 1 && line[level] == this
      && (forall i :: 0 <= i <= level ==> line[i].level == i)
      && line[0].parent == null && (forall i :: 0 < i <= level ==> line[i].parent == line[i - 1])
      && (forall i, j :: 0 <= i < j <= level ==>
          line[i] != line[j] && line[i].idr != line[j].idr && line[i].idr.root != line[j].idr.root))
    }

    ghost function Tables(): set<object>
    {
      set n | n in line :: n.idr
    }

    ghost function Roots(): set<object>
    {
      set n | n in line :: n.idr.root
    }

    ghost predicate Valid()
      reads line, Tables(), Roots()
    {
      true == (Lined() && forall i :: 0 <= i <= level ==> line[i].Sound())
    }

    /** A new namespace with tables of its own extends the line of its parent. */
    lemma LineGrows()
      requires level == (if parent == null then 0 else parent.level + 1)
      requires line == (if parent == null then [] else parent.line) + [this]
      requires parent != null ==> parent.Lined()
      requires parent != null ==>
        forall n :: n in parent.line ==> n != this && n.idr != idr && n.idr.root != idr.root
      ensures Lined()
    {
      if parent != null {
        assert forall i :: 0 <= i < level ==> line[i] == parent.line[i];
      }
    }

    constructor (parent: Namespace?)
      requires parent != null ==> parent.Valid()
      ensures Valid() && this.parent == parent && live == PIDNS_ADDING && idr.root.ids == map[]
    {
      this.parent := parent;
      level := if parent == null then 0 else parent.level + 1;
      idr := new Table(0);
      live, reaper := PIDNS_ADDING, false;
      line := (if parent == null then [] else parent.line) + [this];
      new;
      assert Published(idr.root.ids) == {};
      LineGrows();
      forall i | 0 <= i <= level
        ensures line[i].Sound()
      {
        if i < level {
          assert line[i] == parent.line[i] && old(parent.line[i].Sound());
        }
      }
    }

    /** A number that `idr_alloc_cyclic` gives, in a table whose ids are its indices. */
    lemma Cycled(was: map<nat, int>, now: map<nat, int>, next: nat, pidMax: nat, r: Result)
      requires idr.base == 0 && next < WORD && 0 < pidMax <= PID_MAX_LIMIT
      requires idr.Cyclic(was, now, 0, Table.From(next, FirstPid(next)), FirstPid(next), pidMax - 1, r)
      ensures r != Idr.EINVAL && Took(was, now, next, 0, pidMax, r.Id?, if r.Id? then r.id else 0)
    {
      assert idr.Index(pidMax - 1) == pidMax - 1 && (r.Id? && r.id < WORD ==> idr.Index(r.id) == r.id);
    }

    /** The number `tid`, if it is free. */
    lemma Exactly(was: map<nat, int>, now: map<nat, int>, next: nat, tid: nat, pidMax: nat, r: Result)
      requires idr.base == 0 && 0 < tid < pidMax <= PID_MAX_LIMIT && idr.Given(was, now, 0, tid, tid, r)
      ensures r != Idr.EINVAL && Took(was, now, next, tid, pidMax, r.Id?, if r.Id? then r.id else 0)
    {
      assert idr.Index(tid) == tid && (r.Id? && r.id < WORD ==> idr.Index(r.id) == r.id);
    }

    /** The next free number. */
    method TakeNext(pidMax: nat) returns (r: Result)
      requires idr.Valid() && idr.base == 0 && 0 < pidMax <= PID_MAX_LIMIT
      modifies idr.root, idr`next
      ensures idr.Valid() && r != Idr.EINVAL && (!r.Id? ==> idr.next == old(idr.next))
      ensures Took(old(idr.root.ids), idr.root.ids, old(idr.next), 0, pidMax, r.Id?, if r.Id? then r.id else 0)
    {
      ghost var was, cursor := idr.root.ids, idr.next;
      var pidMin := 1;
      if idr.next > RESERVED_PIDS {
        pidMin := RESERVED_PIDS;
      }
      r := idr.AllocCyclic(0, pidMin, pidMax);
      Cycled(was, idr.root.ids, cursor, pidMax, r);
    }

    /** One number of this namespace is set aside. */
    method Take(tid: nat, pidMax: nat) returns (ok: bool, nr: nat)
      requires Sound() && tid < pidMax <= PID_MAX_LIMIT
      modifies idr.root, idr`next
      ensures Sound() && Took(old(idr.root.ids), idr.root.ids, old(idr.next), tid, pidMax, ok, nr)
      ensures !ok ==> idr.next == old(idr.next)
    {
      ghost var was, cursor := idr.root.ids, idr.next;
      var r;
      if tid != 0 {
        r := idr.Alloc(0, tid, tid + 1);
        Exactly(was, idr.root.ids, cursor, tid, pidMax, r);
      } else {
        r := TakeNext(pidMax);
      }
      ok, nr := r.Id?, if r.Id? then r.id else 0;
      PutUnpublished(was, nr);
    }

    /** A number that was set aside is given back. */
    method GiveBack(nr: nat)
      requires Sound() && nr < WORD && (nr in idr.root.ids ==> idr.root.ids[nr] == 0)
      modifies idr.root
      ensures Sound() && idr.root.ids == old(idr.root.ids) - {nr}
    {
      assert idr.Index(nr) == nr;
      var _ := idr.Remove(nr);
      assert Published(idr.root.ids) == Published(old(idr.root.ids));
    }

    /** The number becomes visible as the pid's. */
    method Publish(nr: nat, pid: int)
      requires Sound() && nr in idr.root.ids && idr.root.ids[nr] == 0 && pid != 0
      modifies idr.root, this`live
      ensures Sound() && idr.root.ids == old(idr.root.ids)[nr := pid] && live == old(live) + 1
    {
      assert idr.Index(nr) == nr;
      ghost var ids := idr.root.ids;
      var _, _ := idr.Replace(pid, nr);
      live := live + 1;
      assert Published(idr.root.ids) == Published(ids) + {nr};
      FewPublished(idr.root.ids);
    }

    /** One round of `free_pid`. */
    method Withdraw(nr: nat)
      requires Sound() && nr in idr.root.ids && idr.root.ids[nr] != 0
      modifies idr.root, this`live
      ensures Sound() && idr.root.ids == old(idr.root.ids) - {nr}
      ensures live == if old(live) == PIDNS_ADDING + 1 then 0 else old(live) - 1
    {
      ghost var ids := idr.root.ids;
      assert idr.Index(nr) == nr;
      assert Published(ids) == (Published(ids) - {nr}) + {nr};
      FewPublished(ids);
      live := live - 1;
      if live == PIDNS_ADDING {
        live := 0;
      }
      var _ := idr.Remove(nr);
      assert Published(idr.root.ids) == Published(ids) - {nr};
    }

    /** The ids of all namespaces on the line. */
    ghost function Image(): (s: seq<map<nat, int>>)
      reads line, Tables(), Roots()
      ensures |s| == |line| && forall j :: 0 <= j < |line| ==> s[j] == line[j].idr.root.ids
    {
      seq(|line|, j requires 0 <= j < |line| reads line, Tables(), Roots() => line[j].idr.root.ids)
    }

    ghost function Lives(): (s: seq<int>)
      reads line
      ensures |s| == |line| && forall j :: 0 <= j < |line| ==> s[j] == line[j].live
    {
      seq(|line|, j requires 0 <= j < |line| reads line => line[j].live)
    }

    ghost function Sides(): (s: seq<Side>)
      reads line, Tables()
      ensures |s| == |line| && forall j :: 0 <= j < |line| ==> s[j] == Side(line[j].idr.next, line[j].reaper)
    {
      seq(|line|, j requires 0 <= j < |line| reads line, Tables() => Side(line[j].idr.next, line[j].reaper))
    }

    // The steps above, seen from the line as a whole: one namespace changes, no other does.

    method TakeAt(tmp: Namespace, tid: nat, pidMax: nat) returns (ok: bool, nr: nat)
      requires Valid() && tmp.level <= level && tmp == line[tmp.level] && tid < pidMax <= PID_MAX_LIMIT
      modifies tmp.idr.root, tmp.idr`next
      ensures Valid() && Lives() == old(Lives()) && Only(old(Image()), Image(), tmp.level)
      ensures Took(old(Image())[tmp.level], Image()[tmp.level], old(tmp.idr.next), tid, pidMax, ok, nr)
      ensures Only(old(Sides()), Sides(), tmp.level) && (!ok ==> Sides()[tmp.level] == old(Sides())[tmp.level])
    {
      ok, nr := tmp.Take(tid, pidMax);
      forall j | 0 <= j <= level
        ensures line[j].Sound()
      {
        assert j != tmp.level ==> line[j] != tmp && line[j].idr != tmp.idr && line[j].idr.root != tmp.idr.root;
      }
    }

    method GiveBackAt(tmp: Namespace, nr: nat)
      requires Valid() && tmp.level <= level && tmp == line[tmp.level] && nr < WORD
      requires (nr in tmp.idr.root.ids ==> tmp.idr.root.ids[nr] == 0)
      modifies tmp.idr.root
      ensures Valid() && Lives() == old(Lives()) && Image() == old(Image())[tmp.level := old(Image())[tmp.level] - {nr}]
    {
      ghost var s := Image();
      tmp.GiveBack(nr);
      forall j | 0 <= j <= level
        ensures line[j].Sound()
      {
        assert j != tmp.level ==> line[j] != tmp && line[j].idr != tmp.idr && line[j].idr.root != tmp.idr.root;
      }
      SameBut(s, Image(), tmp.level);
    }

    method PublishAt(tmp: Namespace, nr: nat, pid: int)
      requires Valid() && tmp.level <= level && tmp == line[tmp.level] && pid != 0 && nr in tmp.idr.root.ids
      requires tmp.idr.root.ids[nr] == 0
      modifies tmp.idr.root, tmp`live
      ensures Valid() && Lives() == old(Lives())[tmp.level := old(tmp.live) + 1]
      ensures Image() == old(Image())[tmp.level := Put(old(Image())[tmp.level], nr, pid)]
    {
      ghost var s, l, k := Image(), Lives(), tmp.level;
      tmp.Publish(nr, pid);
      forall j | 0 <= j <= level
        ensures line[j].Sound()
      {
        assert j != tmp.level ==> line[j] != tmp && line[j].idr != tmp.idr && line[j].idr.root != tmp.idr.root;
      }
      SameBut(s, Image(), k);
      SameBut(l, Lives(), k);
    }

    method WithdrawAt(tmp: Namespace, nr: nat)
      requires Valid() && tmp.level <= level && tmp == line[tmp.level] && nr in tmp.idr.root.ids
      requires tmp.idr.root.ids[nr] != 0
      modifies tmp.idr.root, tmp`live
      ensures Valid()
      ensures Lives() == old(Lives())[tmp.level := if old(tmp.live) == PIDNS_ADDING + 1 then 0 else old(tmp.live) - 1]
      ensures Image() == old(Image())[tmp.level := old(Image())[tmp.level] - {nr}]
    {
      ghost var s, l, k := Image(), Lives(), tmp.level;
      tmp.Withdraw(nr);
      forall j | 0 <= j <= level
        ensures line[j].Sound()
      {
        assert j != tmp.level ==> line[j] != tmp && line[j].idr != tmp.idr && line[j].idr.root != tmp.idr.root;
      }
      SameBut(s, Image(), k);
      SameBut(l, Lives(), k);
    }

    /** The number wanted by `set_tid` at level `i`, 0 if any will do, or why it is refused. */
    method Wanted(tmp: Namespace, i: nat, setTid: seq<int>, capable: bool, pidMax: nat) returns (tid: nat, err: Outcome)
      requires i <= level && |setTid| <= level + 1 && 1 < pidMax
      ensures err.Pid? ==> tid < pidMax && if level - i < |setTid| then tid == setTid[level - i] > 0 else tid == 0
      ensures err == Fitness(tmp.reaper, setTid, level - i, capable, pidMax)
    {
      tid, err := 0, Outcome.Pid([]);
      if level - i < |setTid| {
        if setTid[level - i] < 1 || setTid[level - i] >= pidMax {
          return 0, Outcome.EINVAL;
        }
        tid := setTid[level - i];
        if tid != 1 && !tmp.reaper {
          return tid, Outcome.EINVAL;
        }
        if !capable {
          return tid, EPERM;
        }
      }
    }

    /** One round of that loop: a number of `tmp`, or why there is none. */
    method ReserveOne(tmp: Namespace, i: nat, tid: nat, setTid: seq<int>, capable: bool, pidMax: nat)
      returns (nr: nat, err: Outcome)
      requires Valid() && i <= level && tmp == line[i] && tid < pidMax <= PID_MAX_LIMIT
      requires if level - i < |setTid| then tid == setTid[level - i] > 0 else tid == 0
      requires Fitness(tmp.reaper, setTid, level - i, capable, pidMax) == Outcome.Pid([])
      modifies tmp.idr.root, tmp.idr`next
      ensures Valid() && Lives() == old(Lives())
      ensures Turn(old(Image()), Image(), old(Sides()), Sides(), i, setTid, level - i, capable, pidMax, nr, err)
    {
      ghost var was, side := Image()[i], Sides()[i];
      var ok;
      ok, nr := TakeAt(tmp, tid, pidMax);
      err := if ok then Outcome.Pid([]) else if tid != 0 then EEXIST else EAGAIN;
      TookGave(was, Image()[i], side, setTid, level - i, capable, pidMax, tid, ok, nr, err);
    }

    /** `alloc_pid` has set numbers aside at the levels after `i`. */
    ghost predicate Reserving(was: seq<map<nat, int>>, lives: seq<int>, sides: seq<Side>, i: int, numbers: seq<nat>,
        spaces: seq<Namespace>, setTid: seq<int>, capable: seq<bool>, pidMax: nat)
      reads line, Tables(), Roots()
    {
      true == (Valid() && -1 <= i <= level && |numbers| == |line| && Lives() == lives
      && Aside(was, Image(), sides, Sides(), i, numbers, setTid, capable, pidMax) && SameFrom(spaces, line, i))
    }

    /** Level `i` sets aside the number `tid`, or any. */
    method SetAside(tmp: Namespace, i: nat, tid: nat, numbers: seq<nat>, spaces: seq<Namespace>, setTid: seq<int>,
        capable: seq<bool>, pidMax: nat, ghost was: seq<map<nat, int>>, ghost lives: seq<int>, ghost sides: seq<Side>)
      returns (numbers': seq<nat>, spaces': seq<Namespace>, err: Outcome)
      requires Reserving(was, lives, sides, i, numbers, spaces, setTid, capable, pidMax) && tmp == line[i]
      requires tid < pidMax <= PID_MAX_LIMIT && |capable| == level + 1
      requires if level - i < |setTid| then tid == setTid[level - i] > 0 else tid == 0
      requires Fitness(tmp.reaper, setTid, level - i, capable[i], pidMax) == Outcome.Pid([])
      modifies tmp.idr.root, tmp.idr`next
      ensures Reserving(was, lives, sides, if err.Pid? then i - 1 else i, numbers', spaces', setTid, capable, pidMax)
      ensures !err.Pid? ==> Stopped(was, sides, i, setTid, capable, pidMax, err)
    {
      ghost var now, side := Image(), Sides();
      var nr;
      nr, err := ReserveOne(tmp, i, tid, setTid, capable[i], pidMax);
      AsideStep(was, now, Image(), sides, side, Sides(), i, numbers, setTid, capable, pidMax, nr, err);
      if !err.Pid? {
        return numbers, spaces, err;
      }
      numbers', spaces' := numbers[i := nr], spaces[i := tmp];
    }

    lemma UnfitStops(was: seq<map<nat, int>>, sides: seq<Side>, i: nat, numbers: seq<nat>, spaces: seq<Namespace>,
        setTid: seq<int>, capable: seq<bool>, pidMax: nat, lives: seq<int>, err: Outcome)
      requires Reserving(was, lives, sides, i, numbers, spaces, setTid, capable, pidMax) && |capable| == level + 1
      requires i <= level && err == Fitness(line[i].reaper, setTid, level - i, capable[i], pidMax) && !err.Pid?
      ensures Stopped(was, sides, i, setTid, capable, pidMax, err)
    {
      assert Sides()[i] == sides[i];
    }

    method ReserveRound(tmp: Namespace, i: nat, numbers: seq<nat>, spaces: seq<Namespace>, setTid: seq<int>,
        capable: seq<bool>, pidMax: nat, ghost was: seq<map<nat, int>>, ghost lives: seq<int>, ghost sides: seq<Side>)
      returns (numbers': seq<nat>, spaces': seq<Namespace>, err: Outcome)
      requires Reserving(was, lives, sides, i, numbers, spaces, setTid, capable, pidMax) && tmp == line[i]
      requires |setTid| <= level + 1 == |capable| && 1 < pidMax <= PID_MAX_LIMIT
      modifies tmp.idr.root, tmp.idr`next
      ensures Reserving(was, lives, sides, if err.Pid? then i - 1 else i, numbers', spaces', setTid, capable, pidMax)
      ensures !err.Pid? ==> Stopped(was, sides, i, setTid, capable, pidMax, err)
    {
      var tid;
      tid, err := Wanted(tmp, i, setTid, capable[i], pidMax);
      numbers', spaces' := numbers, spaces;
      if !err.Pid? {
        UnfitStops(was, sides, i, numbers, spaces, setTid, capable, pidMax, lives, err);
      } else {
        numbers', spaces', err := SetAside(tmp, i, tid, numbers, spaces, setTid, capable, pidMax, was, lives, sides);
      }
    }

    lemma NoneReserved(numbers: seq<nat>, spaces: seq<Namespace>, setTid: seq<int>, capable: seq<bool>, pidMax: nat)
      requires Valid() && |numbers| == |spaces| == |capable| == level + 1
      ensures Reserving(Image(), Lives(), Sides(), level, numbers, spaces, setTid, capable, pidMax)
    {}

    /** The loop of `alloc_pid` that sets a number aside in each namespace; it stopped at level `i`. */
    method Reserve(setTid: seq<int>, capable: seq<bool>, pidMax: nat, ghost was: seq<map<nat, int>>,
        ghost lives: seq<int>, ghost sides: seq<Side>)
      returns (i: int, numbers: seq<nat>, spaces: seq<Namespace>, err: Outcome)
      requires Valid() && |setTid| <= level + 1 == |capable| && 1 < pidMax <= PID_MAX_LIMIT
      requires was == Image() && lives == Lives() && sides == Sides()
      modifies Tables(), Roots()
      ensures Reserving(was, lives, sides, i, numbers, spaces, setTid, capable, pidMax) && (i >= 0 ==> !err.Pid?)
      ensures i >= 0 ==> Stopped(was, sides, i, setTid, capable, pidMax, err)
    {
      i, numbers, spaces, err := level, seq(level + 1, _ => 0), seq(level + 1, _ => this), ENOMEM;
      NoneReserved(numbers, spaces, setTid, capable, pidMax);
      var tmp: Namespace? := this;
      while i >= 0
        invariant Reserving(was, lives, sides, i, numbers, spaces, setTid, capable, pidMax)
        invariant (i >= 0 ==> tmp == line[i])
      {
        numbers, spaces, err := ReserveRound(tmp, i, numbers, spaces, setTid, capable, pidMax, was, lives, sides);
        if !err.Pid? {
          return;
        }
        tmp := tmp.parent;
        i := i - 1;
      }
    }

    /** The loop under `out_free`. */
    method RollBack(i0: int, numbers: seq<nat>, spaces: seq<Namespace>, ghost setTid: seq<int>,
        ghost capable: seq<bool>, ghost pidMax: nat, ghost was: seq<map<nat, int>>, ghost lives: seq<int>,
        ghost sides: seq<Side>)
      requires Reserving(was, lives, sides, i0, numbers, spaces, setTid, capable, pidMax) && pidMax < WORD
      modifies Roots()
      ensures Valid() && Lives() == lives && Image() == was
    {
      var i := i0 + 1;
      while i <= level
        invariant Valid() && i0 < i <= level + 1 && Lives() == lives && Reserved(was, Image(), i, numbers, 0)
      {
        RollBackStep(was, Image(), i, numbers);
        GiveBackAt(spaces[i], numbers[i]);
        i := i + 1;
      }
    }

    /** `alloc_pid` has published `pid` at the levels after `i`. */
    ghost predicate Showing(was: seq<map<nat, int>>, lives: seq<int>, i: int, numbers: seq<nat>, pid: int)
      reads line, Tables(), Roots()
    {
      true == (Valid() && -1 <= i <= level && |numbers| == |was| == |line| == |lives|
      && Shown(was, Image(), i + 1, numbers, pid) && More(lives, Lives(), i + 1))
    }

    method ShowRound(tmp: Namespace, i: nat, numbers: seq<nat>, pid: int, ghost was: seq<map<nat, int>>,
        ghost lives: seq<int>)
      requires Showing(was, lives, i, numbers, pid) && tmp == line[i] && pid != 0
      modifies tmp.idr.root, tmp`live
      ensures Showing(was, lives, i - 1, numbers, pid)
    {
      ShowStep(was, Image(), i, numbers, pid);
      MoreStep(lives, Lives(), i);
      PublishAt(tmp, numbers[i], pid);
    }

    /** The loop of `alloc_pid` that publishes the pid. */
    method PublishAll(pid: int, numbers: seq<nat>, spaces: seq<Namespace>, ghost was: seq<map<nat, int>>,
        ghost lives: seq<int>)
      requires Showing(was, lives, level, numbers, pid) && SameFrom(spaces, line, -1) && pid != 0
      modifies line, Roots()
      ensures Showing(was, lives, -1, numbers, pid)
    {
      var i := level;
      while i >= 0
        invariant -1 <= i && Showing(was, lives, i, numbers, pid)
      {
        ShowRound(spaces[i], i, numbers, pid, was, lives);
        i := i - 1;
      }
      assert i == -1;
    }

    /** With all numbers set aside publishing can begin. */
    lemma AllReserved(was: seq<map<nat, int>>, lives: seq<int>, sides: seq<Side>, i: int, numbers: seq<nat>,
        spaces: seq<Namespace>, setTid: seq<int>, capable: seq<bool>, pidMax: nat, pid: int)
      requires Reserving(was, lives, sides, i, numbers, spaces, setTid, capable, pidMax) && i < 0
      requires |setTid| <= level + 1
      ensures Showing(was, lives, level, numbers, pid)
      ensures |numbers| == |was| == |sides| && NextOnes(was, sides, -1, numbers, setTid, pidMax)
      ensures Agreed(was, sides, -1, setTid, capable, pidMax)
      ensures forall k :: 0 <= k < |setTid| ==> numbers[level - k] == setTid[k]
    {
      WantedAll(numbers, setTid, pidMax);
    }

    /** Once all are published the pid is found in every namespace. */
    lemma AllShown(was: seq<map<nat, int>>, lives: seq<int>, numbers: seq<nat>, pid: int)
      requires Showing(was, lives, -1, numbers, pid)
      ensures Valid() && Reserved(was, Image(), 0, numbers, pid) && More(lives, Lives(), 0)
    {}

    /** `idr_set_cursor` to 0 in a namespace without pids. */
    method ResetCursor()
      requires Valid()
      modifies idr`next
      ensures Valid() && Image() == old(Image()) && Lives() == old(Lives())
    {
      if live == PIDNS_ADDING {
        assert Sound();
        idr.next := 0;
        assert Sound();
      }
    }

    /** `pid` is found under one of `numbers` in every namespace of the line: the one asked for by `set_tid`, or the
        next free one. */
    ghost predicate Granted(was: seq<map<nat, int>>, lives: seq<int>, sides: seq<Side>, numbers: seq<nat>, pid: int,
        setTid: seq<int>, capable: seq<bool>, pidMax: nat)
      reads line, Tables(), Roots()
    {
      true == (|numbers| == |was| == |sides| == |line| == level + 1 && Reserved(was, Image(), 0, numbers, pid)
      && Agreed(was, sides, -1, setTid, capable, pidMax)
      && More(lives, Lives(), 0) && NextOnes(was, sides, -1, numbers, setTid, pidMax)
      && |setTid| <= level + 1 && forall k :: 0 <= k < |setTid| ==> numbers[level - k] == setTid[k])
    }

    /** `alloc_pid` once every namespace has set a number aside: the pid is found under each of them. */
    method Commit(pid: int, ghost i: int, numbers: seq<nat>, spaces: seq<Namespace>, ghost setTid: seq<int>,
        ghost capable: seq<bool>, ghost pidMax: nat, ghost was: seq<map<nat, int>>, ghost lives: seq<int>,
        ghost sides: seq<Side>)
      requires Reserving(was, lives, sides, i, numbers, spaces, setTid, capable, pidMax) && i < 0
      requires |setTid| <= level + 1 && pid != 0
      modifies line, Roots()
      ensures Valid() && Granted(was, lives, sides, numbers, pid, setTid, capable, pidMax)
    {
      AllReserved(was, lives, sides, i, numbers, spaces, setTid, capable, pidMax, pid);
      PublishAll(pid, numbers, spaces, was, lives);
      AllShown(was, lives, numbers, pid);
    }

    /** `alloc_pid` under `out_unlock` and `out_free`. */
    method Abandon(i: int, numbers: seq<nat>, spaces: seq<Namespace>, ghost setTid: seq<int>,
        ghost capable: seq<bool>, ghost pidMax: nat, ghost was: seq<map<nat, int>>, ghost lives: seq<int>,
        ghost sides: seq<Side>)
      requires Reserving(was, lives, sides, i, numbers, spaces, setTid, capable, pidMax) && pidMax < WORD
      modifies Tables(), Roots()
      ensures Valid() && Image() == was && Lives() == lives
    {
      RollBack(i, numbers, spaces, setTid, capable, pidMax, was, lives, sides);
      ResetCursor();
    }

    /** `alloc_pid`. It succeeds exactly if `set_tid` is not too long, every namespace of the line has a number to give
        and the last one admits pids. Then the pid is found under a number that was free in each of them. On failure no
        namespace has changed, and the error is that of the first namespace, of level `stop`, to give no number. */
    method AllocPid(pid: int, setTid: seq<int>, capable: seq<bool>, pidMax: nat) returns (o: Outcome, ghost stop: int)
      requires Valid() && pid != 0 && |capable| == level + 1 && 1 < pidMax <= PID_MAX_LIMIT
      modifies line, Tables(), Roots()
      ensures Valid()
      ensures !o.Pid? ==> Image() == old(Image()) && Lives() == old(Lives())
      ensures o.Pid? ==> Granted(old(Image()), old(Lives()), old(Sides()), o.numbers, pid, setTid, capable, pidMax)
      ensures o.Pid? <==>
        |setTid| <= level + 1 && old(live) >= PIDNS_ADDING
        && Agreed(old(Image()), old(Sides()), -1, setTid, capable, pidMax)
      ensures !o.Pid? ==>
        (o == Outcome.EINVAL && |setTid| > level + 1)
        || (o == ENOMEM && old(live) < PIDNS_ADDING && Agreed(old(Image()), old(Sides()), -1, setTid, capable, pidMax))
        || Stopped(old(Image()), old(Sides()), stop, setTid, capable, pidMax, o)
    {
      if |setTid| > level + 1 {
        return Outcome.EINVAL, 0;
      }
      ghost var was, lives, sides := Image(), Lives(), Sides();
      var i, numbers, spaces, err := Reserve(setTid, capable, pidMax, was, lives, sides);
      var closed := live < PIDNS_ADDING;
      if i < 0 && !closed {
        Commit(pid, i, numbers, spaces, setTid, capable, pidMax, was, lives, sides);
        return Outcome.Pid(numbers), i;
      }
      Abandon(i, numbers, spaces, setTid, capable, pidMax, was, lives, sides);
      return if i < 0 then ENOMEM else err, i;
    }

    /** `free_pid` is done with the levels before `i`. */
    ghost predicate Freeing(was: seq<map<nat, int>>, lives: seq<int>, i: int, numbers: seq<nat>)
      reads line, Tables(), Roots()
    {
      true == (Valid() && 0 <= i <= level + 1 && |numbers| == |was| == |lives| == |line|
      && Released(was, Image(), i, numbers) && Fewer(lives, Lives(), i))
    }

    method FreeRound(tmp: Namespace, i: nat, numbers: seq<nat>, ghost was: seq<map<nat, int>>, ghost lives: seq<int>)
      requires Freeing(was, lives, i, numbers) && i <= level && tmp == line[i]
      requires numbers[i] in was[i] && was[i][numbers[i]] != 0
      modifies tmp.idr.root, tmp`live
      ensures Freeing(was, lives, i + 1, numbers)
    {
      ReleaseStep(was, Image(), i, numbers);
      FewerStep(lives, Lives(), i);
      WithdrawAt(tmp, numbers[i]);
    }

    /** `free_pid`, for a pid that was published under `numbers`. */
    method FreePid(pid: int, numbers: seq<nat>, spaces: seq<Namespace>)
      requires Valid() && |numbers| == |spaces| == |line| && pid != 0
      requires SameFrom(spaces, line, -1)
      requires forall j :: 0 <= j <= level ==> numbers[j] in Image()[j] && Image()[j][numbers[j]] == pid
      modifies line, Roots()
      ensures Valid() && Released(old(Image()), Image(), level + 1, numbers) && Fewer(old(Lives()), Lives(), level + 1)
    {
      ghost var was, lives := Image(), Lives();
      var i := 0;
      while i <= level
        invariant i <= level + 1 && Freeing(was, lives, i, numbers)
      {
        FreeRound(spaces[i], i, numbers, was, lives);
        i := i + 1;
      }
      assert i == level + 1;
    }

    /** `find_pid_ns`. */
    method FindPid(nr: nat) returns (pid: int)
      requires Sound() && nr < PIDNS_ADDING
      ensures pid == if nr in idr.root.ids then idr.root.ids[nr] else 0
    {
      assert idr.Index(nr) == nr;
      pid := idr.Find(nr);
    }
  }

  lemma {:induction false} FewPublished(ids: map<nat, int>)
    requires forall x :: x in ids ==> x < PID_MAX_LIMIT
    ensures |Published(ids)| <= PID_MAX_LIMIT
  {
    CountBelow(Published(ids), PID_MAX_LIMIT);
  }

  lemma {:induction false} CountBelow(a: set<nat>, n: nat)
    requires forall x :: x in a ==> x < n
    ensures |a| <= n
    decreases n
  {
    if n > 0 {
      CountBelow(a - {n - 1}, n - 1);
      assert n - 1 in a ==> a == (a - {n - 1}) + {n - 1};
    } else {
      assert a == {};
    }
  }
}
