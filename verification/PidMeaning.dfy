/** When `alloc_pid` gives a number, and what each of its errors says. */
module PidMeaning {

  import opened Pid

  /** A number that is handed out unasked. */
  predicate Unused(ids: map<nat, int>, next: nat, pidMax: nat, nr: nat) {
    (if next > 300 then 300 else 1) <= nr < pidMax && nr !in ids
  }

  /** A number that may be asked for, by who may ask. */
  predicate Asked(nr: int, reaper: bool, pidMax: nat) {
    1 <= nr < pidMax && (nr == 1 || reaper)
  }

  /** What a namespace demands of entry `k` of `set_tid`, or of its own numbers if there is none. */
  ghost predicate Demand(ids: map<nat, int>, side: Side, setTid: seq<int>, k: nat, capable: bool, pidMax: nat) {
    if k < |setTid| then Asked(setTid[k], side.reaper, pidMax) && capable && setTid[k] !in ids
    else exists nr: nat :: Unused(ids, side.next, pidMax, nr)
  }

  lemma {:induction false} VerdictMeans(ids: map<nat, int>, side: Side, setTid: seq<int>, k: nat, capable: bool,
      pidMax: nat)
    ensures var v := Verdict(ids, side, setTid, k, capable, pidMax);
      (v == Outcome.Pid([]) <==> Demand(ids, side, setTid, k, capable, pidMax))
      && (v == Outcome.EINVAL <==> k < |setTid| && !Asked(setTid[k], side.reaper, pidMax))
      && (v == EPERM <==> k < |setTid| && Asked(setTid[k], side.reaper, pidMax) && !capable)
      && (v == EEXIST
          <==> k < |setTid| && Asked(setTid[k], side.reaper, pidMax) && capable && setTid[k] in ids)
      && (v == EAGAIN <==> k >= |setTid| && !exists nr: nat :: Unused(ids, side.next, pidMax, nr))
  {
    if NoneLeft(ids, side.next, pidMax) {
      assert forall nr: nat :: !Unused(ids, side.next, pidMax, nr);
    } else {
      var nr: nat :| FirstPid(side.next) <= nr < pidMax && nr !in ids;
      assert Unused(ids, side.next, pidMax, nr);
    }
  }

  /** The levels agree exactly if each finds its entry of `set_tid` right, or has a number of its own. */
  lemma {:induction false} AgreedMeans(was: seq<map<nat, int>>, sides: seq<Side>, setTid: seq<int>, capable: seq<bool>,
      pidMax: nat)
    requires |was| == |sides| == |capable|
    ensures Agreed(was, sides, -1, setTid, capable, pidMax)
      <==> forall j :: 0 <= j < |was| ==> Demand(was[j], sides[j], setTid, |was| - 1 - j, capable[j], pidMax)
  {
    forall j | 0 <= j < |was|
      ensures Verdict(was[j], sides[j], setTid, |was| - 1 - j, capable[j], pidMax) == Outcome.Pid([])
        <==> Demand(was[j], sides[j], setTid, |was| - 1 - j, capable[j], pidMax)
    {
      VerdictMeans(was[j], sides[j], setTid, |was| - 1 - j, capable[j], pidMax);
    }
  }
}
