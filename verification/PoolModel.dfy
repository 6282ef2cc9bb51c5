/** The memory pool of `mempool.c` as a step system: a fixed number of blocks, and threads that wait for
    one. The last to wait is the first to be resumed. */
module PoolModel {
  import opened LinkedNodes
  import opened WaitList
  import opened MailboxModel

  type BlockId = nat

  datatype PStatus = PGot(b: BlockId) | PTimedOut | PBlocked | PDone

  datatype Pool = Pool(free: seq<BlockId>, live: set<BlockId>, allocators: Waiters, calls: map<Tid, int>)

  datatype PAction =
    | PAlloc(t: Tid, time: int)
    | PResume(t: Tid, elapsed: nat)
    | PFree(b: BlockId)
    | PExpire(t: Tid)

  function Numbers(n: nat): (r: seq<BlockId>)
    ensures |r| == n && forall i :: 0 <= i < n ==> r[i] == i
  {
    seq(n, i requires 0 <= i < n => i)
  }

  function FullPool(total: nat): Pool {
    Pool(Numbers(total), {}, Nobody, map[])
  }

  function ParkFirst(w: Waiters, t: Tid): Waiters {
    w.(list := [t] + w.list)
  }

  function TryAlloc(s: Pool, t: Tid, time: int): (Pool, PStatus) {
    if s.free != [] then
      (s.(free := s.free[1..], live := s.live + {s.free[0]}, calls := s.calls - {t}), PGot(s.free[0]))
    else if time == 0 then (s.(calls := s.calls - {t}), PTimedOut)
    else (s.(allocators := ParkFirst(s.allocators, t), calls := s.calls[t := time]), PBlocked)
  }

  predicate PEnabled(s: Pool, a: PAction) {
    match a
    case PAlloc(t, _) => t !in s.calls
    case PResume(t, _) => t in s.allocators.woken && t in s.calls
    case PFree(b) => b in s.live
    case PExpire(t) => t in s.allocators.list && t in s.calls && s.calls[t] > 0
  }

  function PStep(s: Pool, a: PAction): (Pool, PStatus)
    requires PEnabled(s, a)
  {
    match a
    case PAlloc(t, time) => TryAlloc(s, t, time)
    case PResume(t, elapsed) => TryAlloc(s.(allocators := Rerun(s.allocators, t)), t, Remaining(s.calls[t], elapsed))
    case PFree(b) => (s.(free := [b] + s.free, live := s.live - {b}, allocators := WakeOne(s.allocators)), PDone)
    case PExpire(t) => (s.(allocators := Cancel(s.allocators, t), calls := s.calls - {t}), PTimedOut)
  }

  // ---------- the invariant ----------

  /** Every block is free or live, and not both. */
  ghost predicate Partition(total: nat, s: Pool) {
    && NoDup(s.free)
    && (forall b :: b in s.free ==> b !in s.live)
    && (forall b: BlockId :: b < total <==> b in s.free || b in s.live)
  }

  ghost predicate PPlacedBut(s: Pool, but: set<Tid>) {
    Fine(s.allocators) && forall t :: s.allocators.Has(t) <==> t in s.calls && t !in but
  }

  ghost predicate PInv(total: nat, s: Pool) {
    && Partition(total, s) && PPlacedBut(s, {})
    && (s.allocators.list != [] ==> |s.allocators.woken| >= |s.free|)
  }

  lemma FullPoolInv(total: nat)
    ensures PInv(total, FullPool(total))
  {
    var free := FullPool(total).free;
    forall b: BlockId
      ensures b < total <==> b in free
    {
      if b < total {
        assert free[b] == b;
      }
    }
  }

  lemma AllocKeeps(total: nat, s: Pool, t: Tid, time: int)
    requires Partition(total, s) && PPlacedBut(s, {t}) && !s.allocators.Has(t)
    requires s.allocators.list != [] ==> |s.allocators.woken| + 1 >= |s.free|
    ensures PInv(total, TryAlloc(s, t, time).0)
  {
    var r := TryAlloc(s, t, time).0;
    if s.free != [] {
      var b := s.free[0];
      assert forall x :: x in s.free <==> x == b || x in r.free;
    } else if time != 0 {
      var list := r.allocators.list;
      assert forall i :: 0 < i < |list| ==> list[i] == s.allocators.list[i - 1] && list[i] in s.allocators.list;
      assert forall x :: x in list <==> x == t || x in s.allocators.list;
    }
  }

  lemma FreeKeeps(total: nat, s: Pool, b: BlockId)
    requires PInv(total, s) && b in s.live
    ensures PInv(total, PStep(s, PFree(b)).0)
  {
    var r := PStep(s, PFree(b)).0;
    WakeOneFine(s.allocators);
    assert forall x :: x in r.free <==> x == b || x in s.free;
    assert forall i :: 0 < i < |r.free| ==> r.free[i] == s.free[i - 1] && r.free[i] in s.free;
  }

  lemma PStepKeeps(total: nat, s: Pool, a: PAction)
    requires PInv(total, s) && PEnabled(s, a)
    ensures PInv(total, PStep(s, a).0)
  {
    match a
    case PAlloc(t, time) => AllocKeeps(total, s, t, time);
    case PResume(t, elapsed) =>
      RerunFine(s.allocators, t);
      AllocKeeps(total, s.(allocators := Rerun(s.allocators, t)), t, Remaining(s.calls[t], elapsed));
    case PFree(b) => FreeKeeps(total, s, b);
    case PExpire(t) => CancelFine(s.allocators, t);
  }

  // ---------- whole runs ----------

  ghost function PRun(total: nat, run: seq<PAction>): (r: (Pool, bool))
    ensures PInv(total, r.0)
  {
    FullPoolInv(total);
    if run == [] then (FullPool(total), true)
    else
      var (s, ok) := PRun(total, run[..|run| - 1]);
      if ok && PEnabled(s, run[|run| - 1]) then
        PStepKeeps(total, s, run[|run| - 1]);
        (PStep(s, run[|run| - 1]).0, true)
      else (s, false)
  }

  /** No lost wakeup in any run: while a thread waits and a block is free, a woken thread is about to run,
      and gets a block whatever is left of its waiting time. */
  lemma PNoLostWakeup(total: nat, run: seq<PAction>, elapsed: nat)
    ensures var s := PRun(total, run).0;
            s.allocators.list != [] && s.free != [] ==>
              exists t :: t in s.allocators.woken && PEnabled(s, PResume(t, elapsed))
                          && PStep(s, PResume(t, elapsed)).1 == PGot(s.free[0])
  {
    var s := PRun(total, run).0;
    if s.allocators.list != [] && s.free != [] {
      assert s.allocators.woken != {};
      var t :| t in s.allocators.woken;
      assert s.allocators.Has(t);
      assert PStep(s, PResume(t, elapsed)).1 == PGot(s.free[0]);
    }
  }

  /** In every run no block is lost or handed out twice: free and live blocks are all of them, once each. */
  lemma BlocksConserved(total: nat, run: seq<PAction>)
    ensures var s := PRun(total, run).0;
            && |s.free| + |s.live| == total
            && forall b :: b in s.live ==> b < total && b !in s.free
  {
    var s := PRun(total, run).0;
    SetOf(s.free);
    SizeOfRange(total, Members(s.free) + s.live);
    assert Members(s.free) !! s.live;
  }

  /** Giving back a block nobody waits for undoes the allocation. */
  lemma AllocFreeRestores(total: nat, s: Pool, t: Tid, time: int)
    requires PInv(total, s) && s.free != [] && t !in s.calls && s.allocators.list == []
    ensures PStep(PStep(s, PAlloc(t, time)).0, PFree(s.free[0])).0 == s
  {
    assert s.free[0] in s.free;
    assert [s.free[0]] + s.free[1..] == s.free;
    assert s.live + {s.free[0]} - {s.free[0]} == s.live;
    assert s.calls - {t} == s.calls;
  }
}
