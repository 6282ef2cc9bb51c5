/** What each section of an allocation from a memory pool answers, and who is resumed next: the thread that began to
    wait last. */
module PoolOrder {
  import opened LinkedNodes
  import opened MailboxModel
  import opened PoolModel
  import opened WaitList

  // ---------- what each section answers ----------

  /** An allocation takes the first free block; without one it fails at once if it has no time, and waits otherwise,
      in front of all that wait already. */
  lemma AllocAnswers(total: nat, s: Pool, t: Tid, time: int)
    requires PInv(total, s) && t !in s.calls
    ensures var (r, status) := PStep(s, PAlloc(t, time));
            if s.free != [] then
              && status == PGot(s.free[0]) && s.free == [s.free[0]] + r.free && s.free[0] !in s.live
              && r == s.(free := r.free, live := s.live + {s.free[0]})
            else if time == 0 then status == PTimedOut && r == s
            else
              status == PBlocked && r == s.(allocators := r.allocators, calls := s.calls[t := time])
              && r.allocators.list == [t] + s.allocators.list && r.allocators.woken == s.allocators.woken
  {
    assert s.calls - {t} == s.calls;
    assert s.free != [] ==> s.free[0] in s.free;
  }

  /** A woken thread that finds no free block waits on if and only if it waits for ever or its time has not run out,
      with the rest of its time, and fails otherwise. */
  lemma WokenAllocator(total: nat, s: Pool, t: Tid, elapsed: nat)
    requires PInv(total, s) && PEnabled(s, PResume(t, elapsed)) && InTime(s.calls[t], elapsed)
    ensures var (r, status) := PStep(s, PResume(t, elapsed)); var w := Rerun(s.allocators, t);
            if s.free != [] then
              && status == PGot(s.free[0]) && s.free == [s.free[0]] + r.free
              && r == s.(free := r.free, live := s.live + {s.free[0]}, allocators := w, calls := s.calls - {t})
            else if MayWaitOn(s.calls[t], elapsed) then
              && status == PBlocked && r.allocators.list == [t] + w.list && r.allocators.woken == w.woken
              && r == s.(allocators := r.allocators, calls := s.calls[t := WaitsOnFor(s.calls[t], elapsed)])
            else status == PTimedOut && r == s.(allocators := w, calls := s.calls - {t})
  {
    WaitsOn(s.calls[t], elapsed);
  }

  /** A block that is given back is free, first of all, and no longer live; a timeout ends the call of its thread, and
      nothing else. */
  lemma FreeAndExpire(total: nat, s: Pool, b: BlockId, t: Tid)
    requires PInv(total, s)
    ensures PEnabled(s, PFree(b)) ==>
              var r := PStep(s, PFree(b)).0;
              r.free == [b] + s.free && b !in s.free && r.live + {b} == s.live && b !in r.live && r.calls == s.calls
    ensures PEnabled(s, PExpire(t)) ==>
              var (r, status) := PStep(s, PExpire(t));
              && status == PTimedOut && !r.allocators.Has(t) && t !in r.calls
              && r == s.(allocators := s.allocators.(list := Without(s.allocators.list, t)), calls := s.calls - {t})
  {
  }

  // ---------- last come, first served ----------

  /** For every thread that has ever waited, the number of the section in which it last began to. */
  ghost function PArrived(total: nat, run: seq<PAction>): map<Tid, nat> {
    if run == [] then map[]
    else
      var n := |run| - 1;
      var (s, ok) := PRun(total, run[..n]);
      if ok && PEnabled(s, run[n]) then PNumbering(s, run[n], PArrived(total, run[..n]), n)
      else PArrived(total, run[..n])
  }

  function PNumbering(s: Pool, a: PAction, arrived: map<Tid, nat>, n: nat): map<Tid, nat>
    requires PEnabled(s, a)
  {
    if PStep(s, a).1.PBlocked? then arrived[a.t := n] else arrived
  }

  predicate Later(arrived: map<Tid, nat>, x: Tid, y: Tid) {
    x in arrived && y in arrived && arrived[x] > arrived[y]
  }

  ghost predicate LastFirst(arrived: map<Tid, nat>, q: seq<Tid>) {
    && (forall i, j :: 0 <= i < j < |q| ==> Later(arrived, q[i], q[j]))
    && forall x :: x in q ==> x in arrived
  }

  ghost predicate Below(arrived: map<Tid, nat>, n: nat) {
    forall t :: t in arrived ==> arrived[t] < n
  }

  lemma NewestFirst(arrived: map<Tid, nat>, q: seq<Tid>, t: Tid, n: nat)
    requires LastFirst(arrived, q) && Below(arrived, n) && t !in q
    ensures LastFirst(arrived[t := n], [t] + q) && Below(arrived[t := n], n + 1)
  {
    var m, r := arrived[t := n], [t] + q;
    forall i, j | 0 <= i < j < |r|
      ensures Later(m, r[i], r[j])
    {
      assert r[j] == q[j - 1] && q[j - 1] in q;
      if i > 0 {
        assert Later(arrived, q[i - 1], q[j - 1]) && q[i - 1] in q;
      }
    }
  }

  lemma {:induction false} WithoutLastFirst(arrived: map<Tid, nat>, q: seq<Tid>, t: Tid)
    requires LastFirst(arrived, q)
    ensures LastFirst(arrived, Without(q, t))
  {
    if q != [] {
      var p, last := q[..|q| - 1], q[|q| - 1];
      assert forall i :: 0 <= i < |p| ==> p[i] == q[i];
      WithoutLastFirst(arrived, p, t);
      var w := Without(p, t);
      forall i | 0 <= i < |w|
        ensures Later(arrived, w[i], last)
      {
        assert w[i] in p;
        var k :| 0 <= k < |p| && p[k] == w[i];
        assert Later(arrived, q[k], last);
      }
    }
  }

  lemma TailLastFirst(arrived: map<Tid, nat>, q: seq<Tid>)
    requires LastFirst(arrived, q) && q != []
    ensures LastFirst(arrived, q[1..]) && forall x :: x in q[1..] ==> Later(arrived, q[0], x)
  {
    forall i, j | 0 <= i < j < |q| - 1
      ensures Later(arrived, q[1..][i], q[1..][j])
    {
      assert Later(arrived, q[i + 1], q[j + 1]);
    }
    forall x | x in q[1..]
      ensures x in q && Later(arrived, q[0], x)
    {
      var k :| 0 <= k < |q| - 1 && q[1..][k] == x;
      assert Later(arrived, q[0], q[k + 1]);
    }
  }

  lemma PStepLastFirst(total: nat, s: Pool, a: PAction, arrived: map<Tid, nat>, n: nat)
    requires PInv(total, s) && PEnabled(s, a) && LastFirst(arrived, s.allocators.list) && Below(arrived, n)
    ensures var m := PNumbering(s, a, arrived, n);
            LastFirst(m, PStep(s, a).0.allocators.list) && Below(m, n + 1)
  {
    match a
    case PAlloc(t, _) =>
      assert !s.allocators.Has(t);
      NewestFirst(arrived, s.allocators.list, t, n);
    case PResume(t, _) => NewestFirst(arrived, s.allocators.list, t, n);
    case PFree(_) =>
      if s.allocators.list != [] {
        TailLastFirst(arrived, s.allocators.list);
      }
    case PExpire(t) => WithoutLastFirst(arrived, s.allocators.list, t);
  }

  lemma {:induction false} ListLastFirst(total: nat, run: seq<PAction>)
    ensures LastFirst(PArrived(total, run), PRun(total, run).0.allocators.list) && Below(PArrived(total, run), |run|)
  {
    if run != [] {
      var n := |run| - 1;
      var (s, ok) := PRun(total, run[..n]);
      ListLastFirst(total, run[..n]);
      if ok && PEnabled(s, run[n]) {
        PStepLastFirst(total, s, run[n], PArrived(total, run[..n]), n);
      }
    }
  }

  /** After any run: a block that is given back wakes, of the waiting threads, the one that began to wait last, and the
      others wait on in their order; nothing else wakes anybody. */
  lemma NewestIsWoken(total: nat, run: seq<PAction>, a: PAction)
    requires PEnabled(PRun(total, run).0, a)
    ensures var s, m := PRun(total, run).0, PArrived(total, run); var w, r := s.allocators, PStep(s, a).0.allocators;
            if a.PFree? && w.list != [] then
              && r.woken == w.woken + {w.list[0]} && w.list == [w.list[0]] + r.list
              && forall x :: x in r.list ==> Later(m, w.list[0], x)
            else r.woken <= w.woken
  {
    var s, m := PRun(total, run).0, PArrived(total, run);
    ListLastFirst(total, run);
    if s.allocators.list != [] {
      TailLastFirst(m, s.allocators.list);
    }
  }
}
