/** A memory pool and the scheduler together. */
module PoolDispatch {
  import opened WaitList
  import opened MailboxModel
  import opened PoolModel
  import opened Dispatch
  import S = SchedModel

  datatype Machine = Machine(pool: Pool, sched: S.Sched)

  datatype Event = Call(call: PAction) | System(op: S.SAction)

  function Listed(s: Pool): set<Tid> {
    Members(s.allocators.list)
  }

  /** What a section leaves to the scheduler. */
  function Leaves(s: Pool, a: PAction): Effect
    requires PEnabled(s, a)
  {
    match a
    case PAlloc(t, _) => if PStep(s, a).1.PBlocked? then Parks(t) else Nothing
    case PResume(t, _) => if PStep(s, a).1.PBlocked? then Parks(t) else Nothing
    case PFree(_) => FirstOf(s.allocators)
    case PExpire(t) => TimesOut(t)
  }

  ghost predicate MachineInv(total: nat, m: Machine) {
    PInv(total, m.pool) && S.SInv(m.sched) && Tied(m.sched, Listed(m.pool), m.pool.allocators.woken)
  }

  /** An allocation is run by the current thread; blocks are freed, and timers go off, anywhere. */
  predicate Can(m: Machine, e: Event) {
    match e
    case Call(a) =>
      && PEnabled(m.pool, a) && m.sched.current.Someone?
      && (a.PFree? || a.PExpire? || Runs(m.sched, a.t))
    case System(op) => S.SEnabled(m.sched, op) && forall t :: t in m.pool.calls ==> Spares(m.sched, op, t)
  }

  lemma AllocMoves(s: Pool, t: Tid, time: int)
    requires !s.allocators.Has(t)
    ensures var (r, status) := TryAlloc(s, t, time);
            Moves(if status.PBlocked? then Parks(t) else Nothing,
                  Listed(s), s.allocators.woken, Listed(r), r.allocators.woken)
  {
    assert forall x :: x in [t] + s.allocators.list <==> x == t || x in s.allocators.list;
  }

  lemma StepMoves(s: Pool, a: PAction)
    requires PPlacedBut(s, {}) && PEnabled(s, a)
    ensures var r := PStep(s, a).0;
            Moves(Leaves(s, a), Listed(s), s.allocators.woken, Listed(r), r.allocators.woken)
  {
    match a
    case PAlloc(t, time) => AllocMoves(s, t, time);
    case PResume(t, elapsed) =>
      RerunFine(s.allocators, t);
      AllocMoves(s.(allocators := Rerun(s.allocators, t)), t, Remaining(s.calls[t], elapsed));
    case PFree(_) =>
      if s.allocators.list != [] {
        WokenMove(s.allocators);
      }
    case PExpire(t) => CancelMembers(s.allocators, t);
  }

  lemma CallTies(total: nat, m: Machine, a: PAction)
    requires MachineInv(total, m) && Can(m, Call(a))
    ensures Possible(m.sched, Leaves(m.pool, a))
    ensures MachineInv(total, Machine(PStep(m.pool, a).0, Carry(m.sched, Leaves(m.pool, a))))
  {
    assert forall t :: t in m.pool.allocators.list ==> t in Listed(m.pool);
    FirstPossible(m.sched, m.pool.allocators);
    StepMoves(m.pool, a);
    PStepKeeps(total, m.pool, a);
    var r := PStep(m.pool, a).0;
    CarryTies(m.sched, Leaves(m.pool, a), Listed(m.pool), m.pool.allocators.woken, Listed(r), r.allocators.woken);
  }

  lemma SystemTies(total: nat, m: Machine, op: S.SAction)
    requires MachineInv(total, m) && Can(m, System(op))
    ensures MachineInv(total, m.(sched := S.SStep(m.sched, op)))
  {
    forall t | t in Listed(m.pool) || t in m.pool.allocators.woken
      ensures Spares(m.sched, op, t)
    {
      assert m.pool.allocators.Has(t);
    }
    S.SStepKeeps(m.sched, op);
    StepTies(m.sched, op, Listed(m.pool), m.pool.allocators.woken);
  }

  ghost function Do(total: nat, m: Machine, e: Event): (r: Machine)
    requires MachineInv(total, m) && Can(m, e)
    ensures MachineInv(total, r)
  {
    match e
    case Call(a) =>
      CallTies(total, m, a);
      Machine(PStep(m.pool, a).0, Carry(m.sched, Leaves(m.pool, a)))
    case System(op) =>
      SystemTies(total, m, op);
      m.(sched := S.SStep(m.sched, op))
  }

  lemma FreshInv(total: nat, threads: map<Tid, S.Thread>)
    requires S.AllInit(threads)
    ensures MachineInv(total, Machine(FullPool(total), S.NoneReady(threads)))
  {
    FullPoolInv(total);
    S.NoneReadyInv(threads);
  }

  ghost function DoAll(total: nat, threads: map<Tid, S.Thread>, run: seq<Event>): (r: (Machine, bool))
    requires S.AllInit(threads)
    ensures MachineInv(total, r.0)
  {
    FreshInv(total, threads);
    if run == [] then (Machine(FullPool(total), S.NoneReady(threads)), true)
    else
      var (m, ok) := DoAll(total, threads, run[..|run| - 1]);
      if ok && Can(m, run[|run| - 1]) then (Do(total, m, run[|run| - 1]), true) else (m, false)
  }

  lemma WokenGets(total: nat, m: Machine, elapsed: nat) returns (u: Tid)
    requires MachineInv(total, m) && m.pool.allocators.list != [] && m.pool.free != []
    ensures u in m.pool.allocators.woken && Queued(m.sched, u)
    ensures PEnabled(m.pool, PResume(u, elapsed)) && PStep(m.pool, PResume(u, elapsed)).1 == PGot(m.pool.free[0])
  {
    assert m.pool.allocators.woken != {};
    u :| u in m.pool.allocators.woken;
    assert m.pool.allocators.Has(u);
    AwakeIsQueued(m.sched, u);
  }

  /** In every run: a thread that waits for a block is suspended; one that has been woken is in the ready queue of its
      priority, or runs; and while a thread waits and a block is free, there is such a woken thread, which gets it. */
  lemma WokenIsReady(total: nat, threads: map<Tid, S.Thread>, run: seq<Event>, t: Tid, elapsed: nat)
    requires S.AllInit(threads)
    ensures var m := DoAll(total, threads, run).0;
            && (t in m.pool.allocators.list ==> t in m.sched.threads && m.sched.threads[t].phase == S.Suspended)
            && (t in m.pool.allocators.woken ==> Queued(m.sched, t))
    ensures var m := DoAll(total, threads, run).0;
            m.pool.allocators.list != [] && m.pool.free != [] ==>
              exists u :: u in m.pool.allocators.woken && Queued(m.sched, u) && PEnabled(m.pool, PResume(u, elapsed))
                          && PStep(m.pool, PResume(u, elapsed)).1 == PGot(m.pool.free[0])
  {
    var m := DoAll(total, threads, run).0;
    assert t in m.pool.allocators.list ==> t in Listed(m.pool);
    if t in m.pool.allocators.woken {
      AwakeIsQueued(m.sched, t);
    }
    if m.pool.allocators.list != [] && m.pool.free != [] {
      var u := WokenGets(total, m, elapsed);
    }
  }

  /** From a settled scheduler, the thread woken by a free has the processor afterwards if it outranks the running
      one; and if it does not, that one goes on, unless it has yielded to its equals. */
  lemma FreeHandsOver(total: nat, m: Machine, b: BlockId)
    requires MachineInv(total, m) && Can(m, Call(PFree(b))) && Settled(m.sched) && m.pool.allocators.list != []
    ensures var r, w, p := Do(total, m, Call(PFree(b))), m.pool.allocators.list[0], m.sched.threads;
            var me := m.sched.current.t;
            && w in p && me in p && Queued(r.sched, w) && r.pool.free[0] == b && w in r.pool.allocators.woken
            && (p[w].priority < p[me].priority ==> Runs(r.sched, w))
            && (p[w].priority >= p[me].priority && !p[me].gaveUp ==> Runs(r.sched, me))
  {
    var w := m.pool.allocators.list[0];
    assert w in Listed(m.pool);
    WakeDecides(m.sched, w);
    AwakeIsQueued(Do(total, m, Call(PFree(b))).sched, w);
  }
}
