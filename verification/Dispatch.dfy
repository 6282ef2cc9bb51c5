/** What the sections of an IPC call do to the scheduler: they suspend their caller, resume waiters, and schedule. A
    thread in a wait list is suspended; one that has been woken from it is in the ready queue of its priority, or has
    the processor. */
module Dispatch {
  import opened LinkedNodes
  import opened WaitList
  import S = SchedModel

  /** The end of a section: the caller goes to sleep; the threads of `q` are resumed, the first one first; or the timer
      of a sleeping thread goes off. */
  datatype Effect = Nothing | Parks(t: Tid) | Wakes(q: seq<Tid>) | TimesOut(t: Tid)

  /** `rt_ipc_list_resume`, if somebody waits. */
  function FirstOf(w: Waiters): Effect {
    if w.list == [] then Nothing else Wakes([w.list[0]])
  }

  ghost predicate Asleep(s: S.Sched, t: Tid) {
    t in s.threads && s.threads[t].phase == S.Suspended
  }

  ghost predicate Awake(s: S.Sched, t: Tid) {
    t in s.threads && (s.threads[t].phase == S.Ready || s.threads[t].phase == S.Running)
  }

  predicate Runs(s: S.Sched, t: Tid) {
    s.current == S.Someone(t) && t in s.threads && s.threads[t].phase == S.Running
  }

  ghost predicate Possible(s: S.Sched, e: Effect) {
    && s.current.Someone?
    && match e
       case Nothing => true
       case Parks(t) => Runs(s, t)
       case Wakes(q) => forall t :: t in q ==> t in s.threads
       case TimesOut(t) => Asleep(s, t)
  }

  ghost function ResumeEach(s: S.Sched, q: seq<Tid>): (r: S.Sched)
    requires S.SInv(s) && forall t :: t in q ==> t in s.threads
    ensures S.SInv(r) && r.current == s.current && r.locks == s.locks && r.threads.Keys == s.threads.Keys
    decreases |q|
  {
    if q == [] then s else
      S.ResumeKeeps(s, q[0]);
      ResumeEach(S.Resume(s, q[0]).0, q[1..])
  }

  /** The scheduler after the section: `rt_thread_suspend` or `rt_thread_resume`, and `rt_schedule`. */
  ghost function Carry(s: S.Sched, e: Effect): (r: S.Sched)
    requires S.SInv(s) && Possible(s, e)
    ensures S.SInv(r)
  {
    match e
    case Nothing => s
    case Parks(t) =>
      S.SuspendKeeps(s, t);
      S.ScheduleKeeps(S.Suspend(s, t).0);
      S.Schedule(S.Suspend(s, t).0)
    case Wakes(q) =>
      S.ScheduleKeeps(ResumeEach(s, q));
      S.Schedule(ResumeEach(s, q))
    case TimesOut(t) =>
      S.SStepKeeps(s, S.STimeout(t));
      S.SStep(s, S.STimeout(t))
  }

  // ---------- sleeping and waking ----------

  /** The threads of `l` are suspended, those of `w` ready or running. */
  ghost predicate Tied(s: S.Sched, l: set<Tid>, w: set<Tid>) {
    (forall t :: t in l ==> Asleep(s, t)) && (forall t :: t in w ==> Awake(s, t))
  }

  /** Nothing about thread t's being asleep or awake has changed. */
  ghost predicate SameState(s: S.Sched, r: S.Sched, t: Tid) {
    (Asleep(s, t) ==> Asleep(r, t)) && (Awake(s, t) ==> Awake(r, t))
  }

  lemma ScheduleSame(s: S.Sched, t: Tid)
    requires S.SInv(s) && s.current.Someone?
    ensures SameState(s, S.Schedule(s), t)
  {
    if s.locks == 0 && s.group != {} {
      S.TopIsQueued(s);
    }
  }

  lemma SuspendPhases(s: S.Sched, t: Tid, x: Tid)
    requires S.SInv(s) && Runs(s, t)
    ensures var r := S.Suspend(s, t).0; Asleep(r, t) && r.current == s.current && (x != t ==> SameState(s, r, x))
  {
  }

  lemma ResumePhases(s: S.Sched, t: Tid, x: Tid)
    requires S.SInv(s) && t in s.threads
    ensures var r := S.Resume(s, t).0;
            && (Asleep(s, t) || Awake(s, t) ==> Awake(r, t)) && (x != t ==> SameState(s, r, x))
  {
  }

  lemma {:induction false} ResumeEachPhases(s: S.Sched, q: seq<Tid>, x: Tid)
    requires S.SInv(s) && forall t :: t in q ==> t in s.threads
    ensures var r := ResumeEach(s, q);
            && (x in q && (Asleep(s, x) || Awake(s, x)) ==> Awake(r, x)) && (x !in q ==> SameState(s, r, x))
            && (Awake(s, x) ==> Awake(r, x))
    decreases |q|
  {
    if q != [] {
      S.ResumeKeeps(s, q[0]);
      ResumePhases(s, q[0], x);
      ResumeEachPhases(S.Resume(s, q[0]).0, q[1..], x);
    }
  }

  /** What an effect says about the threads that wait and those that are woken, before (l, w) and after (l2, w2). */
  ghost predicate Moves(e: Effect, l: set<Tid>, w: set<Tid>, l2: set<Tid>, w2: set<Tid>) {
    match e
    case Nothing => l2 <= l && w2 <= w
    case Parks(t) => l2 <= l + {t} && w2 <= w - {t}
    case Wakes(q) => l2 <= l - Members(q) && w2 <= w + Members(q) && Members(q) <= l
    case TimesOut(t) => t in l && l2 <= l - {t} && w2 <= w
  }

  lemma CarryTies(s: S.Sched, e: Effect, l: set<Tid>, w: set<Tid>, l2: set<Tid>, w2: set<Tid>)
    requires S.SInv(s) && Possible(s, e) && Tied(s, l, w) && Moves(e, l, w, l2, w2)
    ensures Tied(Carry(s, e), l2, w2)
  {
    match e
    case Nothing =>
    case Parks(t) =>
      var a := S.Suspend(s, t).0;
      S.SuspendKeeps(s, t);
      forall x
        ensures x in l2 ==> Asleep(S.Schedule(a), x)
        ensures x in w2 ==> Awake(S.Schedule(a), x)
      {
        SuspendPhases(s, t, x);
        ScheduleSame(a, x);
      }
    case Wakes(q) =>
      var a := ResumeEach(s, q);
      forall x
        ensures x in l2 ==> Asleep(S.Schedule(a), x)
        ensures x in w2 ==> Awake(S.Schedule(a), x)
      {
        assert x in q <==> x in Members(q);
        ResumeEachPhases(s, q, x);
        ScheduleSame(a, x);
      }
    case TimesOut(t) =>
      var a := S.Insert(s, t);
      S.ResumeKeeps(s, t);
      forall x
        ensures x in l2 ==> Asleep(S.Schedule(a), x)
        ensures x in w2 ==> Awake(S.Schedule(a), x)
      {
        ResumePhases(s, t, x);
        ScheduleSame(a, x);
      }
  }

  lemma WokenMove(w: Waiters)
    requires Fine(w) && w.list != []
    ensures Members(WakeOne(w).list) == Members(w.list) - {w.list[0]} && WakeOne(w).woken == w.woken + {w.list[0]}
    ensures Members([w.list[0]]) == {w.list[0]} && w.list[0] in Members(w.list)
  {
    assert forall x :: x in w.list <==> x == w.list[0] || x in w.list[1..];
  }

  lemma CancelMembers(w: Waiters, t: Tid)
    ensures Members(Cancel(w, t).list) == Members(w.list) - {t} && Cancel(w, t).woken == w.woken
  {
  }

  lemma FirstPossible(s: S.Sched, w: Waiters)
    requires s.current.Someone? && forall t :: t in w.list ==> Asleep(s, t)
    ensures Possible(s, FirstOf(w))
  {
    if w.list != [] {
      assert w.list[0] in w.list;
    }
  }

  /** An operation that does not name thread t, which waits in a call or is on its way out of one. */
  predicate Spares(s: S.Sched, a: S.SAction, t: Tid) {
    match a
    case SSuspend(x) => x != t
    case SResume(x) => x != t
    case STimeout(x) => x != t
    case SDelete(x) => x != t
    case SStartup(x) => x != t
    case SExit => s.current != S.Someone(t)
    case _ => true
  }

  lemma StepSame(s: S.Sched, a: S.SAction, t: Tid)
    requires S.SInv(s) && S.SEnabled(s, a) && Spares(s, a, t)
    ensures SameState(s, S.SStep(s, a), t)
  {
    match a
    case SSchedule => ScheduleSame(s, t);
    case SYield =>
      S.YieldReady(s);
      ScheduleSame(s.(threads := s.threads[s.current.t := s.threads[s.current.t].(gaveUp := true)]), t);
    case STimeout(x) =>
      S.ResumeKeeps(s, x);
      ScheduleSame(S.Insert(s, x), t);
    case SStartup(x) =>
      S.LaunchKeeps(s, x);
      if s.current.Someone? {
        ScheduleSame(S.Launch(s, x), t);
      }
    case SExit =>
      S.DeleteKeeps(s, s.current.t);
      ScheduleSame(S.Delete(s, s.current.t), t);
    case SLeave =>
      S.SameQueues(s, s.(locks := 0), {});
      if s.locks <= 1 && s.current.Someone? {
        ScheduleSame(s.(locks := 0), t);
      }
    case SBegin =>
      S.TopIsQueued(s);
    case _ =>
  }

  lemma StepTies(s: S.Sched, a: S.SAction, l: set<Tid>, w: set<Tid>)
    requires S.SInv(s) && S.SEnabled(s, a) && Tied(s, l, w) && forall t :: t in l || t in w ==> Spares(s, a, t)
    ensures Tied(S.SStep(s, a), l, w)
  {
    forall t | t in l || t in w
      ensures SameState(s, S.SStep(s, a), t)
    {
      StepSame(s, a, t);
    }
  }

  // ---------- who runs after a wakeup ----------

  /** No ready thread outranks the current one, as rt_schedule leaves it when the scheduler is unlocked. */
  ghost predicate Settled(s: S.Sched) {
    && s.locks == 0 && s.current.Someone? && Runs(s, s.current.t)
    && forall x, p :: S.IsReady(s, x, p) ==> s.threads[s.current.t].priority <= p
  }

  predicate InQueue(s: S.Sched, t: Tid, p: nat) {
    p < |s.queues| && t in s.queues[p]
  }

  /** Running, or ready in the queue of its priority. */
  predicate Queued(s: S.Sched, t: Tid) {
    && t in s.threads
    && (|| Runs(s, t)
        || (s.threads[t].phase == S.Ready && InQueue(s, t, s.threads[t].priority)))
  }

  lemma AwakeIsQueued(s: S.Sched, t: Tid)
    requires S.SInv(s) && Awake(s, t)
    ensures Queued(s, t)
  {
    var p := s.threads[t].priority;
    assert S.QueueOk(s, p, {});
    assert s.threads[t].phase == S.Ready ==> S.IsReady(s, t, p);
  }

  lemma FirstIsMember(q: seq<Tid>)
    ensures q == [] || exists t :: t in q
  {
    assert q != [] ==> q[0] in q;
  }

  lemma NoneAbove(s: S.Sched, p: nat)
    requires S.SInv(s) && Settled(s) && p < s.threads[s.current.t].priority && p < S.PRIORITIES
    ensures s.queues[p] == [] && p !in s.group
  {
    assert S.QueueOk(s, p, {});
    FirstIsMember(s.queues[p]);
  }

  /** From a settled scheduler, a thread that is woken gets the processor at once if it outranks the running one, which
      is then ready. If it does not, the running thread goes on, unless it has yielded to its equals. */
  lemma WakeDecides(s: S.Sched, w: Tid)
    requires S.SInv(s) && Settled(s) && Asleep(s, w)
    ensures var r, me := Carry(s, Wakes([w])), s.current.t;
            && (s.threads[w].priority < s.threads[me].priority ==> Runs(r, w) && Awake(r, me))
            && (s.threads[w].priority >= s.threads[me].priority && !s.threads[me].gaveUp ==> Runs(r, me))
            && w != me && Awake(r, w)
  {
    var me, p := s.current.t, s.threads[w].priority;
    S.ResumeKeeps(s, w);
    var a := S.Insert(s, w);
    assert ResumeEach(s, [w]) == a;
    var first := S.FirstBit(a.group, 0);
    assert p in a.group;
    S.TopIsQueued(a);
    forall q: nat | q < s.threads[me].priority && q < S.PRIORITIES
      ensures q !in s.group && s.queues[q] == []
    {
      NoneAbove(s, q);
    }
    ResumeEachPhases(s, [w], w);
    ScheduleSame(a, w);
    ScheduleSame(a, me);
    S.ScheduleQueues(a, first);
    S.HighestRuns(a, w);
    if p < s.threads[me].priority {
      assert first == p;
    } else {
      assert first >= s.threads[me].priority;
    }
  }
}
