/** What each operation of the scheduler does to the thread it is about, and what it leaves as it was. */
module SchedEffects {
  import opened LinkedNodes
  import opened SchedModel
  import opened WaitList

  /** No other thread differs. */
  ghost predicate OnlyThread(s: Sched, r: Sched, t: Tid) {
    r.threads.Keys == s.threads.Keys && forall x :: x in s.threads && x != t ==> r.threads[x] == s.threads[x]
  }

  /** t has left the queues, and the others wait in their order. */
  ghost predicate LeftQueues(s: Sched, r: Sched, t: Tid) {
    && |s.queues| == |r.queues| == PRIORITIES
    && forall p: nat :: p < PRIORITIES ==> r.queues[p] == Without(s.queues[p], t) && t !in r.queues[p]
  }

  /** t is the last in queue `at`, and the others wait in their order. */
  ghost predicate LastIn(s: Sched, r: Sched, t: Tid, at: nat) {
    && |s.queues| == |r.queues| == PRIORITIES
    && forall p: nat :: p < PRIORITIES ==>
                          r.queues[p] == Without(s.queues[p], t) + if p == at then [t] else []
  }

  lemma NotQueued(s: Sched, t: Tid, p: nat)
    requires Queues(s, {}) && p < PRIORITIES && !IsReady(s, t, p)
    ensures t !in s.queues[p] && Without(s.queues[p], t) == s.queues[p]
  {
    assert QueueOk(s, p, {});
    WithoutAbsent(s.queues[p], t);
  }

  lemma RemoveLeaves(s: Sched, t: Tid)
    requires Queues(s, {}) && Known(s, t)
    ensures LeftQueues(s, Remove(s, t), t) && Remove(s, t).threads == s.threads && Remove(s, t).current == s.current
    ensures Remove(s, t).locks == s.locks
  {
    forall p: nat | p < PRIORITIES
      ensures Remove(s, t).queues[p] == Without(s.queues[p], t)
    {
      if p != s.threads[t].priority {
        NotQueued(s, t, p);
      }
    }
  }

  lemma NobodyLeaves(s: Sched, t: Tid)
    requires Queues(s, {}) && t in s.threads && s.threads[t].phase != Ready
    ensures LeftQueues(s, s, t)
  {
    forall p: nat | p < PRIORITIES
      ensures s.queues[p] == Without(s.queues[p], t) && t !in s.queues[p]
    {
      NotQueued(s, t, p);
    }
  }

  /** A thread that is deleted or detached is closed and in no queue, whatever it was doing. */
  lemma DeleteCloses(s: Sched, t: Tid)
    requires SInv(s) && t in s.threads
    ensures var r := SStep(s, SDelete(t));
            && t in r.threads && r.threads[t].phase == Closed && OnlyThread(s, r, t) && LeftQueues(s, r, t)
            && r.current == s.current && r.locks == s.locks
  {
    if s.threads[t].phase == Closed || s.threads[t].phase == Init {
      NobodyLeaves(s, t);
    } else {
      RemoveLeaves(s, t);
    }
  }

  // ---------- scheduling ----------

  /** There is a thread that is ready. */
  ghost predicate SomeReady(s: Sched) {
    exists t :: t in s.threads && s.threads[t].phase == Ready
  }

  /** t is ready, no ready thread outranks it, and it is the first of its queue. */
  ghost predicate FirstReady(s: Sched, t: Tid) {
    && t in s.threads && s.threads[t].phase == Ready
    && (forall x :: x in s.threads && s.threads[x].phase == Ready ==> s.threads[t].priority <= s.threads[x].priority)
    && s.threads[t].priority < |s.queues| && s.queues[s.threads[t].priority] != []
    && s.queues[s.threads[t].priority][0] == t
  }

  lemma GroupIsReady(s: Sched)
    requires SInv(s)
    ensures s.group != {} <==> SomeReady(s)
    ensures s.group != {} ==>
              var top := FirstBit(s.group, 0);
              top < |s.queues| && s.queues[top] != [] && FirstReady(s, s.queues[top][0])
  {
    if t :| t in s.threads && s.threads[t].phase == Ready {
      assert QueueOk(s, s.threads[t].priority, {}) && IsReady(s, t, s.threads[t].priority);
    }
    if s.group != {} {
      TopIsQueued(s);
      var top := FirstBit(s.group, 0);
      forall x | x in s.threads && s.threads[x].phase == Ready
        ensures top <= s.threads[x].priority
      {
        assert QueueOk(s, s.threads[x].priority, {}) && IsReady(s, x, s.threads[x].priority);
      }
    }
  }

  /** What a scheduling does to the threads: no priority changes; the one that gets the processor runs; the one that
      loses it while running is ready again; nothing else changes its state. */
  lemma ScheduleThreads(s: Sched, x: Tid)
    requires SInv(s) && s.current.Someone? && x in s.threads
    ensures var r := Schedule(s);
            && r.locks == s.locks && r.current.Someone? && r.threads.Keys == s.threads.Keys
            && r.threads[x].priority == s.threads[x].priority && r.threads[x].initPriority == s.threads[x].initPriority
            && (r.threads[x].phase != s.threads[x].phase ==>
                  && s.current != r.current
                  && if r.current == Someone(x) then s.threads[x].phase == Ready && r.threads[x].phase == Running
                     else s.current == Someone(x) && s.threads[x].phase == Running && r.threads[x].phase == Ready)
  {
    if s.locks == 0 && s.group != {} {
      TopIsQueued(s);
    }
  }

  /** With the scheduler unlocked and a thread ready, a current thread that does not run any more is replaced by the
      first of the highest ready threads. */
  lemma IdleIsReplaced(s: Sched)
    requires SInv(s) && s.current.Someone? && s.locks == 0 && s.threads[s.current.t].phase != Running && SomeReady(s)
    ensures var r := Schedule(s);
            && r.current.Someone? && r.current != s.current && FirstReady(s, r.current.t)
            && r.current.t in r.threads && r.threads[r.current.t].phase == Running
  {
    GroupIsReady(s);
    TopIsQueued(s);
  }

  /** A thread that exits is closed and, with the scheduler unlocked and a thread ready, no longer the current one: the
      first of the highest ready threads runs. */
  lemma ExitGivesWay(s: Sched)
    requires SInv(s) && s.current.Someone?
    ensures var me, r := s.current.t, SStep(s, SExit);
            && me in r.threads && r.threads[me].phase == Closed
            && if s.locks == 0 && SomeReady(s) then
                 && r.current.Someone? && r.current.t != me && FirstReady(s, r.current.t)
                 && r.current.t in r.threads && r.threads[r.current.t].phase == Running
               else r.current == s.current
  {
    var me := s.current.t;
    var q := Delete(s, me);
    DeleteKeeps(s, me);
    DeleteCloses(s, me);
    ScheduleSparesClosed(q, me);
    GroupIsReady(q);
    SameReady(s, q, me);
    if s.locks == 0 && SomeReady(s) {
      IdleIsReplaced(q);
    }
  }

  /** Without a thread that was not ready, the same threads are ready in the same order. */
  lemma SameReady(s: Sched, q: Sched, t: Tid)
    requires SInv(s) && t in s.threads && s.threads[t].phase != Ready
    requires t in q.threads && q.threads[t].phase != Ready && OnlyThread(s, q, t) && LeftQueues(s, q, t)
    ensures SomeReady(s) <==> SomeReady(q)
    ensures forall x :: FirstReady(q, x) ==> FirstReady(s, x)
  {
    NobodyLeaves(s, t);
    forall x
      ensures x in s.threads && s.threads[x].phase == Ready <==> x in q.threads && q.threads[x].phase == Ready
    {
    }
    forall x | FirstReady(q, x)
      ensures FirstReady(s, x)
    {
      assert s.threads[x] == q.threads[x];
    }
  }

  /** `rt_system_scheduler_start` gives the processor to the first of the highest ready threads. */
  lemma BeginRuns(s: Sched)
    requires SInv(s) && SEnabled(s, SBegin)
    ensures var r := SStep(s, SBegin);
            && r.current.Someone? && FirstReady(s, r.current.t) && OnlyThread(s, r, r.current.t)
            && r.current.t in r.threads && r.threads[r.current.t].phase == Running && LeftQueues(s, r, r.current.t)
            && r.locks == s.locks
  {
    GroupIsReady(s);
    TopIsQueued(s);
    var to := s.queues[FirstBit(s.group, 0)][0];
    var a := s.(current := Someone(to));
    SameQueues(s, a, {});
    RemoveLeaves(a, to);
  }

  // ---------- one thread ----------

  /** A ready or running thread that is suspended is in no queue; any other is refused, and nothing changes. */
  lemma SuspendSets(s: Sched, t: Tid)
    requires SInv(s) && t in s.threads
    ensures var (r, ok) := SchedModel.Suspend(s, t);
            && (ok <==> s.threads[t].phase == Ready || s.threads[t].phase == Running) && (!ok ==> r == s)
            && (ok ==>
                  && t in r.threads && r.threads[t] == s.threads[t].(phase := Suspended) && OnlyThread(s, r, t)
                  && LeftQueues(s, r, t) && r.current == s.current && r.locks == s.locks)
  {
    RemoveLeaves(s, t);
  }

  lemma InsertSets(s: Sched, t: Tid)
    requires Queues(s, {}) && Known(s, t) && s.threads[t].phase != Ready && s.current != Someone(t)
    ensures var r := Insert(s, t);
            && t in r.threads && r.threads[t] == s.threads[t].(phase := Ready) && OnlyThread(s, r, t)
            && LastIn(s, r, t, s.threads[t].priority) && r.current == s.current && r.locks == s.locks
  {
    NobodyLeaves(s, t);
  }

  /** A suspended thread that is resumed is ready, behind all others of its priority; any other is refused, and nothing
      changes. The current thread, which may be resumed before it has been switched away from, runs on. */
  lemma ResumeSets(s: Sched, t: Tid)
    requires SInv(s) && t in s.threads
    ensures var (r, ok) := Resume(s, t);
            && (ok <==> s.threads[t].phase == Suspended) && (!ok ==> r == s)
            && (ok ==>
                  && t in r.threads && OnlyThread(s, r, t) && r.current == s.current && r.locks == s.locks
                  && if s.current == Someone(t) then
                       r.threads[t] == s.threads[t].(phase := Running) && r.queues == s.queues
                     else r.threads[t] == s.threads[t].(phase := Ready) && LastIn(s, r, t, s.threads[t].priority))
  {
    if s.threads[t].phase == Suspended && s.current != Someone(t) {
      InsertSets(s, t);
    }
  }

  /** A change of priority gives the thread the new number and nothing else; a ready thread goes to the end of the queue
      of its new priority, even if that is the one it had. */
  lemma PrioritySets(s: Sched, t: Tid, priority: nat)
    requires SInv(s) && t in s.threads && priority < PRIORITIES
    ensures var r := SStep(s, SSetPriority(t, priority));
            && t in r.threads && r.threads[t] == s.threads[t].(priority := priority) && OnlyThread(s, r, t)
            && r.current == s.current && r.locks == s.locks
            && if s.threads[t].phase == Ready then LastIn(s, r, t, priority) else r.queues == s.queues
  {
    if s.threads[t].phase == Ready {
      RemoveLeaves(s, t);
      NotCurrent(s, t);
    }
  }

  lemma NotCurrent(s: Sched, t: Tid)
    requires SInv(s) && t in s.threads && s.threads[t].phase == Ready
    ensures s.current != Someone(t)
  {
  }

  /** A thread that is started has the priority it was initialised with, and is ready behind all others of it; whether
      it runs at once is for the scheduling that follows. */
  lemma StartupSets(s: Sched, t: Tid)
    requires SInv(s) && SEnabled(s, SStartup(t))
    ensures var r := Launch(s, t); var th := s.threads[t];
            && t in r.threads && r.threads[t] == Thread(th.initPriority, th.initPriority, Ready, false)
            && OnlyThread(s, r, t) && LastIn(s, r, t, th.initPriority) && r.current == s.current && r.locks == s.locks
            && SInv(r) && SStep(s, SStartup(t)) == ScheduleIfStarted(r)
  {
    var th := s.threads[t];
    var a := s.(threads := s.threads[t := th.(priority := th.initPriority, phase := Suspended, gaveUp := false)]);
    SameQueues(s, a, {});
    LaunchKeeps(s, t);
    InsertSets(a, t);
  }

  /** A thread whose time has run out runs at once if it outranks the current one and every thread that is ready. */
  lemma TimeoutRuns(s: Sched, t: Tid)
    requires SInv(s) && SEnabled(s, STimeout(t)) && s.locks == 0 && s.current != Someone(t)
    requires s.threads[s.current.t].priority > s.threads[t].priority
    requires forall x :: x in s.threads && s.threads[x].phase == Ready ==> s.threads[x].priority > s.threads[t].priority
    ensures var r := SStep(s, STimeout(t));
            r.current == Someone(t) && t in r.threads && r.threads[t] == s.threads[t].(phase := Running)
  {
    var q := Insert(s, t);
    ResumeKeeps(s, t);
    InsertSets(s, t);
    GroupIsReady(q);
    assert q.threads[t].phase == Ready;
    TopIsQueued(q);
  }

  /** Entering and leaving a critical section changes nothing but, with the last one left, who has the processor. */
  lemma EnterLeave(s: Sched)
    requires SInv(s)
    ensures var r := SStep(s, SEnter);
            SInv(r) && r.locks > 0 && SStep(r, SLeave) == if s.locks == 0 then ScheduleIfStarted(s) else s
  {
    SStepKeeps(s, SEnter);
  }
}
