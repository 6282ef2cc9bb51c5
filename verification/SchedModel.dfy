/** The uniprocessor scheduler of `scheduler.c` and the thread states of `thread.c`, as functions on the ready
    queues, the ready bitmap, the threads' states and the current thread. The bitmap is only ever used with
    `|= mask`, `&= ~mask`, `!= 0` and `__rt_ffs`, so it is the set of the numbers of its bits. */
module SchedModel {
  import opened LinkedNodes
  import opened WaitList

  const PRIORITIES: nat := 32

  datatype Phase = Init | Ready | Suspended | Running | Closed

  /** `gaveUp` is RT_THREAD_STAT_YIELD. */
  datatype Thread = Thread(priority: nat, initPriority: nat, phase: Phase, gaveUp: bool)

  datatype Current = NoThread | Someone(t: Tid)

  datatype Sched = Sched(queues: seq<seq<Tid>>, group: set<nat>, threads: map<Tid, Thread>, current: Current,
                         locks: nat)

  // ---------- queues and bitmap ----------

  function SetPhase(s: Sched, t: Tid, phase: Phase): Sched
    requires t in s.threads
  {
    s.(threads := s.threads[t := s.threads[t].(phase := phase)])
  }

  predicate Known(s: Sched, t: Tid) {
    |s.queues| == PRIORITIES && t in s.threads && s.threads[t].priority < PRIORITIES
  }

  /** `rt_schedule_insert_thread`. */
  function Insert(s: Sched, t: Tid): Sched
    requires Known(s, t)
  {
    if s.current == Someone(t) then SetPhase(s, t, Running)
    else
      var p := s.threads[t].priority;
      SetPhase(s, t, Ready).(queues := s.queues[p := s.queues[p] + [t]], group := s.group + {p})
  }

  /** `rt_schedule_remove_thread`. */
  function Remove(s: Sched, t: Tid): Sched
    requires Known(s, t)
  {
    var p := s.threads[t].priority;
    var q := Without(s.queues[p], t);
    s.(queues := s.queues[p := q], group := if q == [] then s.group - {p} else s.group)
  }

  /** `__rt_ffs(group) - 1`, from bit `from` on. */
  function FirstBit(group: set<nat>, from: nat): (p: nat)
    requires from <= PRIORITIES
    ensures from <= p <= PRIORITIES
    ensures forall q :: from <= q < p ==> q !in group
    ensures p < PRIORITIES ==> p in group
    decreases PRIORITIES - from
  {
    if from == PRIORITIES || from in group then from else FirstBit(group, from + 1)
  }

  /** The current thread loses the processor to the first of the highest queue. */
  function Switch(s: Sched, to: Tid, back: bool): Sched
    requires s.current.Someone? && Known(s, to) && Known(s, s.current.t)
  {
    var a := s.(current := Someone(to));
    var b := if back then Insert(a, s.current.t) else a;
    SetPhase(Remove(b, to), to, Running)
  }

  /** What the processor is given to when the current thread is still running. */
  predicate StaysOn(s: Sched, c: Thread, highest: nat) {
    c.priority < highest || (c.priority == highest && !c.gaveUp)
  }

  /** `rt_schedule`. */
  function Schedule(s: Sched): Sched
    requires SInv(s) && s.current.Someone?
  {
    if s.locks != 0 || s.group == {} then s
    else
      var highest := FirstBit(s.group, 0);
      TopIsQueued(s);
      var to, me := s.queues[highest][0], s.current.t;
      var c := s.threads[me];
      if c.phase != Running then Switch(s, to, false)
      else
        var r := s.(threads := s.threads[me := c.(gaveUp := false)]);
        if StaysOn(s, c, highest) then SetPhase(Remove(r, me), me, Running) else Switch(r, to, true)
  }

  // ---------- the invariant ----------

  predicate IsReady(s: Sched, t: Tid, p: nat) {
    t in s.threads && s.threads[t].phase == Ready && s.threads[t].priority == p
  }

  /** Queue p holds exactly the threads that are ready with priority p, once each, the `exempt` ones left
      aside; and bit p says whether there are any. */
  ghost predicate QueueOk(s: Sched, p: nat, exempt: set<Tid>)
    requires p < |s.queues|
  {
    && NoDup(s.queues[p]) && (forall t :: t in s.queues[p] <==> IsReady(s, t, p) && t !in exempt)
    && (p in s.group <==> s.queues[p] != [])
  }

  ghost predicate Queues(s: Sched, exempt: set<Tid>) {
    && |s.queues| == PRIORITIES
    && (forall p: nat :: p < PRIORITIES ==> QueueOk(s, p, exempt))
    && (forall p :: p in s.group ==> p < PRIORITIES)
  }

  ghost predicate Bounded(s: Sched) {
    forall t :: t in s.threads ==> s.threads[t].priority < PRIORITIES && s.threads[t].initPriority < PRIORITIES
  }

  /** Only the current thread can be running; it may have suspended or closed itself, but it is not ready. */
  ghost predicate OneRuns(s: Sched) {
    && (forall t :: t in s.threads && s.threads[t].phase == Running ==> s.current == Someone(t))
    && (s.current.Someone? ==>
          s.current.t in s.threads && s.threads[s.current.t].phase != Ready && s.threads[s.current.t].phase != Init)
  }

  ghost predicate SInv(s: Sched) {
    Queues(s, {}) && Bounded(s) && OneRuns(s)
  }

  lemma TopIsQueued(s: Sched)
    requires SInv(s) && s.group != {}
    ensures var p := FirstBit(s.group, 0);
            p < PRIORITIES && s.queues[p] != [] && IsReady(s, s.queues[p][0], p)
            && Known(s, s.queues[p][0]) && s.current != Someone(s.queues[p][0])
  {
    var q :| q in s.group;
    var p := FirstBit(s.group, 0);
    assert p <= q;
    assert QueueOk(s, p, {});
    assert s.queues[p][0] in s.queues[p];
  }

  // ---------- what the pieces do to the queues ----------

  lemma InsertQueues(s: Sched, t: Tid)
    requires Queues(s, {t}) && Known(s, t) && s.current != Someone(t)
    ensures Queues(Insert(s, t), {})
  {
    var r := Insert(s, t);
    forall p: nat | p < PRIORITIES
      ensures QueueOk(r, p, {})
    {
      assert QueueOk(s, p, {t});
      assert forall x :: x in r.queues[p] <==> x in s.queues[p] || (x == t && p == s.threads[t].priority);
      assert forall x :: x != t ==> (IsReady(r, x, p) <==> IsReady(s, x, p));
    }
  }

  lemma RemoveQueues(s: Sched, t: Tid)
    requires Queues(s, {}) && Known(s, t)
    ensures Queues(Remove(s, t), {t})
  {
    var r := Remove(s, t);
    forall p: nat | p < PRIORITIES
      ensures QueueOk(r, p, {t})
    {
      assert QueueOk(s, p, {});
      WithoutKeeps(s.queues[p], t, map[]);
      assert forall x :: IsReady(r, x, p) <==> IsReady(s, x, p);
      if p != s.threads[t].priority {
        assert !IsReady(s, t, p);
      }
    }
  }

  /** A thread that is not ready, before or after, is in no queue. */
  lemma PhaseQueues(s: Sched, t: Tid, phase: Phase)
    requires Queues(s, {t}) && t in s.threads && phase != Ready
    ensures Queues(SetPhase(s, t, phase), {})
  {
    var r := SetPhase(s, t, phase);
    forall p: nat | p < PRIORITIES
      ensures QueueOk(r, p, {})
    {
      assert QueueOk(s, p, {t});
      assert forall x :: x != t ==> (IsReady(r, x, p) <==> IsReady(s, x, p));
    }
  }

  lemma Exempt(s: Sched, t: Tid)
    requires Queues(s, {}) && t in s.threads && s.threads[t].phase != Ready
    ensures Queues(s, {t})
  {
    forall p: nat | p < PRIORITIES
      ensures QueueOk(s, p, {t})
    {
      assert QueueOk(s, p, {});
      assert !IsReady(s, t, p);
    }
  }

  /** Only fields that say nothing about readiness differ. */
  lemma SameQueues(s: Sched, r: Sched, exempt: set<Tid>)
    requires Queues(s, exempt) && r.queues == s.queues && r.group == s.group
    requires forall t, p :: IsReady(r, t, p) <==> IsReady(s, t, p)
    ensures Queues(r, exempt)
  {
    forall p: nat | p < PRIORITIES
      ensures QueueOk(r, p, exempt)
    {
      assert QueueOk(s, p, exempt);
    }
  }

  // ---------- operations of thread.c ----------

  /** `rt_thread_suspend`: false for a thread that is neither ready nor running. */
  function Suspend(s: Sched, t: Tid): (Sched, bool)
    requires Known(s, t)
  {
    if s.threads[t].phase != Ready && s.threads[t].phase != Running then (s, false)
    else (SetPhase(Remove(s, t), t, Suspended), true)
  }

  /** `rt_thread_resume`. */
  function Resume(s: Sched, t: Tid): (Sched, bool)
    requires Known(s, t)
  {
    if s.threads[t].phase != Suspended then (s, false) else (Insert(s, t), true)
  }

  /** RT_THREAD_CTRL_CHANGE_PRIORITY of `rt_thread_control`. */
  function SetPriority(s: Sched, t: Tid, priority: nat): Sched
    requires Known(s, t) && priority < PRIORITIES
  {
    if s.threads[t].phase == Ready then
      var a := Remove(s, t);
      Insert(a.(threads := a.threads[t := a.threads[t].(priority := priority)]), t)
    else
      s.(threads := s.threads[t := s.threads[t].(priority := priority)])
  }

  /** `rt_thread_startup`, up to the scheduling at its end. */
  function Launch(s: Sched, t: Tid): Sched
    requires Known(s, t) && s.threads[t].initPriority < PRIORITIES
  {
    var th := s.threads[t];
    var a := s.(threads := s.threads[t := th.(priority := th.initPriority, phase := Suspended, gaveUp := false)]);
    Resume(a, t).0
  }

  /** `rt_thread_delete` and `rt_thread_detach`, and `rt_thread_exit` up to the scheduling. */
  function Delete(s: Sched, t: Tid): Sched
    requires Known(s, t)
  {
    if s.threads[t].phase == Closed then s
    else
      var a := if s.threads[t].phase != Init then Remove(s, t) else s;
      a.(threads := a.threads[t := a.threads[t].(phase := Closed, gaveUp := false)])
  }

  /** `rt_thread_yield`, and the end of a time slice in `rt_tick_increase`. */
  function Yield(s: Sched): Sched
    requires SInv(s) && s.current.Someone?
  {
    var me := s.current.t;
    var a := s.(threads := s.threads[me := s.threads[me].(gaveUp := true)]);
    YieldReady(s);
    Schedule(a)
  }

  lemma YieldReady(s: Sched)
    requires SInv(s) && s.current.Someone?
    ensures var me := s.current.t; SInv(s.(threads := s.threads[me := s.threads[me].(gaveUp := true)]))
  {
    var me := s.current.t;
    SameQueues(s, s.(threads := s.threads[me := s.threads[me].(gaveUp := true)]), {});
  }

  // ---------- steps ----------

  datatype SAction =
    | SSchedule
    | SYield
    | SSuspend(t: Tid)
    | SResume(t: Tid)
    | STimeout(t: Tid)
    | SSetPriority(t: Tid, priority: nat)
    | SStartup(t: Tid)
    | SDelete(t: Tid)
    | SExit
    | SEnter
    | SLeave
    | SBegin

  predicate SEnabled(s: Sched, a: SAction) {
    match a
    case SSchedule => s.current.Someone?
    case SYield => s.current.Someone?
    case SSuspend(t) => t in s.threads
    case SResume(t) => t in s.threads
    case STimeout(t) => t in s.threads && s.threads[t].phase == Suspended && s.current.Someone?
    case SSetPriority(t, priority) => t in s.threads && priority < PRIORITIES
    case SStartup(t) => t in s.threads && s.threads[t].phase == Init
    case SDelete(t) => t in s.threads
    case SExit => s.current.Someone?
    case SEnter => true
    case SLeave => true
    case SBegin => s.current.NoThread? && s.group != {}
  }

  function ScheduleIfStarted(s: Sched): Sched
    requires SInv(s)
  {
    if s.current.Someone? then Schedule(s) else s
  }

  /** `rt_system_scheduler_start`. */
  function Begin(s: Sched): Sched
    requires SInv(s) && s.group != {}
  {
    TopIsQueued(s);
    var to := s.queues[FirstBit(s.group, 0)][0];
    SetPhase(Remove(s.(current := Someone(to)), to), to, Running)
  }

  function SStep(s: Sched, a: SAction): Sched
    requires SInv(s) && SEnabled(s, a)
  {
    match a
    case SSchedule => Schedule(s)
    case SYield => Yield(s)
    case SSuspend(t) => Suspend(s, t).0
    case SResume(t) => Resume(s, t).0
    case STimeout(t) =>
      ResumeKeeps(s, t);
      Schedule(Insert(s, t))
    case SSetPriority(t, priority) => SetPriority(s, t, priority)
    case SStartup(t) =>
      LaunchKeeps(s, t);
      ScheduleIfStarted(Launch(s, t))
    case SDelete(t) => Delete(s, t)
    case SExit =>
      DeleteKeeps(s, s.current.t);
      Schedule(Delete(s, s.current.t))
    case SEnter => s.(locks := s.locks + 1)
    case SLeave =>
      if s.locks <= 1 then
        SameQueues(s, s.(locks := 0), {});
        ScheduleIfStarted(s.(locks := 0))
      else s.(locks := s.locks - 1)
    case SBegin => Begin(s)
  }

  lemma SuspendKeeps(s: Sched, t: Tid)
    requires SInv(s) && t in s.threads
    ensures SInv(Suspend(s, t).0)
  {
    RemoveQueues(s, t);
    PhaseQueues(Remove(s, t), t, Suspended);
  }

  lemma ResumeKeeps(s: Sched, t: Tid)
    requires SInv(s) && t in s.threads
    ensures SInv(Resume(s, t).0)
  {
    if s.threads[t].phase == Suspended {
      if s.current == Someone(t) {
        Exempt(s, t);
        PhaseQueues(s, t, Running);
      } else {
        Exempt(s, t);
        InsertQueues(s, t);
      }
    }
  }

  /** An exempt thread may be given any priority. */
  lemma PriorityQueues(s: Sched, t: Tid, th: Thread)
    requires Queues(s, {t}) && t in s.threads
    ensures Queues(s.(threads := s.threads[t := th]), {t})
  {
    var r := s.(threads := s.threads[t := th]);
    forall p: nat | p < PRIORITIES
      ensures QueueOk(r, p, {t})
    {
      assert QueueOk(s, p, {t});
      assert forall x :: x != t ==> (IsReady(r, x, p) <==> IsReady(s, x, p));
    }
  }

  lemma SetPriorityKeeps(s: Sched, t: Tid, priority: nat)
    requires SInv(s) && t in s.threads && priority < PRIORITIES
    ensures SInv(SetPriority(s, t, priority))
  {
    if s.threads[t].phase == Ready {
      var a := Remove(s, t);
      RemoveQueues(s, t);
      var b := a.(threads := a.threads[t := a.threads[t].(priority := priority)]);
      PriorityQueues(a, t, a.threads[t].(priority := priority));
      InsertQueues(b, t);
    } else {
      SameQueues(s, SetPriority(s, t, priority), {});
    }
  }

  lemma LaunchKeeps(s: Sched, t: Tid)
    requires SInv(s) && t in s.threads && s.threads[t].phase == Init
    ensures SInv(Launch(s, t))
  {
    var th := s.threads[t];
    var a := s.(threads := s.threads[t := th.(priority := th.initPriority, phase := Suspended, gaveUp := false)]);
    SameQueues(s, a, {});
    ResumeKeeps(a, t);
  }

  lemma DeleteKeeps(s: Sched, t: Tid)
    requires SInv(s) && t in s.threads
    ensures SInv(Delete(s, t))
  {
    if s.threads[t].phase != Closed {
      var closed := s.threads[t].(phase := Closed, gaveUp := false);
      if s.threads[t].phase != Init {
        var a := Remove(s, t);
        RemoveQueues(s, t);
        PriorityQueues(a, t, closed);
        var b := a.(threads := a.threads[t := closed]);
        PhaseQueues(b, t, Closed);
        assert SetPhase(b, t, Closed) == b;
      } else {
        SameQueues(s, s.(threads := s.threads[t := closed]), {});
      }
    }
  }

  lemma SwitchKeeps(s: Sched, to: Tid, back: bool)
    requires Queues(s, {}) && Bounded(s) && s.current.Someone? && s.current.t in s.threads && to in s.threads
    requires s.threads[to].phase == Ready && s.threads[s.current.t].phase != Ready
             && s.threads[s.current.t].phase != Init
    requires forall t :: t in s.threads && s.threads[t].phase == Running ==> s.current == Someone(t)
    requires s.threads[s.current.t].phase == Running ==> back
    ensures SInv(Switch(s, to, back))
  {
    var me := s.current.t;
    var a := s.(current := Someone(to));
    Exempt(s, me);
    SameQueues(s, a, {me});
    SameQueues(s, a, {});
    var b := if back then Insert(a, me) else a;
    if back {
      InsertQueues(a, me);
    }
    RemoveQueues(b, to);
    PhaseQueues(Remove(b, to), to, Running);
  }

  lemma ScheduleKeeps(s: Sched)
    requires SInv(s) && s.current.Someone?
    ensures SInv(Schedule(s))
  {
    if s.locks == 0 && s.group != {} {
      TopIsQueued(s);
      var highest := FirstBit(s.group, 0);
      var to, me := s.queues[highest][0], s.current.t;
      var c := s.threads[me];
      if c.phase != Running {
        SwitchKeeps(s, to, false);
      } else {
        var r := s.(threads := s.threads[me := c.(gaveUp := false)]);
        SameQueues(s, r, {});
        if StaysOn(s, c, highest) {
          RemoveQueues(r, me);
          PhaseQueues(Remove(r, me), me, Running);
        } else {
          SwitchKeeps(r, to, true);
        }
      }
    }
  }

  lemma BeginKeeps(s: Sched)
    requires SInv(s) && s.current.NoThread? && s.group != {}
    ensures SInv(Begin(s))
  {
    TopIsQueued(s);
    var to := s.queues[FirstBit(s.group, 0)][0];
    var a := s.(current := Someone(to));
    SameQueues(s, a, {});
    RemoveQueues(a, to);
    PhaseQueues(Remove(a, to), to, Running);
  }

  /** Every operation keeps the bitmap, the queues and the threads' states in agreement. */
  lemma SStepKeeps(s: Sched, a: SAction)
    requires SInv(s) && SEnabled(s, a)
    ensures SInv(SStep(s, a))
  {
    match a
    case SSchedule => ScheduleKeeps(s);
    case SYield =>
      YieldReady(s);
      ScheduleKeeps(s.(threads := s.threads[s.current.t := s.threads[s.current.t].(gaveUp := true)]));
    case SSuspend(t) => SuspendKeeps(s, t);
    case SResume(t) => ResumeKeeps(s, t);
    case STimeout(t) =>
      ResumeKeeps(s, t);
      ScheduleKeeps(Insert(s, t));
    case SSetPriority(t, priority) => SetPriorityKeeps(s, t, priority);
    case SStartup(t) =>
      LaunchKeeps(s, t);
      if s.current.Someone? {
        ScheduleKeeps(Launch(s, t));
      }
    case SDelete(t) => DeleteKeeps(s, t);
    case SExit =>
      DeleteKeeps(s, s.current.t);
      ScheduleKeeps(Delete(s, s.current.t));
    case SEnter => SameQueues(s, s.(locks := s.locks + 1), {});
    case SLeave =>
      SameQueues(s, s.(locks := 0), {});
      if s.locks > 0 {
        SameQueues(s, s.(locks := s.locks - 1), {});
      }
      if s.locks <= 1 && s.current.Someone? {
        ScheduleKeeps(s.(locks := 0));
      }
    case SBegin => BeginKeeps(s);
  }

  // ---------- whole runs ----------

  /** `rt_system_scheduler_init`, with threads that have been initialised and not yet started. */
  ghost predicate AllInit(threads: map<Tid, Thread>) {
    forall t :: t in threads ==>
      threads[t].phase == Init && threads[t].priority < PRIORITIES && threads[t].initPriority < PRIORITIES
  }

  function NoneReady(threads: map<Tid, Thread>): Sched {
    Sched(seq(PRIORITIES, _ => []), {}, threads, NoThread, 0)
  }

  lemma NoneReadyInv(threads: map<Tid, Thread>)
    requires AllInit(threads)
    ensures SInv(NoneReady(threads))
  {
    var s := NoneReady(threads);
    forall p: nat | p < PRIORITIES
      ensures QueueOk(s, p, {})
    {
      assert s.queues[p] == [];
    }
  }

  ghost function SRun(threads: map<Tid, Thread>, run: seq<SAction>): (r: (Sched, bool))
    requires AllInit(threads)
    ensures SInv(r.0)
  {
    NoneReadyInv(threads);
    if run == [] then (NoneReady(threads), true)
    else
      var (s, ok) := SRun(threads, run[..|run| - 1]);
      if ok && SEnabled(s, run[|run| - 1]) then
        SStepKeeps(s, run[|run| - 1]);
        (SStep(s, run[|run| - 1]), true)
      else (s, false)
  }

  /** In every run: bit p is set exactly when queue p has threads; a thread is in queue p exactly when it is ready
      with priority p, and then in that queue only and once; the current thread is in no queue; and no
      other thread is running. */
  lemma QueuesAgree(threads: map<Tid, Thread>, run: seq<SAction>, t: Tid, p: nat)
    requires AllInit(threads) && p < PRIORITIES
    ensures var s := SRun(threads, run).0;
            && |s.queues| == PRIORITIES && NoDup(s.queues[p])
            && (p in s.group <==> s.queues[p] != [])
            && (t in s.queues[p] <==> t in s.threads && s.threads[t].phase == Ready && s.threads[t].priority == p)
            && (s.current == Someone(t) ==> t !in s.queues[p])
            && (t in s.threads && s.threads[t].phase == Running ==> s.current == Someone(t))
  {
    var s := SRun(threads, run).0;
    assert QueueOk(s, p, {});
  }

  // ---------- what a scheduling decides ----------

  /** The queues after a scheduling that may choose: the first of the highest queue gets the processor and a
      thread that loses it while running goes to the end of the queue of its own priority; or nothing moves. */
  lemma ScheduleQueues(s: Sched, p: nat)
    requires SInv(s) && s.current.Someone? && s.locks == 0 && s.group != {} && p < PRIORITIES
    ensures var r, highest, c := Schedule(s), FirstBit(s.group, 0), s.threads[s.current.t];
            && highest < PRIORITIES && |r.queues| == PRIORITIES
            && if c.phase == Running && StaysOn(s, c, highest) then r.current == s.current && r.queues[p] == s.queues[p]
               else
                 && s.queues[highest] != [] && r.current == Someone(s.queues[highest][0])
                 && r.queues[p] == (if p == highest then s.queues[p][1..] else s.queues[p])
                                   + (if c.phase == Running && p == c.priority then [s.current.t] else [])
  {
    TopIsQueued(s);
    ScheduleKeeps(s);
    var highest, me := FirstBit(s.group, 0), s.current.t;
    var c, to := s.threads[me], s.queues[highest][0];
    assert QueueOk(s, highest, {});
    assert QueueOk(s, c.priority, {}) && !IsReady(s, me, c.priority);
    if c.phase == Running && StaysOn(s, c, highest) {
      WithoutAbsent(s.queues[c.priority], me);
    } else {
      var back := if c.phase == Running && c.priority == highest then [me] else [];
      assert (s.queues[highest] + back)[0] == to;
      WithoutFirst(s.queues[highest]);
      WithoutLast(s.queues[highest], me, to);
    }
  }

  lemma WithoutLast(q: seq<Tid>, x: Tid, t: Tid)
    requires x != t
    ensures Without(q + [x], t) == Without(q, t) + [x]
  {
    assert (q + [x])[..|q|] == q;
  }

  /** With the scheduler unlocked and a thread ready, whoever has the processor after a scheduling is
      running, and no ready thread outranks it. */
  lemma HighestRuns(s: Sched, t: Tid)
    requires SInv(s) && s.current.Someone? && s.locks == 0 && s.group != {}
    ensures var r := Schedule(s);
            && r.current.Someone? && r.current.t in r.threads && r.threads[r.current.t].phase == Running
            && (t in r.threads && r.threads[t].phase == Ready ==>
                  r.threads[r.current.t].priority <= r.threads[t].priority)
  {
    var r := Schedule(s);
    TopIsQueued(s);
    ScheduleKeeps(s);
    if t in r.threads && r.threads[t].phase == Ready {
      var p := r.threads[t].priority;
      ScheduleQueues(s, p);
      assert QueueOk(r, p, {}) && IsReady(r, t, p);
      assert QueueOk(s, p, {});
    }
  }

  /** While the scheduler is locked, scheduling does nothing, and leaving the last critical section
      catches up on it. */
  lemma LockHolds(s: Sched)
    requires SInv(s) && s.current.Someone?
    ensures s.locks > 0 ==> Schedule(s) == s
    ensures var locked := s.(locks := s.locks + 1);
            SInv(locked) && SStep(locked, SLeave) == if s.locks == 0 then Schedule(s) else s
  {
    SStepKeeps(s, SEnter);
  }

  // ---------- yielding ----------

  /** The current thread is running, has peers of its own priority, and nobody ready outranks it. */
  ghost predicate AmongPeers(s: Sched) {
    && SInv(s) && s.current.Someone? && s.locks == 0 && s.threads[s.current.t].phase == Running
    && s.group != {} && FirstBit(s.group, 0) == s.threads[s.current.t].priority
  }

  /** The current thread and, behind it, the ready threads of its priority. */
  function Peers(s: Sched): seq<Tid>
    requires s.current.Someone? && Known(s, s.current.t)
  {
    [s.current.t] + s.queues[s.threads[s.current.t].priority]
  }

  lemma YieldQueue(s: Sched, q: nat)
    requires AmongPeers(s) && q < PRIORITIES
    ensures var r, me := Yield(s), s.current.t; var p := s.threads[me].priority;
            && SInv(r) && p < PRIORITIES && s.queues[p] != [] && r.current == Someone(s.queues[p][0])
            && r.queues[q] == (if q == p then s.queues[p][1..] + [me] else s.queues[q])
            && (q in r.group <==> q in s.group)
  {
    var me := s.current.t;
    var a, p := s.(threads := s.threads[me := s.threads[me].(gaveUp := true)]), s.threads[me].priority;
    YieldReady(s);
    ScheduleKeeps(a);
    ScheduleQueues(a, q);
    assert QueueOk(Schedule(a), q, {}) && QueueOk(a, q, {});
  }

  /** A yield sends the current thread behind all its peers, and the first of them runs. */
  lemma YieldRotates(s: Sched)
    requires AmongPeers(s)
    ensures var r := Yield(s);
            && AmongPeers(r) && Peers(r) == Peers(s)[1..] + [Peers(s)[0]]
            && r.threads[r.current.t].priority == s.threads[s.current.t].priority
            && forall p: nat :: p < PRIORITIES && p != s.threads[s.current.t].priority ==> r.queues[p] == s.queues[p]
  {
    var me := s.current.t;
    var a, p, r := s.(threads := s.threads[me := s.threads[me].(gaveUp := true)]), s.threads[me].priority, Yield(s);
    YieldReady(s);
    YieldQueue(s, p);
    HighestRuns(a, me);
    TopIsQueued(s);
    forall q: nat | q < PRIORITIES
      ensures q != p ==> r.queues[q] == s.queues[q]
      ensures q in r.group <==> q in s.group
    {
      YieldQueue(s, q);
    }
    SameFirstBit(s.group, r.group, 0);
    FirstKeepsPriority(s);
  }

  lemma FirstKeepsPriority(s: Sched)
    requires AmongPeers(s)
    ensures var r, p := Yield(s), s.threads[s.current.t].priority;
            r.current.Someone? && r.current.t in r.threads && r.threads[r.current.t].priority == p
  {
    TopIsQueued(s);
    YieldReady(s);
  }

  lemma SameFirstBit(a: set<nat>, b: set<nat>, from: nat)
    requires from <= PRIORITIES && forall q: nat :: q < PRIORITIES ==> (q in a <==> q in b)
    ensures FirstBit(a, from) == FirstBit(b, from)
    decreases PRIORITIES - from
  {
    if from < PRIORITIES && from !in a {
      SameFirstBit(a, b, from + 1);
    }
  }

  ghost function YieldTimes(s: Sched, n: nat): (r: Sched)
    requires AmongPeers(s)
    ensures AmongPeers(r)
  {
    if n == 0 then s
    else
      YieldRotates(YieldTimes(s, n - 1));
      Yield(YieldTimes(s, n - 1))
  }

  /** Round robin: in a row of yields each of n peers runs once before any runs again, and after n yields
      the same thread runs, with the same threads waiting in the same order. */
  lemma {:induction false} RoundRobin(s: Sched, n: nat)
    requires AmongPeers(s) && n <= |Peers(s)|
    ensures var r := YieldTimes(s, n);
            && Peers(r) == Peers(s)[n..] + Peers(s)[..n]
            && (n < |Peers(s)| ==> r.current == Someone(Peers(s)[n]))
            && (n == |Peers(s)| ==> Peers(r) == Peers(s) && r.current == s.current)
  {
    var ps := Peers(s);
    if n == 0 {
      assert ps[0..] + ps[..0] == ps;
    } else {
      RoundRobin(s, n - 1);
      YieldRotates(YieldTimes(s, n - 1));
      Rotated(ps, n - 1);
    }
    assert Peers(YieldTimes(s, n))[0] == YieldTimes(s, n).current.t;
    assert n < |ps| ==> (ps[n..] + ps[..n])[0] == ps[n];
    assert n == |ps| ==> ps[n..] + ps[..n] == ps;
  }

  lemma Rotated(ps: seq<Tid>, k: nat)
    requires k < |ps|
    ensures var q := ps[k..] + ps[..k]; q[1..] + [q[0]] == ps[k + 1..] + ps[..k + 1]
  {
    var q := ps[k..] + ps[..k];
    assert q[0] == ps[k] && q[1..] == ps[k + 1..] + ps[..k];
    assert ps[..k] + [ps[k]] == ps[..k + 1];
  }

  // ---------- a thread that is closed ----------

  lemma ScheduleSparesClosed(s: Sched, t: Tid)
    requires SInv(s) && s.current.Someone? && t in s.threads && s.threads[t].phase == Closed
    ensures var r := Schedule(s);
            t in r.threads && r.threads[t].phase == Closed && (r.current == Someone(t) ==> s.current == Someone(t))
  {
    if s.locks == 0 && s.group != {} {
      TopIsQueued(s);
      var p := FirstBit(s.group, 0);
      assert QueueOk(s, p, {}) && s.queues[p][0] in s.queues[p];
    }
  }

  /** A thread that has been deleted, detached or has exited stays closed, and never gets the processor again. */
  lemma ClosedForGood(s: Sched, a: SAction, t: Tid)
    requires SInv(s) && SEnabled(s, a) && t in s.threads && s.threads[t].phase == Closed
    ensures var r := SStep(s, a);
            t in r.threads && r.threads[t].phase == Closed && (r.current == Someone(t) ==> s.current == Someone(t))
  {
    match a
    case SSchedule => ScheduleSparesClosed(s, t);
    case SYield =>
      YieldReady(s);
      var me := s.current.t;
      ScheduleSparesClosed(s.(threads := s.threads[me := s.threads[me].(gaveUp := true)]), t);
    case STimeout(x) =>
      ResumeKeeps(s, x);
      ScheduleSparesClosed(Insert(s, x), t);
    case SStartup(x) =>
      LaunchKeeps(s, x);
      if s.current.Someone? {
        ScheduleSparesClosed(Launch(s, x), t);
      }
    case SExit =>
      DeleteKeeps(s, s.current.t);
      ScheduleSparesClosed(Delete(s, s.current.t), t);
    case SLeave =>
      if s.locks <= 1 {
        SameQueues(s, s.(locks := 0), {});
        if s.current.Someone? {
          ScheduleSparesClosed(s.(locks := 0), t);
        }
      }
    case SBegin =>
      TopIsQueued(s);
      var p := FirstBit(s.group, 0);
      assert QueueOk(s, p, {}) && s.queues[p][0] in s.queues[p];
    case _ =>
  }
}
