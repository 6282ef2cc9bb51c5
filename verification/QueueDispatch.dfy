/** A message queue and the scheduler together. A call that copies outside the lock may be interrupted there, too. */
module QueueDispatch {
  import opened WaitList
  import opened MailboxModel
  import opened QueueModel
  import opened Dispatch
  import S = SchedModel

  datatype Machine = Machine(queue: Queue, sched: S.Sched)

  datatype Event = Call(call: QAction) | System(op: S.SAction)

  function Listed(s: Queue): set<Tid> {
    Members(s.receivers.list) + Members(s.senders.list)
  }

  function Woken(s: Queue): set<Tid> {
    s.receivers.woken + s.senders.woken
  }

  /** Threads take their place in a wait list by the priority they have at that time. */
  function Now(c: QConfig, s: S.Sched): QConfig {
    c.(priority := map t | t in s.threads :: s.threads[t].priority)
  }

  /** What a section leaves to the scheduler. */
  ghost function Leaves(c: QConfig, s: Queue, a: QAction): Effect
    requires QEnabled(s, a) && Sound(c, s)
  {
    var blocked := QStep(c, s, a).1.QBlocked?;
    match a
    case QSend(t, _, _) => if blocked then Parks(t) else Nothing
    case QResumeSend(t, _) => if blocked then Parks(t) else Nothing
    case QRecv(t, _, _) => if blocked then Parks(t) else Nothing
    case QResumeRecv(t, _) => if blocked then Parks(t) else Nothing
    case Link(_) => FirstOf(s.receivers)
    case GiveBack(_) => FirstOf(s.senders)
    case QExpire(t) => TimesOut(t)
    case QReset => Wakes(s.receivers.list + s.senders.list)
    case _ => Nothing
  }

  ghost predicate MachineInv(c: QConfig, m: Machine) {
    QInv(c, m.queue) && S.SInv(m.sched) && Tied(m.sched, Listed(m.queue), Woken(m.queue))
  }

  /** A section is run by the current thread; a timeout and a reset may come from elsewhere. Nobody else suspends,
      resumes or ends a thread that is inside a call. */
  predicate Can(m: Machine, e: Event) {
    match e
    case Call(a) =>
      && QEnabled(m.queue, a) && m.sched.current.Someone?
      && (a.QExpire? || a.QReset? || Runs(m.sched, a.t))
    case System(op) => S.SEnabled(m.sched, op) && forall t :: t in m.queue.calls ==> Spares(m.sched, op, t)
  }

  /** Nobody waits on both sides, and t waits on neither. */
  lemma OneSide(s: Queue, but: set<Tid>, t: Tid)
    requires QPlacedBut(s, but)
    ensures Members(s.receivers.list) !! Members(s.senders.list)
    ensures t in but ==> t !in Listed(s) && t !in Woken(s)
  {
    forall x | x in Members(s.receivers.list) && x in Members(s.senders.list)
      ensures false
    {
      assert s.receivers.Has(x) && s.senders.Has(x);
    }
    assert t in but ==> !s.receivers.Has(t) && !s.senders.Has(t);
  }

  lemma SendMoves(c: QConfig, s: Queue, t: Tid, msg: Bytes, timeout: int)
    requires QPlacedBut(s, {t})
    ensures var (r, status) := QTrySend(c, s, t, msg, timeout);
            Moves(if status.QBlocked? then Parks(t) else Nothing, Listed(s), Woken(s), Listed(r), Woken(r))
  {
    OneSide(s, {t}, t);
    SuspendMembers(s.senders.list, t, c.order, c.priority);
  }

  lemma RecvMoves(c: QConfig, s: Queue, t: Tid, size: nat, timeout: int)
    requires QPlacedBut(s, {t}) && forall n :: n in s.queue ==> n in s.msgs
    ensures var (r, status) := QTryRecv(c, s, t, size, timeout);
            Moves(if status.QBlocked? then Parks(t) else Nothing, Listed(s), Woken(s), Listed(r), Woken(r))
  {
    OneSide(s, {t}, t);
    SuspendMembers(s.receivers.list, t, c.order, c.priority);
  }

  /** Threads join a list only by parking, and leave it only by being woken or timed out. */
  lemma StepMoves(c: QConfig, s: Queue, a: QAction)
    requires QPlaced(s) && Sound(c, s) && QEnabled(s, a)
    ensures var r := QStep(c, s, a).0; Moves(Leaves(c, s, a), Listed(s), Woken(s), Listed(r), Woken(r))
  {
    match a
    case QSend(t, msg, timeout) =>
      QNowhere(s, t);
      SendMoves(c, s, t, msg, timeout);
    case QRecv(t, size, timeout) =>
      QNowhere(s, t);
      RecvMoves(c, s, t, size, timeout);
    case QResumeSend(t, elapsed) =>
      QNowhere(s, t);
      SendMoves(c, s.(senders := Rerun(s.senders, t)), t, s.calls[t].msg, Remaining(s.calls[t].timeout, elapsed));
    case QResumeRecv(t, elapsed) =>
      QNowhere(s, t);
      RecvMoves(c, s.(receivers := Rerun(s.receivers, t)), t, s.calls[t].size,
        Remaining(s.calls[t].timeout, elapsed));
    case Link(t) =>
      OneSide(s, {}, t);
      if s.receivers.list != [] {
        WokenMove(s.receivers);
      }
    case GiveBack(t) =>
      OneSide(s, {}, t);
      if s.senders.list != [] {
        WokenMove(s.senders);
      }
    case QExpire(t) =>
      CancelMembers(s.senders, t);
      CancelMembers(s.receivers, t);
    case QReset =>
      assert Members(s.receivers.list + s.senders.list) == Listed(s);
    case _ =>
  }

  lemma LeavesPossible(c: QConfig, m: Machine, a: QAction)
    requires Tied(m.sched, Listed(m.queue), Woken(m.queue)) && Can(m, Call(a)) && Sound(c, m.queue)
    ensures Possible(m.sched, Leaves(c, m.queue, a))
  {
    forall t | t in m.queue.receivers.list || t in m.queue.senders.list
      ensures Asleep(m.sched, t)
    {
      assert t in Listed(m.queue);
    }
    FirstPossible(m.sched, m.queue.receivers);
    FirstPossible(m.sched, m.queue.senders);
  }

  lemma SameInv(c: QConfig, d: QConfig, s: Queue)
    requires QInv(c, s) && d.maxMsgs == c.maxMsgs && d.msgSize == c.msgSize
    ensures QInv(d, s)
  {
    forall n: Node | n < c.maxMsgs
      ensures BufferOk(d, s.data, n)
    {
      assert BufferOk(c, s.data, n);
    }
    forall n | n in s.queue
      ensures QueuedOk(d, s, n)
    {
      assert QueuedOk(c, s, n);
    }
    forall t | t in s.calls
      ensures PhaseOk(d, s.data, s.calls[t])
    {
      assert PhaseOk(c, s.data, s.calls[t]);
    }
  }

  lemma CallTies(c: QConfig, m: Machine, a: QAction)
    requires MachineInv(c, m) && Can(m, Call(a))
    ensures var d := Now(c, m.sched);
            && Sound(d, m.queue) && Possible(m.sched, Leaves(d, m.queue, a))
            && MachineInv(c, Machine(QStep(d, m.queue, a).0, Carry(m.sched, Leaves(d, m.queue, a))))
  {
    var d := Now(c, m.sched);
    SameInv(c, d, m.queue);
    LeavesPossible(d, m, a);
    StepMoves(d, m.queue, a);
    QStepKeeps(d, m.queue, a);
    var r, e := QStep(d, m.queue, a).0, Leaves(d, m.queue, a);
    SameInv(d, c, r);
    CarryTies(m.sched, e, Listed(m.queue), Woken(m.queue), Listed(r), Woken(r));
  }

  lemma InCall(s: Queue, t: Tid)
    requires QPlaced(s) && (t in Listed(s) || t in Woken(s))
    ensures t in s.calls
  {
    assert s.receivers.Has(t) || s.senders.Has(t);
  }

  lemma SystemTies(c: QConfig, m: Machine, op: S.SAction)
    requires MachineInv(c, m) && Can(m, System(op))
    ensures MachineInv(c, m.(sched := S.SStep(m.sched, op)))
  {
    forall t | t in Listed(m.queue) || t in Woken(m.queue)
      ensures Spares(m.sched, op, t)
    {
      InCall(m.queue, t);
    }
    S.SStepKeeps(m.sched, op);
    StepTies(m.sched, op, Listed(m.queue), Woken(m.queue));
  }

  ghost function Do(c: QConfig, m: Machine, e: Event): (r: Machine)
    requires MachineInv(c, m) && Can(m, e)
    ensures MachineInv(c, r)
  {
    match e
    case Call(a) =>
      CallTies(c, m, a);
      var d := Now(c, m.sched);
      Machine(QStep(d, m.queue, a).0, Carry(m.sched, Leaves(d, m.queue, a)))
    case System(op) =>
      SystemTies(c, m, op);
      m.(sched := S.SStep(m.sched, op))
  }

  // ---------- whole runs ----------

  lemma FreshInv(c: QConfig, data: map<Node, Bytes>, threads: map<Tid, S.Thread>)
    requires PoolOk(c, data) && S.AllInit(threads)
    ensures MachineInv(c, Machine(FreshQueue(c, data), S.NoneReady(threads)))
  {
    FreshQueueInv(c, data);
    S.NoneReadyInv(threads);
  }

  /** The machine after a run, and whether every event of it was possible when it came. */
  ghost function DoAll(c: QConfig, data: map<Node, Bytes>, threads: map<Tid, S.Thread>, run: seq<Event>):
      (r: (Machine, bool))
    requires PoolOk(c, data) && S.AllInit(threads)
    ensures MachineInv(c, r.0)
  {
    FreshInv(c, data, threads);
    if run == [] then (Machine(FreshQueue(c, data), S.NoneReady(threads)), true)
    else
      var (m, ok) := DoAll(c, data, threads, run[..|run| - 1]);
      if ok && Can(m, run[|run| - 1]) then (Do(c, m, run[|run| - 1]), true) else (m, false)
  }

  lemma WaitersAt(c: QConfig, m: Machine, t: Tid)
    requires MachineInv(c, m)
    ensures t in Listed(m.queue) ==> Asleep(m.sched, t)
    ensures t in Woken(m.queue) ==> Queued(m.sched, t)
  {
    if t in Woken(m.queue) {
      AwakeIsQueued(m.sched, t);
    }
  }

  lemma WokenTakes(c: QConfig, s: Queue, u: Tid, elapsed: nat)
    requires QPlaced(s) && Sound(c, s) && u in s.receivers.woken && s.queue != []
    ensures QEnabled(s, QResumeRecv(u, elapsed)) && Holds(QStep(c, s, QResumeRecv(u, elapsed)).0, u, s.queue[0])
  {
    assert s.receivers.Has(u);
  }

  lemma SomeWoken(c: QConfig, s: Queue) returns (u: Tid)
    requires QInv(c, s) && s.receivers.list != [] && s.queue != []
    ensures u in s.receivers.woken && u in Woken(s)
  {
    assert s.receivers.woken != {};
    u :| u in s.receivers.woken;
  }

  /** In every run: a thread that waits is suspended; one that has been woken is in the ready queue of its priority, or
      runs; and while a receiver waits and a message is queued, there is such a woken receiver, and when it runs it
      takes the head. */
  lemma WokenIsReady(c: QConfig, data: map<Node, Bytes>, threads: map<Tid, S.Thread>, run: seq<Event>, t: Tid,
                     elapsed: nat)
    requires PoolOk(c, data) && S.AllInit(threads)
    ensures var m := DoAll(c, data, threads, run).0;
            && (t in Listed(m.queue) ==> t in m.sched.threads && m.sched.threads[t].phase == S.Suspended)
            && (t in Woken(m.queue) ==> Queued(m.sched, t))
    ensures var m := DoAll(c, data, threads, run).0;
            m.queue.receivers.list != [] && m.queue.queue != [] ==>
              exists u :: u in m.queue.receivers.woken && Queued(m.sched, u)
                          && QEnabled(m.queue, QResumeRecv(u, elapsed))
                          && Holds(QStep(c, m.queue, QResumeRecv(u, elapsed)).0, u, m.queue.queue[0])
  {
    var m := DoAll(c, data, threads, run).0;
    WaitersAt(c, m, t);
    if m.queue.receivers.list != [] && m.queue.queue != [] {
      var u := SomeWoken(c, m.queue);
      WaitersAt(c, m, u);
      WokenTakes(c, m.queue, u, elapsed);
    }
  }

  lemma LinkWakes(c: QConfig, s: Queue, t: Tid)
    requires QPlaced(s) && Sound(c, s) && QEnabled(s, Link(t)) && s.receivers.list != []
    ensures var r, w := QStep(c, s, Link(t)).0, s.receivers.list[0];
            && Leaves(c, s, Link(t)) == Wakes([w]) && r.queue != []
            && w in r.receivers.woken && w in Listed(s) && w in Woken(r)
  {
  }

  /** Linking a message while receivers wait wakes the first of them. From a settled scheduler, that one has the
      processor when the call returns if it outranks the sender, and takes the head of the queue next; and if it does
      not, the sender goes on, unless it has yielded to its equals, and the receiver is ready. */
  lemma LinkHandsOver(c: QConfig, m: Machine, t: Tid, elapsed: nat)
    requires MachineInv(c, m) && Can(m, Call(Link(t))) && Settled(m.sched) && m.queue.receivers.list != []
    ensures var r, w, p := Do(c, m, Call(Link(t))), m.queue.receivers.list[0], m.sched.threads;
            && w in p && t in p && r.queue.queue != [] && Queued(r.sched, w)
            && QEnabled(r.queue, QResumeRecv(w, elapsed))
            && Holds(QStep(c, r.queue, QResumeRecv(w, elapsed)).0, w, r.queue.queue[0])
            && (p[w].priority < p[t].priority ==> Runs(r.sched, w))
            && (p[w].priority >= p[t].priority && !p[t].gaveUp ==> Runs(r.sched, t))
  {
    var d, w := Now(c, m.sched), m.queue.receivers.list[0];
    var r := Do(c, m, Call(Link(t)));
    SameInv(c, d, m.queue);
    LinkWakes(d, m.queue, t);
    WakeDecides(m.sched, w);
    WokenTakes(c, r.queue, w, elapsed);
    WaitersAt(c, r, w);
  }
}
