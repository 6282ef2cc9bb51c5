/** A mailbox and the scheduler together: each section of a call is run by the thread that has the processor, at the
    priority it has then, and ends in the scheduler. */
module MailboxDispatch {
  import opened WaitList
  import opened MailboxModel
  import opened Dispatch
  import S = SchedModel

  datatype Machine = Machine(box: State, sched: S.Sched)

  /** A section of a mailbox call, or anything else the scheduler is asked to do. */
  datatype Event = Call(call: Action) | System(op: S.SAction)

  function Listed(s: State): set<Tid> {
    Members(s.receivers.list) + Members(s.senders.list)
  }

  function Woken(s: State): set<Tid> {
    s.receivers.woken + s.senders.woken
  }

  /** Threads take their place in a wait list by the priority they have at that time. */
  function Now(c: Config, s: S.Sched): Config {
    c.(priority := map t | t in s.threads :: s.threads[t].priority)
  }

  /** What a section leaves to the scheduler. */
  function Leaves(c: Config, s: State, a: Action): Effect
    requires Enabled(s, a)
  {
    var status := Step(c, s, a).1;
    match a
    case Send(t, _, _) => if status.Blocked? then Parks(t) else if status.Done? then FirstOf(s.receivers) else Nothing
    case ResumeSend(t, _) =>
      if status.Blocked? then Parks(t) else if status.Done? then FirstOf(s.receivers) else Nothing
    case Recv(t, _) => if status.Blocked? then Parks(t) else if status.Got? then FirstOf(s.senders) else Nothing
    case ResumeRecv(t, _) => if status.Blocked? then Parks(t) else if status.Got? then FirstOf(s.senders) else Nothing
    case Expire(t) => TimesOut(t)
    case Reset => Wakes(s.receivers.list + s.senders.list)
  }

  ghost predicate MachineInv(c: Config, m: Machine) {
    Inv(c, m.box) && S.SInv(m.sched) && Tied(m.sched, Listed(m.box), Woken(m.box))
  }

  /** A section is run by the current thread; a timeout and a reset may come from elsewhere. Nobody else suspends,
      resumes or ends a thread that is inside a call. */
  predicate Can(m: Machine, e: Event) {
    match e
    case Call(a) =>
      Enabled(m.box, a) && m.sched.current.Someone?
      && (a.Expire? || a.Reset? || Runs(m.sched, a.t))
    case System(a) => S.SEnabled(m.sched, a) && forall t :: t in m.box.calls ==> Spares(m.sched, a, t)
  }

  /** Nobody waits on both sides, and t waits on neither. */
  lemma OneSide(s: State, t: Tid)
    requires PlacedBut(s, {t})
    ensures Members(s.receivers.list) !! Members(s.senders.list) && t !in Listed(s) && t !in Woken(s)
  {
    forall x | x in Members(s.receivers.list) && x in Members(s.senders.list)
      ensures false
    {
      assert s.receivers.Has(x) && s.senders.Has(x);
    }
    assert !s.receivers.Has(t) && !s.senders.Has(t);
  }

  lemma SendMoves(c: Config, s: State, t: Tid, mail: Mail, timeout: int)
    requires PlacedBut(s, {t})
    ensures var (r, status) := TrySend(c, s, t, mail, timeout);
            var e := if status.Blocked? then Parks(t) else if status.Done? then FirstOf(s.receivers) else Nothing;
            Moves(e, Listed(s), Woken(s), Listed(r), Woken(r))
  {
    OneSide(s, t);
    SuspendMembers(s.senders.list, t, c.order, c.priority);
    if s.receivers.list != [] {
      WokenMove(s.receivers);
    }
  }

  lemma RecvMoves(c: Config, s: State, t: Tid, timeout: int)
    requires PlacedBut(s, {t})
    ensures var (r, status) := TryRecv(c, s, t, timeout);
            var e := if status.Blocked? then Parks(t) else if status.Got? then FirstOf(s.senders) else Nothing;
            Moves(e, Listed(s), Woken(s), Listed(r), Woken(r))
  {
    OneSide(s, t);
    SuspendMembers(s.receivers.list, t, c.order, c.priority);
    if s.senders.list != [] {
      WokenMove(s.senders);
    }
  }

  /** Threads join a list only by parking, and leave it only by being woken or timed out. */
  lemma StepMoves(c: Config, s: State, a: Action)
    requires Placed(s) && Enabled(s, a)
    ensures var r := Step(c, s, a).0; Moves(Leaves(c, s, a), Listed(s), Woken(s), Listed(r), Woken(r))
  {
    match a
    case Send(t, mail, timeout) =>
      Nowhere(s, t);
      SendMoves(c, s, t, mail, timeout);
    case Recv(t, timeout) =>
      Nowhere(s, t);
      RecvMoves(c, s, t, timeout);
    case ResumeSend(t, elapsed) =>
      Nowhere(s, t);
      SendMoves(c, s.(senders := Rerun(s.senders, t)), t, s.calls[t].mail, Remaining(s.calls[t].timeout, elapsed));
    case ResumeRecv(t, elapsed) =>
      Nowhere(s, t);
      RecvMoves(c, s.(receivers := Rerun(s.receivers, t)), t, Remaining(s.calls[t].timeout, elapsed));
    case Expire(t) =>
      CancelMembers(s.senders, t);
      CancelMembers(s.receivers, t);
    case Reset =>
      assert Members(s.receivers.list + s.senders.list) == Listed(s);
  }

  lemma LeavesPossible(c: Config, m: Machine, a: Action)
    requires Tied(m.sched, Listed(m.box), Woken(m.box)) && Can(m, Call(a))
    ensures Possible(m.sched, Leaves(c, m.box, a))
  {
    forall t | t in m.box.receivers.list || t in m.box.senders.list
      ensures Asleep(m.sched, t)
    {
      assert t in Listed(m.box);
    }
    FirstPossible(m.sched, m.box.receivers);
    FirstPossible(m.sched, m.box.senders);
  }

  lemma SameInv(c: Config, d: Config, s: State)
    requires Inv(c, s) && d.size == c.size
    ensures Inv(d, s)
  {
  }

  lemma CallTies(c: Config, m: Machine, a: Action)
    requires MachineInv(c, m) && Can(m, Call(a))
    ensures var d := Now(c, m.sched);
            && Possible(m.sched, Leaves(d, m.box, a))
            && MachineInv(c, Machine(Step(d, m.box, a).0, Carry(m.sched, Leaves(d, m.box, a))))
  {
    var d := Now(c, m.sched);
    SameInv(c, d, m.box);
    LeavesPossible(d, m, a);
    StepMoves(d, m.box, a);
    StepKeeps(d, m.box, a);
    var r, e := Step(d, m.box, a).0, Leaves(d, m.box, a);
    SameInv(d, c, r);
    CarryTies(m.sched, e, Listed(m.box), Woken(m.box), Listed(r), Woken(r));
  }

  lemma InCall(c: Config, s: State, t: Tid)
    requires Inv(c, s) && (t in Listed(s) || t in Woken(s))
    ensures t in s.calls
  {
    assert s.receivers.Has(t) || s.senders.Has(t);
  }

  lemma SystemTies(c: Config, m: Machine, op: S.SAction)
    requires MachineInv(c, m) && Can(m, System(op))
    ensures MachineInv(c, m.(sched := S.SStep(m.sched, op)))
  {
    forall t | t in Listed(m.box) || t in Woken(m.box)
      ensures Spares(m.sched, op, t)
    {
      InCall(c, m.box, t);
    }
    S.SStepKeeps(m.sched, op);
    StepTies(m.sched, op, Listed(m.box), Woken(m.box));
  }

  ghost function Do(c: Config, m: Machine, e: Event): (r: Machine)
    requires MachineInv(c, m) && Can(m, e)
    ensures MachineInv(c, r)
  {
    match e
    case Call(a) =>
      CallTies(c, m, a);
      var d := Now(c, m.sched);
      Machine(Step(d, m.box, a).0, Carry(m.sched, Leaves(d, m.box, a)))
    case System(op) =>
      SystemTies(c, m, op);
      m.(sched := S.SStep(m.sched, op))
  }

  // ---------- whole runs ----------

  lemma FreshInv(c: Config, threads: map<Tid, S.Thread>)
    requires S.AllInit(threads)
    ensures MachineInv(c, Machine(Empty, S.NoneReady(threads)))
  {
    S.NoneReadyInv(threads);
  }

  /** The machine after a run, and whether every event of it was possible when it came. */
  ghost function DoAll(c: Config, threads: map<Tid, S.Thread>, run: seq<Event>): (r: (Machine, bool))
    requires S.AllInit(threads)
    ensures MachineInv(c, r.0)
  {
    FreshInv(c, threads);
    if run == [] then (Machine(Empty, S.NoneReady(threads)), true)
    else
      var (m, ok) := DoAll(c, threads, run[..|run| - 1]);
      if ok && Can(m, run[|run| - 1]) then (Do(c, m, run[|run| - 1]), true) else (m, false)
  }

  lemma WaitersAt(c: Config, m: Machine, t: Tid)
    requires MachineInv(c, m)
    ensures t in Listed(m.box) ==> Asleep(m.sched, t)
    ensures t in Woken(m.box) ==> Queued(m.sched, t)
  {
    if t in Woken(m.box) {
      AwakeIsQueued(m.sched, t);
    }
  }

  lemma WokenGets(c: Config, s: State, u: Tid, elapsed: nat)
    requires Placed(s) && u in s.receivers.woken && s.mails != []
    ensures Enabled(s, ResumeRecv(u, elapsed)) && Step(c, s, ResumeRecv(u, elapsed)).1 == Got(s.mails[0])
  {
    assert s.receivers.Has(u);
  }

  /** In every run: a thread that waits is suspended; one that has been woken is in the ready queue of its priority, or
      runs; and while a receiver waits and a mail is stored, there is such a woken receiver, and when it runs it gets
      the oldest mail. */
  lemma WokenIsReady(c: Config, threads: map<Tid, S.Thread>, run: seq<Event>, t: Tid, elapsed: nat)
    requires S.AllInit(threads)
    ensures var m := DoAll(c, threads, run).0;
            && (t in Listed(m.box) ==> t in m.sched.threads && m.sched.threads[t].phase == S.Suspended)
            && (t in Woken(m.box) ==> Queued(m.sched, t))
    ensures var m := DoAll(c, threads, run).0;
            m.box.receivers.list != [] && m.box.mails != [] ==>
              exists u :: u in m.box.receivers.woken && Queued(m.sched, u)
                          && Enabled(m.box, ResumeRecv(u, elapsed))
                          && Step(c, m.box, ResumeRecv(u, elapsed)).1 == Got(m.box.mails[0])
  {
    var m := DoAll(c, threads, run).0;
    WaitersAt(c, m, t);
    if m.box.receivers.list != [] && m.box.mails != [] {
      var u := SomeWoken(c, m.box);
      WaitersAt(c, m, u);
      WokenGets(c, m.box, u, elapsed);
    }
  }

  lemma SomeWoken(c: Config, s: State) returns (u: Tid)
    requires Inv(c, s) && s.receivers.list != [] && s.mails != []
    ensures u in s.receivers.woken && u in Woken(s)
  {
    assert s.receivers.woken != {};
    u :| u in s.receivers.woken;
  }

  lemma SendWakes(c: Config, s: State, t: Tid, mail: Mail, timeout: int)
    requires Placed(s) && Enabled(s, Send(t, mail, timeout)) && s.receivers.list != [] && |s.mails| < c.size
    ensures var r, w := Step(c, s, Send(t, mail, timeout)).0, s.receivers.list[0];
            && Leaves(c, s, Send(t, mail, timeout)) == Wakes([w])
            && r.mails == s.mails + [mail] && w in r.receivers.woken && w in Listed(s)
  {
  }

  /** A send to a mailbox with waiting receivers wakes the first of them. From a settled scheduler, that one has the
      processor when the call returns if it outranks the sender, and takes the oldest mail next; and if it does not,
      the sender goes on, unless it has yielded to its equals, and the receiver is ready. */
  lemma SendHandsOver(c: Config, m: Machine, t: Tid, mail: Mail, timeout: int, elapsed: nat)
    requires MachineInv(c, m) && Can(m, Call(Send(t, mail, timeout))) && Settled(m.sched)
    requires m.box.receivers.list != [] && |m.box.mails| < c.size
    ensures var r, w, p := Do(c, m, Call(Send(t, mail, timeout))), m.box.receivers.list[0], m.sched.threads;
            && w in p && t in p && r.box.mails == m.box.mails + [mail] && Queued(r.sched, w)
            && Enabled(r.box, ResumeRecv(w, elapsed))
            && Step(c, r.box, ResumeRecv(w, elapsed)).1 == Got(r.box.mails[0])
            && (p[w].priority < p[t].priority ==> Runs(r.sched, w))
            && (p[w].priority >= p[t].priority && !p[t].gaveUp ==> Runs(r.sched, t))
  {
    var d, w := Now(c, m.sched), m.box.receivers.list[0];
    var r := Do(c, m, Call(Send(t, mail, timeout)));
    SendWakes(d, m.box, t, mail, timeout);
    WakeDecides(m.sched, w);
    WokenGets(c, r.box, w, elapsed);
    WaitersAt(c, r, w);
  }
}
