/** Who is resumed next at a mailbox, in every run: the one that waited longest, or the one with the highest priority
    and among equals the one that waited longest. */
module MailboxOrder {
  import opened ArrivalOrder
  import opened LinkedNodes
  import opened MailboxModel
  import opened WaitList

  /** For every thread that has ever waited, the number of the step in which it last began to. */
  ghost function Arrived(c: Config, run: seq<Action>): map<Tid, nat> {
    if run == [] then map[]
    else
      var n := |run| - 1;
      var (s, ok) := Run(c, run[..n]);
      if ok && Enabled(s, run[n]) then Numbering(c, s, run[n], Arrived(c, run[..n]), n) else Arrived(c, run[..n])
  }

  /** Step number n makes its thread wait, or nobody. */
  function Numbering(c: Config, s: State, a: Action, arrived: map<Tid, nat>, n: nat): map<Tid, nat>
    requires Enabled(s, a)
  {
    if Step(c, s, a).1.Blocked? then arrived[a.t := n] else arrived
  }

  ghost predicate BothInTurn(c: Config, s: State, arrived: map<Tid, nat>) {
    && Queued(c.order, c.priority, arrived, s.senders.list)
    && Queued(c.order, c.priority, arrived, s.receivers.list)
  }

  lemma SendInTurn(c: Config, s: State, t: Tid, mail: Mail, timeout: int, arrived: map<Tid, nat>, n: nat)
    requires PlacedBut(s, {t}) && BothInTurn(c, s, arrived) && Numbered(arrived, n)
    ensures var (r, status) := TrySend(c, s, t, mail, timeout);
            BothInTurn(c, r, if status.Blocked? then arrived[t := n] else arrived)
  {
    assert !s.senders.Has(t) && !s.receivers.Has(t);
    Arrives(c.order, c.priority, arrived, s.senders.list, t, n);
    Arrives(c.order, c.priority, arrived, s.receivers.list, t, n);
    Leaves(c.order, c.priority, arrived, s.receivers.list, WakeOne(s.receivers).list, t);
  }

  lemma RecvInTurn(c: Config, s: State, t: Tid, timeout: int, arrived: map<Tid, nat>, n: nat)
    requires PlacedBut(s, {t}) && BothInTurn(c, s, arrived) && Numbered(arrived, n)
    ensures var (r, status) := TryRecv(c, s, t, timeout);
            BothInTurn(c, r, if status.Blocked? then arrived[t := n] else arrived)
  {
    assert !s.senders.Has(t) && !s.receivers.Has(t);
    Arrives(c.order, c.priority, arrived, s.senders.list, t, n);
    Arrives(c.order, c.priority, arrived, s.receivers.list, t, n);
    Leaves(c.order, c.priority, arrived, s.senders.list, WakeOne(s.senders).list, t);
  }

  lemma StepInTurn(c: Config, s: State, a: Action, arrived: map<Tid, nat>, n: nat)
    requires Inv(c, s) && Enabled(s, a) && BothInTurn(c, s, arrived) && Numbered(arrived, n)
    ensures BothInTurn(c, Step(c, s, a).0, Numbering(c, s, a, arrived, n))
    ensures Numbered(Numbering(c, s, a, arrived, n), n + 1)
  {
    match a
    case Send(t, mail, timeout) =>
      Nowhere(s, t);
      SendInTurn(c, s, t, mail, timeout, arrived, n);
    case Recv(t, timeout) =>
      Nowhere(s, t);
      RecvInTurn(c, s, t, timeout, arrived, n);
    case ResumeSend(t, elapsed) =>
      Nowhere(s, t);
      SendInTurn(c, s.(senders := Rerun(s.senders, t)), t, s.calls[t].mail, Remaining(s.calls[t].timeout, elapsed),
                 arrived, n);
    case ResumeRecv(t, elapsed) =>
      Nowhere(s, t);
      RecvInTurn(c, s.(receivers := Rerun(s.receivers, t)), t, Remaining(s.calls[t].timeout, elapsed), arrived, n);
    case Expire(t) =>
      Leaves(c.order, c.priority, arrived, s.senders.list, Without(s.senders.list, t), t);
      Leaves(c.order, c.priority, arrived, s.receivers.list, Without(s.receivers.list, t), t);
    case Reset =>
  }

  lemma {:induction false} ListsInTurn(c: Config, run: seq<Action>)
    ensures BothInTurn(c, Run(c, run).0, Arrived(c, run)) && Numbered(Arrived(c, run), |run|)
  {
    if run != [] {
      var n := |run| - 1;
      var (s, ok) := Run(c, run[..n]);
      ListsInTurn(c, run[..n]);
      RunKeeps(c, run[..n]);
      if ok && Enabled(s, run[n]) {
        StepInTurn(c, s, run[n], Arrived(c, run[..n]), n);
      }
    }
  }

  /** In every run of a FIFO mailbox each wait list holds its threads in the order in which they began to wait. */
  lemma FifoByArrival(c: Config, run: seq<Action>, i: nat, j: nat)
    requires c.order.Fifo? && i < j
    ensures var s, m := Run(c, run).0, Arrived(c, run);
            && (j < |s.senders.list| ==>
                  var x, y := s.senders.list[i], s.senders.list[j]; x in m && y in m && m[x] < m[y])
            && (j < |s.receivers.list| ==>
                  var x, y := s.receivers.list[i], s.receivers.list[j]; x in m && y in m && m[x] < m[y])
  {
    ListsInTurn(c, run);
    var s, m := Run(c, run).0, Arrived(c, run);
    assert j < |s.senders.list| ==> Before(c.order, c.priority, m, s.senders.list[i], s.senders.list[j]);
    assert j < |s.receivers.list| ==> Before(c.order, c.priority, m, s.receivers.list[i], s.receivers.list[j]);
  }

  /** After any run: a mail that is sent wakes the foremost of the waiting receivers, and a mail that is taken the
      foremost of the waiting senders, whoever sends or takes it; nothing else wakes anybody. */
  lemma ForemostIsWoken(c: Config, run: seq<Action>, a: Action)
    requires Enabled(Run(c, run).0, a)
    ensures var s, m := Run(c, run).0, Arrived(c, run); var (r, status) := Step(c, s, a);
            && (status == Done && a != Reset ==>
                  WakesForemost(c.order, c.priority, m, s.receivers, r.receivers) && r.senders.woken <= s.senders.woken)
            && (status.Got? ==>
                  WakesForemost(c.order, c.priority, m, s.senders, r.senders) && r.receivers.woken <= s.receivers.woken)
            && (a == Reset || (status != Done && !status.Got?) ==>
                  r.senders.woken <= s.senders.woken && r.receivers.woken <= s.receivers.woken)
  {
    var s, m := Run(c, run).0, Arrived(c, run);
    RunKeeps(c, run);
    ListsInTurn(c, run);
    WakesInTurn(c.order, c.priority, m, s.receivers);
    WakesInTurn(c.order, c.priority, m, s.senders);
  }
}
