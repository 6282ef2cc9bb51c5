/** Who is resumed next at a message queue, in every run. */
module QueueOrder {
  import opened ArrivalOrder
  import opened LinkedNodes
  import opened MailboxModel
  import opened QueueModel
  import opened WaitList

  /** For every thread that has ever waited, the number of the section in which it last began to. */
  ghost function QArrived(c: QConfig, data: map<Node, Bytes>, run: seq<QAction>): map<Tid, nat>
    requires PoolOk(c, data)
  {
    if run == [] then map[]
    else
      var n := |run| - 1;
      var (s, ok) := QRun(c, data, run[..n]);
      if ok && QEnabled(s, run[n]) then QNumbering(c, s, run[n], QArrived(c, data, run[..n]), n)
      else QArrived(c, data, run[..n])
  }

  ghost function QNumbering(c: QConfig, s: Queue, a: QAction, arrived: map<Tid, nat>, n: nat): map<Tid, nat>
    requires QEnabled(s, a) && Sound(c, s)
  {
    if QStep(c, s, a).1.QBlocked? then arrived[a.t := n] else arrived
  }

  ghost predicate QInTurn(c: QConfig, s: Queue, arrived: map<Tid, nat>) {
    && Queued(c.order, c.priority, arrived, s.senders.list)
    && Queued(c.order, c.priority, arrived, s.receivers.list)
  }

  lemma QSendInTurn(c: QConfig, s: Queue, t: Tid, msg: Bytes, timeout: int, arrived: map<Tid, nat>, n: nat)
    requires QPlacedBut(s, {t}) && QInTurn(c, s, arrived) && Numbered(arrived, n)
    ensures var (r, status) := QTrySend(c, s, t, msg, timeout);
            QInTurn(c, r, if status.QBlocked? then arrived[t := n] else arrived)
  {
    assert !s.senders.Has(t) && !s.receivers.Has(t);
    Arrives(c.order, c.priority, arrived, s.senders.list, t, n);
    Arrives(c.order, c.priority, arrived, s.receivers.list, t, n);
  }

  lemma QRecvInTurn(c: QConfig, s: Queue, t: Tid, size: nat, timeout: int, arrived: map<Tid, nat>, n: nat)
    requires QPlacedBut(s, {t}) && QInTurn(c, s, arrived) && Numbered(arrived, n)
    requires forall k :: k in s.queue ==> k in s.msgs
    ensures var (r, status) := QTryRecv(c, s, t, size, timeout);
            QInTurn(c, r, if status.QBlocked? then arrived[t := n] else arrived)
  {
    assert !s.senders.Has(t) && !s.receivers.Has(t);
    Arrives(c.order, c.priority, arrived, s.senders.list, t, n);
    Arrives(c.order, c.priority, arrived, s.receivers.list, t, n);
  }

  lemma CallInTurn(c: QConfig, s: Queue, a: QAction, arrived: map<Tid, nat>, n: nat)
    requires QInv(c, s) && QEnabled(s, a) && QInTurn(c, s, arrived) && Numbered(arrived, n)
    requires a.QSend? || a.QResumeSend? || a.QRecv? || a.QResumeRecv?
    ensures QInTurn(c, QStep(c, s, a).0, QNumbering(c, s, a, arrived, n))
  {
    QNowhere(s, a.t);
    assert forall k :: k in s.queue ==> QueuedOk(c, s, k);
    match a
    case QSend(t, msg, timeout) => QSendInTurn(c, s, t, msg, timeout, arrived, n);
    case QResumeSend(t, elapsed) =>
      QSendInTurn(c, s.(senders := Rerun(s.senders, t)), t, s.calls[t].msg, Remaining(s.calls[t].timeout, elapsed),
                  arrived, n);
    case QRecv(t, size, timeout) => QRecvInTurn(c, s, t, size, timeout, arrived, n);
    case QResumeRecv(t, elapsed) =>
      QRecvInTurn(c, s.(receivers := Rerun(s.receivers, t)), t, s.calls[t].size,
                  Remaining(s.calls[t].timeout, elapsed), arrived, n);
  }

  lemma OtherInTurn(c: QConfig, s: Queue, a: QAction, arrived: map<Tid, nat>)
    requires QEnabled(s, a) && Sound(c, s) && QInTurn(c, s, arrived)
    requires !a.QSend? && !a.QResumeSend? && !a.QRecv? && !a.QResumeRecv?
    ensures QInTurn(c, QStep(c, s, a).0, arrived) && !QStep(c, s, a).1.QBlocked?
  {
    var r := QStep(c, s, a).0;
    var who := if a.QExpire? then a.t else 0;
    Leaves(c.order, c.priority, arrived, s.senders.list, r.senders.list, who);
    Leaves(c.order, c.priority, arrived, s.receivers.list, r.receivers.list, who);
  }

  lemma QStepInTurn(c: QConfig, s: Queue, a: QAction, arrived: map<Tid, nat>, n: nat)
    requires QInv(c, s) && QEnabled(s, a) && QInTurn(c, s, arrived) && Numbered(arrived, n)
    ensures QInTurn(c, QStep(c, s, a).0, QNumbering(c, s, a, arrived, n))
    ensures Numbered(QNumbering(c, s, a, arrived, n), n + 1)
  {
    if a.QSend? || a.QResumeSend? || a.QRecv? || a.QResumeRecv? {
      CallInTurn(c, s, a, arrived, n);
    } else {
      OtherInTurn(c, s, a, arrived);
    }
  }

  lemma {:induction false} QListsInTurn(c: QConfig, data: map<Node, Bytes>, run: seq<QAction>)
    requires PoolOk(c, data)
    ensures QInTurn(c, QRun(c, data, run).0, QArrived(c, data, run)) && Numbered(QArrived(c, data, run), |run|)
  {
    if run != [] {
      var n := |run| - 1;
      var (s, ok) := QRun(c, data, run[..n]);
      QListsInTurn(c, data, run[..n]);
      if ok && QEnabled(s, run[n]) {
        QStepInTurn(c, s, run[n], QArrived(c, data, run[..n]), n);
      }
    }
  }

  /** In every run of a FIFO queue each wait list holds its threads in the order in which they began to wait. */
  lemma QFifoByArrival(c: QConfig, data: map<Node, Bytes>, run: seq<QAction>, i: nat, j: nat)
    requires PoolOk(c, data) && c.order.Fifo? && i < j
    ensures var s, m := QRun(c, data, run).0, QArrived(c, data, run);
            && (j < |s.senders.list| ==>
                  var x, y := s.senders.list[i], s.senders.list[j]; x in m && y in m && m[x] < m[y])
            && (j < |s.receivers.list| ==>
                  var x, y := s.receivers.list[i], s.receivers.list[j]; x in m && y in m && m[x] < m[y])
  {
    QListsInTurn(c, data, run);
    var s, m := QRun(c, data, run).0, QArrived(c, data, run);
    assert j < |s.senders.list| ==> Before(c.order, c.priority, m, s.senders.list[i], s.senders.list[j]);
    assert j < |s.receivers.list| ==> Before(c.order, c.priority, m, s.receivers.list[i], s.receivers.list[j]);
  }

  lemma OnlyLinkAndReturnWake(c: QConfig, s: Queue, a: QAction)
    requires QEnabled(s, a) && Sound(c, s)
    ensures var r := QStep(c, s, a).0;
            && (if a.Link? then r.receivers == WakeOne(s.receivers) else r.receivers.woken <= s.receivers.woken)
            && (if a.GiveBack? then r.senders == WakeOne(s.senders) else r.senders.woken <= s.senders.woken)
  {
  }

  /** After any run: a message that is linked wakes the foremost of the waiting receivers, and a node that is given back
      the foremost of the waiting senders; nothing else wakes anybody. */
  lemma QForemostIsWoken(c: QConfig, data: map<Node, Bytes>, run: seq<QAction>, a: QAction)
    requires PoolOk(c, data) && QEnabled(QRun(c, data, run).0, a)
    ensures var s, m := QRun(c, data, run).0, QArrived(c, data, run); var r := QStep(c, s, a).0;
            && (if a.Link? then WakesForemost(c.order, c.priority, m, s.receivers, r.receivers)
                else r.receivers.woken <= s.receivers.woken)
            && (if a.GiveBack? then WakesForemost(c.order, c.priority, m, s.senders, r.senders)
                else r.senders.woken <= s.senders.woken)
  {
    var s, m := QRun(c, data, run).0, QArrived(c, data, run);
    QListsInTurn(c, data, run);
    OnlyLinkAndReturnWake(c, s, a);
    WakesInTurn(c.order, c.priority, m, s.receivers);
    WakesInTurn(c.order, c.priority, m, s.senders);
  }
}
