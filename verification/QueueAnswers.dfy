/** What each section of a message queue call answers and leaves; every call works on what it was called with. */
module QueueAnswers {
  import opened LinkedNodes
  import opened MailboxModel
  import opened QueueModel
  import opened WaitList

  /** A send or an urgent send in its first section: a message that is too long is refused; with a node to be had the
      call takes it; an urgent send and a send without time fail when there is none, and any other send waits. */
  lemma SendAnswer(c: QConfig, s: Queue, t: Tid, msg: Bytes, timeout: int)
    requires QInv(c, s) && t !in s.calls
    ensures var (r, status) := QStep(c, s, QSend(t, msg, timeout));
            if |msg| > c.msgSize then status == TooLong && r == s
            else if s.free != [] then
              && status == Going && s.free == [s.free[0]] + r.free
              && r == s.(free := r.free, calls := s.calls[t := Filling(s.free[0], msg, false, false)])
            else if timeout == 0 then status == QFull && r == s
            else
              && status == QBlocked && Joins(s.senders, r.senders, t)
              && r == s.(senders := r.senders, calls := s.calls[t := QSending(msg, timeout)])
    ensures var (r, status) := QStep(c, s, Urgent(t, msg));
            if |msg| > c.msgSize then status == TooLong && r == s
            else if s.free == [] then status == QFull && r == s
            else
              && status == Going && s.free == [s.free[0]] + r.free
              && r == s.(free := r.free, calls := s.calls[t := Filling(s.free[0], msg, true, false)])
  {
    assert s.calls - {t} == s.calls;
    assert !s.senders.Has(t);
    ParkJoins(s.senders, t, c.order, c.priority);
  }

  /** A receive in its first section: with a message to be had the call takes the oldest, or the last urgent one;
      without one it fails at once if it has no time, and waits otherwise. */
  lemma RecvAnswer(c: QConfig, s: Queue, t: Tid, size: nat, timeout: int)
    requires QInv(c, s) && t !in s.calls
    ensures var (r, status) := QStep(c, s, QRecv(t, size, timeout));
            if s.queue != [] then
              && status == Going && s.queue == [s.queue[0]] + r.queue && s.queue[0] in s.msgs
              && r == s.(queue := r.queue,
                         calls := s.calls[t := Draining(s.queue[0], s.msgs[s.queue[0]], size, false, [])])
            else if timeout == 0 then status == QTimedOut && r == s
            else
              && status == QBlocked && Joins(s.receivers, r.receivers, t)
              && r == s.(receivers := r.receivers, calls := s.calls[t := QReceiving(size, timeout)])
  {
    assert s.queue != [] ==> QueuedOk(c, s, s.queue[0]);
    assert s.calls - {t} == s.calls;
    assert !s.receivers.Has(t);
    ParkJoins(s.receivers, t, c.order, c.priority);
  }

  /** A woken sender that finds no free node waits on if and only if it waits for ever or its time has not run out, with
      the rest of its time, and fails otherwise. */
  lemma WokenSenderAnswer(c: QConfig, s: Queue, t: Tid, elapsed: nat)
    requires QInv(c, s) && QEnabled(s, QResumeSend(t, elapsed)) && InTime(s.calls[t].timeout, elapsed)
    ensures var (r, status) := QStep(c, s, QResumeSend(t, elapsed)); var call := s.calls[t];
            if s.free != [] then
              && status == Going && s.free == [s.free[0]] + r.free
              && r == s.(free := r.free, senders := Rerun(s.senders, t),
                         calls := s.calls[t := Filling(s.free[0], call.msg, false, false)])
            else if MayWaitOn(call.timeout, elapsed) then
              && status == QBlocked && Joins(Rerun(s.senders, t), r.senders, t)
              && r == s.(senders := r.senders,
                         calls := s.calls[t := QSending(call.msg, WaitsOnFor(call.timeout, elapsed))])
            else status == QFull && r == s.(senders := Rerun(s.senders, t), calls := s.calls - {t})
  {
    WaitsOn(s.calls[t].timeout, elapsed);
    assert s.senders.Has(t);
    ParkJoins(Rerun(s.senders, t), t, c.order, c.priority);
  }

  lemma WokenReceiverAnswer(c: QConfig, s: Queue, t: Tid, elapsed: nat)
    requires QInv(c, s) && QEnabled(s, QResumeRecv(t, elapsed)) && InTime(s.calls[t].timeout, elapsed)
    ensures var (r, status) := QStep(c, s, QResumeRecv(t, elapsed)); var call := s.calls[t];
            if s.queue != [] then
              && status == Going && s.queue == [s.queue[0]] + r.queue && s.queue[0] in s.msgs
              && r == s.(queue := r.queue, receivers := Rerun(s.receivers, t),
                         calls := s.calls[t := Draining(s.queue[0], s.msgs[s.queue[0]], call.size, false, [])])
            else if MayWaitOn(call.timeout, elapsed) then
              && status == QBlocked && Joins(Rerun(s.receivers, t), r.receivers, t)
              && r == s.(receivers := r.receivers,
                         calls := s.calls[t := QReceiving(call.size, WaitsOnFor(call.timeout, elapsed))])
            else status == QTimedOut && r == s.(receivers := Rerun(s.receivers, t), calls := s.calls - {t})
  {
    assert s.queue != [] ==> QueuedOk(c, s, s.queue[0]);
    WaitsOn(s.calls[t].timeout, elapsed);
    assert s.receivers.Has(t);
    ParkJoins(Rerun(s.receivers, t), t, c.order, c.priority);
  }

  /** A timeout ends the call of its thread and nothing else; a reset ends the calls of all that wait, frees every
      queued node, and lets all other calls go on. */
  lemma CallsEnd(c: QConfig, s: Queue, t: Tid)
    requires QInv(c, s)
    ensures QEnabled(s, QExpire(t)) ==>
              var (r, status) := QStep(c, s, QExpire(t));
              && status == QTimedOut && !r.senders.Has(t) && !r.receivers.Has(t)
              && r == s.(senders := s.senders.(list := Without(s.senders.list, t)),
                         receivers := s.receivers.(list := Without(s.receivers.list, t)), calls := s.calls - {t})
    ensures var r := QStep(c, s, QReset).0;
            && r.queue == [] && r.senders.list == [] && r.receivers.list == []
            && Members(r.free) == Members(s.free) + Members(s.queue)
            && r.senders.woken == s.senders.woken && r.receivers.woken == s.receivers.woken
            && (t in r.calls <==> t in s.calls && t !in s.senders.list && t !in s.receivers.list)
            && (t in r.calls ==> r.calls[t] == s.calls[t])
  {
    PushAllIs(s.queue, s.free);
    assert s.senders.Has(t) <==> QIsSending(s, t);
    assert s.receivers.Has(t) <==> QIsReceiving(s, t);
  }

  // ---------- what a call was asked for ----------

  /** What a thread last called for: to post a message, or to get one into a buffer of some size. */
  datatype Request = Post(msg: Bytes, urgent: bool) | Get(size: nat)

  ghost function Requests(c: QConfig, data: map<Node, Bytes>, run: seq<QAction>): map<Tid, Request>
    requires PoolOk(c, data)
  {
    if run == [] then map[]
    else
      var n := |run| - 1;
      var (s, ok) := QRun(c, data, run[..n]);
      if ok && QEnabled(s, run[n]) then Noted(run[n], Requests(c, data, run[..n])) else Requests(c, data, run[..n])
  }

  function Noted(a: QAction, asked: map<Tid, Request>): map<Tid, Request> {
    match a
    case QSend(t, msg, _) => asked[t := Post(msg, false)]
    case Urgent(t, msg) => asked[t := Post(msg, true)]
    case QRecv(t, size, _) => asked[t := Get(size)]
    case _ => asked
  }

  /** A call in progress is still about what it was called with. */
  predicate Serves(p: QPhase, request: Request) {
    match p
    case QSending(msg, _) => request == Post(msg, false)
    case Filling(_, msg, urgent, _) => request == Post(msg, urgent)
    case QReceiving(size, _) => request == Get(size)
    case Draining(_, _, room, _, _) => request == Get(room)
  }

  ghost predicate AllServe(calls: map<Tid, QPhase>, asked: map<Tid, Request>) {
    forall t :: t in calls ==> t in asked && Serves(calls[t], asked[t])
  }

  lemma OneCallServes(calls: map<Tid, QPhase>, later: map<Tid, QPhase>,
                      asked: map<Tid, Request>, now: map<Tid, Request>, t: Tid)
    requires AllServe(calls, asked) && later - {t} == calls - {t} && now - {t} == asked - {t}
    requires t in later ==> t in now && Serves(later[t], now[t])
    ensures AllServe(later, now)
  {
    forall x | x in later
      ensures x in now && Serves(later[x], now[x])
    {
      if x != t {
        assert x in later - {t} && x in calls - {t} && (later - {t})[x] == (calls - {t})[x];
        assert x in asked - {t} && x in now - {t} && (now - {t})[x] == (asked - {t})[x];
      }
    }
  }

  lemma OthersCalls(c: QConfig, s: Queue, a: QAction)
    requires QEnabled(s, a) && Sound(c, s) && a != QReset
    ensures QStep(c, s, a).0.calls - {a.t} == s.calls - {a.t}
  {
  }

  lemma OwnCall(c: QConfig, s: Queue, a: QAction, asked: map<Tid, Request>)
    requires QEnabled(s, a) && Sound(c, s) && a != QReset && AllServe(s.calls, asked)
    ensures var calls, now := QStep(c, s, a).0.calls, Noted(a, asked);
            a.t in calls ==> a.t in now && Serves(calls[a.t], now[a.t])
  {
  }

  lemma StepServes(c: QConfig, s: Queue, a: QAction, asked: map<Tid, Request>)
    requires QInv(c, s) && QEnabled(s, a) && AllServe(s.calls, asked)
    ensures AllServe(QStep(c, s, a).0.calls, Noted(a, asked))
  {
    if a != QReset {
      OthersCalls(c, s, a);
      OwnCall(c, s, a, asked);
      OneCallServes(s.calls, QStep(c, s, a).0.calls, asked, Noted(a, asked), a.t);
    }
  }

  lemma {:induction false} CallsServe(c: QConfig, data: map<Node, Bytes>, run: seq<QAction>)
    requires PoolOk(c, data)
    ensures AllServe(QRun(c, data, run).0.calls, Requests(c, data, run))
  {
    if run != [] {
      var n := |run| - 1;
      var (s, ok) := QRun(c, data, run[..n]);
      CallsServe(c, data, run[..n]);
      if ok && QEnabled(s, run[n]) {
        StepServes(c, s, run[n], Requests(c, data, run[..n]));
      }
    }
  }

  /** In every run: what a sender links is the very message it was called with, behind the others or, if it was called
      as urgent, in front of them; and a receiver gets the message that it took from the front, as far as the buffer it
      was called with has room. */
  lemma PostedAsAsked(c: QConfig, data: map<Node, Bytes>, run: seq<QAction>, t: Tid)
    requires PoolOk(c, data)
    ensures var s, asked := QRun(c, data, run).0, Requests(c, data, run);
            QEnabled(s, Link(t)) ==>
              && t in asked && asked[t].Post?
              && Sound(c, QStep(c, s, Link(t)).0)
              && Contents(QStep(c, s, Link(t)).0)
                 == (if asked[t].urgent then [asked[t].msg] + Contents(s) else Contents(s) + [asked[t].msg])
    ensures var s, asked := QRun(c, data, run).0, Requests(c, data, run);
            QEnabled(s, GiveBack(t)) ==>
              && t in asked && asked[t].Get?
              && var bytes, n := s.calls[t].got, if asked[t].size > c.msgSize then c.msgSize else asked[t].size;
                 && QStep(c, s, GiveBack(t)).1 == QGot(bytes) && |bytes| == n
                 && forall i :: 0 <= i < n && i < |s.calls[t].front| ==> bytes[i] == s.calls[t].front[i]
  {
    var s := QRun(c, data, run).0;
    CallsServe(c, data, run);
    if QEnabled(s, Link(t)) {
      RefinesDeque(c, s, Link(t));
    }
    if QEnabled(s, GiveBack(t)) {
      ReceivesWhatItTook(c, s, t);
    }
  }
}
