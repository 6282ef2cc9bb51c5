/** The message queue protocol of `ipc.c` as a step system. A sender takes a node in one section,
    copies its message outside the lock, and links the node in a second section; a receiver unlinks,
    copies outside the lock, and gives the node back in a second section. */
module QueueModel {
  import opened LinkedNodes
  import opened WaitList
  import opened MailboxModel

  type Node = nat
  type Bytes = seq<nat>

  datatype QConfig = QConfig(maxMsgs: nat, msgSize: nat, order: Order, priority: map<Tid, nat>)

  /** `front` is the message that was at the head of the queue when the node was unlinked. */
  datatype QPhase =
    | QSending(msg: Bytes, timeout: int)
    | QReceiving(size: nat, timeout: int)
    | Filling(node: Node, msg: Bytes, urgent: bool, copied: bool)
    | Draining(node: Node, front: Bytes, room: nat, drained: bool, got: Bytes)

  datatype QStatus = QDone | QGot(bytes: Bytes) | QFull | QTimedOut | TooLong | QBlocked | Going

  /** `data` is what the nodes' buffers hold; `msgs` the message last linked with each node. */
  datatype Queue = Queue(
    free: seq<Node>, queue: seq<Node>,
    data: map<Node, Bytes>, msgs: map<Node, Bytes>,
    receivers: Waiters, senders: Waiters,
    calls: map<Tid, QPhase>)

  datatype QAction =
    | QSend(t: Tid, msg: Bytes, timeout: int)
    | QResumeSend(t: Tid, elapsed: nat)
    | Urgent(t: Tid, msg: Bytes)
    | CopyIn(t: Tid)
    | Link(t: Tid)
    | QRecv(t: Tid, size: nat, timeout: int)
    | QResumeRecv(t: Tid, elapsed: nat)
    | CopyOut(t: Tid)
    | GiveBack(t: Tid)
    | QExpire(t: Tid)
    | QReset

  // ---------- sections ----------

  function QLeave(s: Queue, t: Tid): Queue {
    s.(calls := s.calls - {t})
  }

  function TakeFree(s: Queue, t: Tid, msg: Bytes, urgent: bool): Queue
    requires s.free != []
  {
    s.(free := s.free[1..], calls := s.calls[t := Filling(s.free[0], msg, urgent, false)])
  }

  function QParkSender(c: QConfig, s: Queue, t: Tid, msg: Bytes, timeout: int): Queue {
    s.(senders := Park(s.senders, t, c.order, c.priority), calls := s.calls[t := QSending(msg, timeout)])
  }

  function QParkReceiver(c: QConfig, s: Queue, t: Tid, size: nat, timeout: int): Queue {
    s.(receivers := Park(s.receivers, t, c.order, c.priority), calls := s.calls[t := QReceiving(size, timeout)])
  }

  function QTrySend(c: QConfig, s: Queue, t: Tid, msg: Bytes, timeout: int): (Queue, QStatus) {
    if s.free != [] then (TakeFree(s, t, msg, false), Going)
    else if timeout == 0 then (QLeave(s, t), QFull)
    else (QParkSender(c, s, t, msg, timeout), QBlocked)
  }

  function Unlink(s: Queue, t: Tid, size: nat): Queue
    requires s.queue != [] && s.queue[0] in s.msgs
  {
    s.(queue := s.queue[1..], calls := s.calls[t := Draining(s.queue[0], s.msgs[s.queue[0]], size, false, [])])
  }

  function QTryRecv(c: QConfig, s: Queue, t: Tid, size: nat, timeout: int): (Queue, QStatus)
    requires forall n :: n in s.queue ==> n in s.msgs
  {
    if s.queue != [] then (Unlink(s, t, size), Going)
    else if timeout == 0 then (QLeave(s, t), QTimedOut)
    else (QParkReceiver(c, s, t, size, timeout), QBlocked)
  }

  function Linked(s: Queue, t: Tid): Queue
    requires t in s.calls && s.calls[t].Filling?
  {
    var p := s.calls[t];
    QLeave(s, t).(queue := if p.urgent then [p.node] + s.queue else s.queue + [p.node],
                  msgs := s.msgs[p.node := p.msg],
                  receivers := WakeOne(s.receivers))
  }

  function Returned(s: Queue, t: Tid): Queue
    requires t in s.calls && s.calls[t].Draining?
  {
    QLeave(s, t).(free := [s.calls[t].node] + s.free, senders := WakeOne(s.senders))
  }

  /** The head of the queue is popped and pushed on the free list until the queue is empty. */
  function PushAll(queue: seq<Node>, free: seq<Node>): seq<Node>
    decreases |queue|
  {
    if queue == [] then free else PushAll(queue[1..], [queue[0]] + free)
  }

  // ---------- steps ----------

  predicate QIsSending(s: Queue, t: Tid) {
    t in s.calls && s.calls[t].QSending?
  }

  predicate QIsReceiving(s: Queue, t: Tid) {
    t in s.calls && s.calls[t].QReceiving?
  }

  predicate IsFilling(s: Queue, t: Tid) {
    t in s.calls && s.calls[t].Filling?
  }

  predicate IsDraining(s: Queue, t: Tid) {
    t in s.calls && s.calls[t].Draining?
  }

  predicate QEnabled(s: Queue, a: QAction) {
    match a
    case QSend(t, _, _) => t !in s.calls
    case Urgent(t, _) => t !in s.calls
    case QRecv(t, _, _) => t !in s.calls
    case QResumeSend(t, _) => t in s.senders.woken && QIsSending(s, t)
    case QResumeRecv(t, _) => t in s.receivers.woken && QIsReceiving(s, t)
    case CopyIn(t) => IsFilling(s, t) && !s.calls[t].copied
    case Link(t) => IsFilling(s, t) && s.calls[t].copied
    case CopyOut(t) => IsDraining(s, t) && !s.calls[t].drained
    case GiveBack(t) => IsDraining(s, t) && s.calls[t].drained
    case QExpire(t) =>
      || (t in s.senders.list && QIsSending(s, t) && s.calls[t].timeout > 0)
      || (t in s.receivers.list && QIsReceiving(s, t) && s.calls[t].timeout > 0)
    case QReset => true
  }

  predicate Prefix(a: Bytes, b: Bytes) {
    |a| <= |b| && b[..|a|] == a
  }

  /** What `rt_mq_recv` copies out of a buffer for a caller with `room` bytes. */
  function CopiedOut(c: QConfig, buffer: Bytes, room: nat): Bytes
    requires |buffer| == c.msgSize
  {
    if room > c.msgSize then buffer else buffer[..room]
  }

  function Overwrite(buffer: Bytes, msg: Bytes): Bytes
    requires |msg| <= |buffer|
  {
    msg + buffer[|msg|..]
  }

  predicate BufferOk(c: QConfig, data: map<Node, Bytes>, n: Node) {
    n in data && |data[n]| == c.msgSize
  }

  /** What a thread in the middle of a call relies on, although the pool is not locked. */
  predicate PhaseOk(c: QConfig, data: map<Node, Bytes>, p: QPhase) {
    match p
    case QSending(msg, _) => |msg| <= c.msgSize
    case QReceiving(_, _) => true
    case Filling(node, msg, _, copied) =>
      node < c.maxMsgs && |msg| <= c.msgSize && BufferOk(c, data, node) && (copied ==> Prefix(msg, data[node]))
    case Draining(node, front, room, drained, got) =>
      node < c.maxMsgs && BufferOk(c, data, node) && Prefix(front, data[node])
      && (drained ==> got == CopiedOut(c, data[node], room))
  }

  predicate QueuedOk(c: QConfig, s: Queue, n: Node) {
    n < c.maxMsgs && n in s.msgs && BufferOk(c, s.data, n) && Prefix(s.msgs[n], s.data[n])
  }

  /** The buffers hold what was posted. */
  ghost predicate Sound(c: QConfig, s: Queue) {
    && (forall n: Node :: n < c.maxMsgs ==> BufferOk(c, s.data, n))
    && (forall n :: n in s.queue ==> QueuedOk(c, s, n))
    && (forall t :: t in s.calls ==> PhaseOk(c, s.data, s.calls[t]))
  }

  ghost function QStep(c: QConfig, s: Queue, a: QAction): (Queue, QStatus)
    requires QEnabled(s, a) && Sound(c, s)
  {
    match a
    case QSend(t, msg, timeout) => if |msg| > c.msgSize then (s, TooLong) else QTrySend(c, s, t, msg, timeout)
    case QResumeSend(t, elapsed) =>
      QTrySend(c, s.(senders := Rerun(s.senders, t)), t, s.calls[t].msg, Remaining(s.calls[t].timeout, elapsed))
    case Urgent(t, msg) =>
      if |msg| > c.msgSize then (s, TooLong)
      else if s.free == [] then (s, QFull)
      else (TakeFree(s, t, msg, true), Going)
    case CopyIn(t) =>
      var p := s.calls[t];
      (s.(data := s.data[p.node := Overwrite(s.data[p.node], p.msg)], calls := s.calls[t := p.(copied := true)]), Going)
    case Link(t) => (Linked(s, t), QDone)
    case QRecv(t, size, timeout) => QTryRecv(c, s, t, size, timeout)
    case QResumeRecv(t, elapsed) =>
      QTryRecv(c, s.(receivers := Rerun(s.receivers, t)), t, s.calls[t].size, Remaining(s.calls[t].timeout, elapsed))
    case CopyOut(t) =>
      var p := s.calls[t];
      (s.(calls := s.calls[t := Draining(p.node, p.front, p.room, true, CopiedOut(c, s.data[p.node], p.room))]), Going)
    case GiveBack(t) => (Returned(s, t), QGot(s.calls[t].got))
    case QExpire(t) =>
      (QLeave(s, t).(senders := Cancel(s.senders, t), receivers := Cancel(s.receivers, t)), QTimedOut)
    case QReset =>
      (s.(free := PushAll(s.queue, s.free), queue := [],
          receivers := s.receivers.(list := []), senders := s.senders.(list := []),
          calls := s.calls - Members(s.receivers.list) - Members(s.senders.list)), QDone)
  }

  // ---------- the invariant ----------

  predicate Holds(s: Queue, t: Tid, n: Node) {
    t in s.calls && (s.calls[t].Filling? || s.calls[t].Draining?) && s.calls[t].node == n
  }

  ghost predicate SomewhereElse(s: Queue, n: Node) {
    n !in s.free && n !in s.queue
  }

  ghost predicate Accounted(s: Queue, n: Node) {
    n in s.free || n in s.queue || exists t :: Holds(s, t, n)
  }

  /** Every node of the pool is in exactly one place: the free list, the queue, or the hands of one
      sender or receiver that is copying outside the lock. */
  ghost predicate Conserved(c: QConfig, s: Queue) {
    && NoDup(s.free) && NoDup(s.queue)
    && (forall n :: n in s.free ==> n !in s.queue)
    && (forall t, n :: Holds(s, t, n) ==> SomewhereElse(s, n))
    && (forall t, u, n :: Holds(s, t, n) && Holds(s, u, n) ==> t == u)
    && (forall n: Node :: n < c.maxMsgs ==> Accounted(s, n))
    && (forall n :: n in s.free ==> n < c.maxMsgs)
  }

  ghost predicate QPlacedBut(s: Queue, but: set<Tid>) {
    && Fine(s.receivers) && Fine(s.senders)
    && (forall t :: s.receivers.Has(t) <==> QIsReceiving(s, t) && t !in but)
    && (forall t :: s.senders.Has(t) <==> QIsSending(s, t) && t !in but)
  }

  ghost predicate QPlaced(s: Queue) {
    QPlacedBut(s, {})
  }

  ghost predicate QNoneForgotten(s: Queue) {
    && (s.receivers.list != [] ==> |s.receivers.woken| >= |s.queue|)
    && (s.senders.list != [] ==> |s.senders.woken| >= |s.free|)
  }

  ghost predicate QInv(c: QConfig, s: Queue) {
    Conserved(c, s) && QPlaced(s) && QNoneForgotten(s) && Sound(c, s)
  }

  ghost function Messages(queue: seq<Node>, msgs: map<Node, Bytes>): (r: seq<Bytes>)
    requires forall n :: n in queue ==> n in msgs
    ensures |r| == |queue| && forall i :: 0 <= i < |r| ==> r[i] == msgs[queue[i]]
  {
    seq(|queue|, i requires 0 <= i < |queue| => msgs[queue[i]])
  }

  /** The messages in the queue, oldest first. */
  ghost function Contents(s: Queue): seq<Bytes>
    requires forall n :: n in s.queue ==> n in s.msgs
  {
    Messages(s.queue, s.msgs)
  }

  // ---------- conservation of nodes ----------

  /** A step that moves no node. */
  lemma NoNodeMoves(c: QConfig, s: Queue, r: Queue)
    requires Conserved(c, s) && r.free == s.free && r.queue == s.queue
    requires forall t, n :: Holds(r, t, n) <==> Holds(s, t, n)
    ensures Conserved(c, r)
  {
    forall n: Node | n < c.maxMsgs
      ensures Accounted(r, n)
    {
      assert Accounted(s, n);
      if exists t :: Holds(s, t, n) {
        var t :| Holds(s, t, n);
        assert Holds(r, t, n);
      }
    }
  }

  lemma TakeFreeConserves(c: QConfig, s: Queue, t: Tid, msg: Bytes, urgent: bool)
    requires Conserved(c, s) && s.free != [] && (forall n: Node :: !Holds(s, t, n))
    ensures Conserved(c, TakeFree(s, t, msg, urgent))
  {
    var r, f := TakeFree(s, t, msg, urgent), s.free[0];
    assert forall n :: n in s.free <==> n == f || n in r.free;
    forall n: Node | n < c.maxMsgs
      ensures Accounted(r, n)
    {
      assert Accounted(s, n);
      if n == f {
        assert Holds(r, t, f);
      } else if exists u :: Holds(s, u, n) {
        var u :| Holds(s, u, n);
        assert Holds(r, u, n);
      }
    }
    assert forall u, n :: Holds(r, u, n) ==> (u == t && n == f) || (u != t && Holds(s, u, n));
  }

  lemma UnlinkConserves(c: QConfig, s: Queue, t: Tid, size: nat)
    requires Conserved(c, s) && s.queue != [] && s.queue[0] in s.msgs && (forall n: Node :: !Holds(s, t, n))
    ensures Conserved(c, Unlink(s, t, size))
  {
    var r, q := Unlink(s, t, size), s.queue[0];
    assert forall n :: n in s.queue <==> n == q || n in r.queue;
    forall n: Node | n < c.maxMsgs
      ensures Accounted(r, n)
    {
      assert Accounted(s, n);
      if n == q {
        assert Holds(r, t, q);
      } else if exists u :: Holds(s, u, n) {
        var u :| Holds(s, u, n);
        assert Holds(r, u, n);
      }
    }
    assert forall u, n :: Holds(r, u, n) ==> (u == t && n == q) || (u != t && Holds(s, u, n));
  }

  lemma LinkedConserves(c: QConfig, s: Queue, t: Tid)
    requires Conserved(c, s) && IsFilling(s, t)
    ensures Conserved(c, Linked(s, t))
  {
    var r, h := Linked(s, t), s.calls[t].node;
    assert Holds(s, t, h);
    assert r.queue == (if s.calls[t].urgent then [h] + s.queue else s.queue + [h]);
    assert forall n :: n in r.queue <==> n == h || n in s.queue;
    forall n: Node | n < c.maxMsgs
      ensures Accounted(r, n)
    {
      assert Accounted(s, n);
      if n != h && exists u :: Holds(s, u, n) {
        var u :| Holds(s, u, n);
        assert Holds(r, u, n);
      }
    }
    assert forall u, n :: Holds(r, u, n) ==> u != t && Holds(s, u, n);
  }

  lemma ReturnedConserves(c: QConfig, s: Queue, t: Tid)
    requires Conserved(c, s) && IsDraining(s, t) && s.calls[t].node < c.maxMsgs
    ensures Conserved(c, Returned(s, t))
  {
    var r, h := Returned(s, t), s.calls[t].node;
    assert Holds(s, t, h);
    assert forall n :: n in r.free <==> n == h || n in s.free;
    forall n: Node | n < c.maxMsgs
      ensures Accounted(r, n)
    {
      assert Accounted(s, n);
      if n != h && exists u :: Holds(s, u, n) {
        var u :| Holds(s, u, n);
        assert Holds(r, u, n);
      }
    }
    assert forall u, n :: Holds(r, u, n) ==> u != t && Holds(s, u, n);
  }

  lemma {:induction false} PushAllIs(queue: seq<Node>, free: seq<Node>)
    requires NoDup(queue) && NoDup(free) && (forall n :: n in free ==> n !in queue)
    ensures NoDup(PushAll(queue, free))
    ensures forall n :: n in PushAll(queue, free) <==> n in queue || n in free
    decreases |queue|
  {
    if queue != [] {
      assert forall n :: n in queue <==> n == queue[0] || n in queue[1..];
      assert forall i :: 0 < i < |queue| ==> queue[i] != queue[0];
      assert forall n :: n in queue[1..] ==> n != queue[0];
      var f := [queue[0]] + free;
      assert queue[0] in queue;
      assert forall n :: n in f <==> n == queue[0] || n in free;
      assert forall i :: 0 < i < |f| ==> f[i] == free[i - 1] && f[i] in free;
      assert NoDup(f) && NoDup(queue[1..]);
      PushAllIs(queue[1..], f);
    }
  }

  lemma ResetConserves(c: QConfig, s: Queue, r: Queue)
    requires Conserved(c, s) && Sound(c, s)
    requires r.free == PushAll(s.queue, s.free) && r.queue == []
    requires forall t, n :: Holds(r, t, n) <==> Holds(s, t, n)
    ensures Conserved(c, r)
  {
    PushAllIs(s.queue, s.free);
    forall n: Node | n < c.maxMsgs
      ensures Accounted(r, n)
    {
      assert Accounted(s, n);
      if exists t :: Holds(s, t, n) {
        var t :| Holds(s, t, n);
        assert Holds(r, t, n);
      }
    }
    assert forall n :: n in s.queue ==> QueuedOk(c, s, n);
  }

  // ---------- every thread is where its call says ----------

  lemma QNowhere(s: Queue, t: Tid)
    requires QPlaced(s)
    ensures !QIsSending(s, t) && !QIsReceiving(s, t) ==> QPlacedBut(s, {t})
    ensures t in s.senders.woken ==> QPlacedBut(s.(senders := Rerun(s.senders, t)), {t})
    ensures t in s.receivers.woken ==> QPlacedBut(s.(receivers := Rerun(s.receivers, t)), {t})
  {
    RerunFine(s.senders, t);
    RerunFine(s.receivers, t);
    var r, q := s.(senders := Rerun(s.senders, t)), s.(receivers := Rerun(s.receivers, t));
    assert forall x :: (QIsReceiving(r, x) <==> QIsReceiving(s, x)) && (QIsSending(r, x) <==> QIsSending(s, x));
    assert forall x :: (QIsReceiving(q, x) <==> QIsReceiving(s, x)) && (QIsSending(q, x) <==> QIsSending(s, x));
  }

  lemma QOnlyCallOf(s: Queue, r: Queue, t: Tid)
    requires r.calls - {t} == s.calls - {t}
    ensures forall x :: x != t ==> (x in r.calls <==> x in s.calls) && (x in r.calls ==> r.calls[x] == s.calls[x])
    ensures forall x :: x != t ==>
              (QIsReceiving(r, x) <==> QIsReceiving(s, x)) && (QIsSending(r, x) <==> QIsSending(s, x))
    ensures forall x, n :: x != t ==> (Holds(r, x, n) <==> Holds(s, x, n))
  {
    forall x | x != t
      ensures x in r.calls <==> x in s.calls
      ensures x in r.calls ==> r.calls[x] == s.calls[x]
    {
      assert x in r.calls <==> x in r.calls - {t};
      assert x in s.calls <==> x in s.calls - {t};
      if x in r.calls {
        assert (r.calls - {t})[x] == (s.calls - {t})[x];
      }
    }
  }

  /** A section at whose end t does not wait. */
  lemma StaysPlaced(s: Queue, r: Queue, t: Tid)
    requires QPlacedBut(s, {t}) && r.calls - {t} == s.calls - {t}
    requires !QIsSending(r, t) && !QIsReceiving(r, t)
    requires r.receivers == s.receivers || r.receivers == WakeOne(s.receivers)
    requires r.senders == s.senders || r.senders == WakeOne(s.senders)
    ensures QPlaced(r)
  {
    WakeOneFine(s.receivers);
    WakeOneFine(s.senders);
    QOnlyCallOf(s, r, t);
  }

  lemma SenderParks(c: QConfig, s: Queue, t: Tid, msg: Bytes, timeout: int)
    requires QPlacedBut(s, {t})
    ensures QPlaced(QParkSender(c, s, t, msg, timeout))
  {
    ParkFine(s.senders, t, c.order, c.priority);
    QOnlyCallOf(s, QParkSender(c, s, t, msg, timeout), t);
  }

  lemma QSendPlaced(c: QConfig, s: Queue, t: Tid, msg: Bytes, timeout: int)
    requires QPlacedBut(s, {t})
    ensures QPlaced(QTrySend(c, s, t, msg, timeout).0)
  {
    if s.free != [] || timeout == 0 {
      StaysPlaced(s, QTrySend(c, s, t, msg, timeout).0, t);
    } else {
      SenderParks(c, s, t, msg, timeout);
    }
  }

  lemma ReceiverParks(c: QConfig, s: Queue, t: Tid, size: nat, timeout: int)
    requires QPlacedBut(s, {t})
    ensures QPlaced(QParkReceiver(c, s, t, size, timeout))
  {
    ParkFine(s.receivers, t, c.order, c.priority);
    QOnlyCallOf(s, QParkReceiver(c, s, t, size, timeout), t);
  }

  lemma QRecvPlaced(c: QConfig, s: Queue, t: Tid, size: nat, timeout: int)
    requires QPlacedBut(s, {t}) && (forall n :: n in s.queue ==> n in s.msgs)
    ensures QPlaced(QTryRecv(c, s, t, size, timeout).0)
  {
    if s.queue != [] {
      StaysPlaced(s, Unlink(s, t, size), t);
    } else if timeout == 0 {
      StaysPlaced(s, QLeave(s, t), t);
    } else {
      ReceiverParks(c, s, t, size, timeout);
    }
  }

  lemma QResetPlaced(s: Queue, r: Queue)
    requires QPlaced(s)
    requires r.receivers == s.receivers.(list := []) && r.senders == s.senders.(list := [])
    requires r.calls == s.calls - Members(s.receivers.list) - Members(s.senders.list)
    ensures QPlaced(r)
    ensures forall t, n :: Holds(r, t, n) <==> Holds(s, t, n)
  {
    forall x
      ensures r.receivers.Has(x) <==> QIsReceiving(r, x)
      ensures r.senders.Has(x) <==> QIsSending(r, x)
    {
      assert !(QIsReceiving(s, x) && QIsSending(s, x));
      assert s.receivers.Has(x) <==> QIsReceiving(s, x);
      assert s.senders.Has(x) <==> QIsSending(s, x);
    }
    forall x, n
      ensures Holds(r, x, n) <==> Holds(s, x, n)
    {
      assert s.receivers.Has(x) <==> QIsReceiving(s, x);
      assert s.senders.Has(x) <==> QIsSending(s, x);
    }
  }

  lemma QExpirePlaced(c: QConfig, s: Queue, t: Tid)
    requires QPlaced(s) && QEnabled(s, QExpire(t)) && Sound(c, s)
    ensures QPlaced(QStep(c, s, QExpire(t)).0)
  {
    var r := QStep(c, s, QExpire(t)).0;
    CancelFine(s.senders, t);
    CancelFine(s.receivers, t);
    assert s.senders.Has(t) || s.receivers.Has(t);
    QOnlyCallOf(s, r, t);
  }

  // ---------- every step ----------

  /** One section of one call: no buffer changes, and the new front of the call is sound. */
  lemma StaysSound(c: QConfig, s: Queue, r: Queue, t: Tid)
    requires Sound(c, s) && r.data == s.data && r.calls - {t} == s.calls - {t}
    requires t in r.calls ==> PhaseOk(c, r.data, r.calls[t])
    requires forall n :: n in r.queue ==> QueuedOk(c, r, n)
    ensures Sound(c, r)
  {
    QOnlyCallOf(s, r, t);
  }

  lemma TakeFreeSound(c: QConfig, s: Queue, t: Tid, msg: Bytes, urgent: bool)
    requires Conserved(c, s) && Sound(c, s) && s.free != [] && |msg| <= c.msgSize
    ensures Sound(c, TakeFree(s, t, msg, urgent))
  {
    assert s.free[0] in s.free && BufferOk(c, s.data, s.free[0]);
    assert forall n :: n in s.queue ==> QueuedOk(c, s, n);
    StaysSound(c, s, TakeFree(s, t, msg, urgent), t);
  }

  lemma UnlinkSound(c: QConfig, s: Queue, t: Tid, size: nat)
    requires Sound(c, s) && s.queue != [] && s.queue[0] in s.msgs
    ensures Sound(c, Unlink(s, t, size))
  {
    assert QueuedOk(c, s, s.queue[0]);
    assert forall n :: n in s.queue[1..] ==> n in s.queue && QueuedOk(c, s, n);
    StaysSound(c, s, Unlink(s, t, size), t);
  }

  lemma OnlyWaits(c: QConfig, s: Queue, r: Queue, t: Tid)
    requires Conserved(c, s) && Sound(c, s) && (forall n: Node :: !Holds(s, t, n) && !Holds(r, t, n))
    requires r.free == s.free && r.queue == s.queue && r.msgs == s.msgs && r.data == s.data
    requires r.calls - {t} == s.calls - {t} && (t in r.calls ==> PhaseOk(c, r.data, r.calls[t]))
    ensures Conserved(c, r) && Sound(c, r)
  {
    assert forall n :: n in s.queue ==> QueuedOk(c, s, n);
    StaysSound(c, s, r, t);
    QOnlyCallOf(s, r, t);
    NoNodeMoves(c, s, r);
  }

  lemma QSendNodes(c: QConfig, s: Queue, t: Tid, msg: Bytes, timeout: int)
    requires Conserved(c, s) && Sound(c, s) && |msg| <= c.msgSize && (forall n: Node :: !Holds(s, t, n))
    ensures var r := QTrySend(c, s, t, msg, timeout).0; Conserved(c, r) && Sound(c, r)
  {
    if s.free != [] {
      TakeFreeSound(c, s, t, msg, false);
      TakeFreeConserves(c, s, t, msg, false);
    } else {
      OnlyWaits(c, s, QTrySend(c, s, t, msg, timeout).0, t);
    }
  }

  lemma QRecvNodes(c: QConfig, s: Queue, t: Tid, size: nat, timeout: int)
    requires Conserved(c, s) && Sound(c, s) && (forall n: Node :: !Holds(s, t, n))
    requires forall n :: n in s.queue ==> n in s.msgs
    ensures var r := QTryRecv(c, s, t, size, timeout).0; Conserved(c, r) && Sound(c, r)
  {
    if s.queue != [] {
      UnlinkSound(c, s, t, size);
      UnlinkConserves(c, s, t, size);
    } else {
      OnlyWaits(c, s, QTryRecv(c, s, t, size, timeout).0, t);
    }
  }

  lemma QSendBooks(c: QConfig, s: Queue, t: Tid, msg: Bytes, timeout: int)
    requires s.receivers.list != [] ==> |s.receivers.woken| >= |s.queue|
    requires s.senders.list != [] ==> |s.senders.woken| + 1 >= |s.free|
    ensures QNoneForgotten(QTrySend(c, s, t, msg, timeout).0)
  {
  }

  lemma QRecvBooks(c: QConfig, s: Queue, t: Tid, size: nat, timeout: int)
    requires forall n :: n in s.queue ==> n in s.msgs
    requires s.receivers.list != [] ==> |s.receivers.woken| + 1 >= |s.queue|
    requires s.senders.list != [] ==> |s.senders.woken| >= |s.free|
    ensures QNoneForgotten(QTryRecv(c, s, t, size, timeout).0)
  {
  }

  lemma UrgentKeeps(c: QConfig, s: Queue, t: Tid, msg: Bytes)
    requires QInv(c, s) && t !in s.calls && |msg| <= c.msgSize && s.free != []
    ensures QInv(c, TakeFree(s, t, msg, true))
  {
    var r := TakeFree(s, t, msg, true);
    QNowhere(s, t);
    StaysPlaced(s, r, t);
    TakeFreeSound(c, s, t, msg, true);
    TakeFreeConserves(c, s, t, msg, true);
  }

  /** Filling a buffer outside the lock disturbs no queued message and no other copy. */
  lemma CopyInSound(c: QConfig, s: Queue, t: Tid)
    requires Conserved(c, s) && Sound(c, s) && QEnabled(s, CopyIn(t))
    ensures Sound(c, QStep(c, s, CopyIn(t)).0)
  {
    var r, h := QStep(c, s, CopyIn(t)).0, s.calls[t].node;
    assert Holds(s, t, h) && PhaseOk(c, s.data, s.calls[t]);
    forall n: Node | n < c.maxMsgs
      ensures BufferOk(c, r.data, n)
    {
      assert BufferOk(c, s.data, n);
    }
    forall n | n in r.queue
      ensures QueuedOk(c, r, n)
    {
      assert QueuedOk(c, s, n);
    }
    forall u | u in r.calls
      ensures PhaseOk(c, r.data, r.calls[u])
    {
      assert PhaseOk(c, s.data, s.calls[u]);
      if u != t && (s.calls[u].Filling? || s.calls[u].Draining?) {
        assert Holds(s, u, s.calls[u].node);
      }
    }
  }

  lemma CopyKeeps(c: QConfig, s: Queue, a: QAction)
    requires QInv(c, s) && QEnabled(s, a) && (a.CopyIn? || a.CopyOut?)
    ensures QInv(c, QStep(c, s, a).0)
  {
    var r := QStep(c, s, a).0;
    QNowhere(s, a.t);
    StaysPlaced(s, r, a.t);
    QOnlyCallOf(s, r, a.t);
    NoNodeMoves(c, s, r);
    if a.CopyIn? {
      CopyInSound(c, s, a.t);
    } else {
      assert PhaseOk(c, s.data, s.calls[a.t]);
      assert forall n :: n in s.queue ==> QueuedOk(c, s, n);
      StaysSound(c, s, r, a.t);
    }
  }

  lemma LinkKeeps(c: QConfig, s: Queue, t: Tid)
    requires QInv(c, s) && QEnabled(s, Link(t))
    ensures QInv(c, Linked(s, t))
  {
    var r, h := Linked(s, t), s.calls[t].node;
    assert PhaseOk(c, s.data, s.calls[t]);
    QNowhere(s, t);
    StaysPlaced(s, r, t);
    LinkedConserves(c, s, t);
    WakeOneFine(s.receivers);
    forall n | n in r.queue
      ensures QueuedOk(c, r, n)
    {
      assert n == h || (n in s.queue && QueuedOk(c, s, n));
    }
    StaysSound(c, s, r, t);
  }

  lemma GiveBackKeeps(c: QConfig, s: Queue, t: Tid)
    requires QInv(c, s) && QEnabled(s, GiveBack(t))
    ensures QInv(c, Returned(s, t))
  {
    var r := Returned(s, t);
    assert PhaseOk(c, s.data, s.calls[t]);
    QNowhere(s, t);
    StaysPlaced(s, r, t);
    ReturnedConserves(c, s, t);
    WakeOneFine(s.senders);
    assert forall n :: n in s.queue ==> QueuedOk(c, s, n);
    StaysSound(c, s, r, t);
  }

  lemma QExpireKeeps(c: QConfig, s: Queue, t: Tid)
    requires QInv(c, s) && QEnabled(s, QExpire(t))
    ensures QInv(c, QStep(c, s, QExpire(t)).0)
  {
    var r := QStep(c, s, QExpire(t)).0;
    QExpirePlaced(c, s, t);
    QOnlyCallOf(s, r, t);
    NoNodeMoves(c, s, r);
    assert forall n :: n in s.queue ==> QueuedOk(c, s, n);
    StaysSound(c, s, r, t);
    CancelFine(s.senders, t);
    CancelFine(s.receivers, t);
  }

  lemma QResetKeeps(c: QConfig, s: Queue)
    requires QInv(c, s)
    ensures QInv(c, QStep(c, s, QReset).0)
  {
    var r := QStep(c, s, QReset).0;
    QResetPlaced(s, r);
    ResetConserves(c, s, r);
  }

  lemma QCallKeeps(c: QConfig, s: Queue, a: QAction)
    requires QInv(c, s) && QEnabled(s, a) && (a.QRecv? || (a.QSend? && |a.msg| <= c.msgSize))
    ensures QInv(c, QStep(c, s, a).0)
  {
    QNowhere(s, a.t);
    match a
    case QSend(t, msg, timeout) =>
      QSendPlaced(c, s, t, msg, timeout);
      QSendNodes(c, s, t, msg, timeout);
      QSendBooks(c, s, t, msg, timeout);
    case QRecv(t, size, timeout) =>
      assert forall n :: n in s.queue ==> QueuedOk(c, s, n);
      QRecvPlaced(c, s, t, size, timeout);
      QRecvNodes(c, s, t, size, timeout);
      QRecvBooks(c, s, t, size, timeout);
  }

  lemma QRerunSendKeeps(c: QConfig, s: Queue, t: Tid, msg: Bytes, rest: int)
    requires QInv(c, s) && t in s.senders.woken && QIsSending(s, t) && |msg| <= c.msgSize
    ensures QInv(c, QTrySend(c, s.(senders := Rerun(s.senders, t)), t, msg, rest).0)
  {
    var q := s.(senders := Rerun(s.senders, t));
    QNowhere(s, t);
    NoNodeMoves(c, s, q);
    QSendPlaced(c, q, t, msg, rest);
    assert Sound(c, q) by {
      assert forall n :: n in s.queue ==> QueuedOk(c, s, n);
    }
    QSendNodes(c, q, t, msg, rest);
    QSendBooks(c, q, t, msg, rest);
  }

  lemma QRerunRecvKeeps(c: QConfig, s: Queue, t: Tid, size: nat, rest: int)
    requires QInv(c, s) && t in s.receivers.woken && QIsReceiving(s, t)
    requires forall n :: n in s.queue ==> n in s.msgs
    ensures QInv(c, QTryRecv(c, s.(receivers := Rerun(s.receivers, t)), t, size, rest).0)
  {
    var q := s.(receivers := Rerun(s.receivers, t));
    QNowhere(s, t);
    NoNodeMoves(c, s, q);
    QRecvPlaced(c, q, t, size, rest);
    assert Sound(c, q) by {
      assert forall n :: n in s.queue ==> QueuedOk(c, s, n);
    }
    QRecvNodes(c, q, t, size, rest);
    QRecvBooks(c, q, t, size, rest);
  }

  /** A section of any call, a timeout or a reset keeps the invariant. */
  lemma QStepKeeps(c: QConfig, s: Queue, a: QAction)
    requires QInv(c, s) && QEnabled(s, a)
    ensures QInv(c, QStep(c, s, a).0)
  {
    match a
    case QSend(_, msg, _) =>
      if |msg| <= c.msgSize {
        QCallKeeps(c, s, a);
      }
    case Urgent(t, msg) =>
      if |msg| <= c.msgSize && s.free != [] {
        UrgentKeeps(c, s, t, msg);
      }
    case QRecv(_, _, _) => QCallKeeps(c, s, a);
    case QResumeSend(t, elapsed) =>
      assert PhaseOk(c, s.data, s.calls[t]);
      QRerunSendKeeps(c, s, t, s.calls[t].msg, Remaining(s.calls[t].timeout, elapsed));
    case QResumeRecv(t, elapsed) =>
      assert forall n :: n in s.queue ==> QueuedOk(c, s, n);
      QRerunRecvKeeps(c, s, t, s.calls[t].size, Remaining(s.calls[t].timeout, elapsed));
    case CopyIn(_) => CopyKeeps(c, s, a);
    case CopyOut(_) => CopyKeeps(c, s, a);
    case Link(t) => LinkKeeps(c, s, t);
    case GiveBack(t) => GiveBackKeeps(c, s, t);
    case QExpire(t) => QExpireKeeps(c, s, t);
    case QReset => QResetKeeps(c, s);
  }

  // ---------- whole runs ----------

  /** `rt_mq_init` threads the nodes onto the free list from the first to the last. */
  function FreshFree(n: nat): (r: seq<Node>)
    ensures |r| == n && forall i :: 0 <= i < n ==> r[i] == n - 1 - i
  {
    seq(n, i requires 0 <= i < n => n - 1 - i)
  }

  /** The buffers start with whatever the pool memory holds. */
  function FreshQueue(c: QConfig, data: map<Node, Bytes>): Queue {
    Queue(FreshFree(c.maxMsgs), [], data, map[], Nobody, Nobody, map[])
  }

  ghost predicate PoolOk(c: QConfig, data: map<Node, Bytes>) {
    forall n: Node :: n < c.maxMsgs ==> BufferOk(c, data, n)
  }

  lemma FreshQueueInv(c: QConfig, data: map<Node, Bytes>)
    requires PoolOk(c, data)
    ensures QInv(c, FreshQueue(c, data))
  {
    var s := FreshQueue(c, data);
    forall n: Node | n < c.maxMsgs
      ensures Accounted(s, n)
    {
      assert s.free[c.maxMsgs - 1 - n] == n;
    }
  }

  /** The state after a run, and whether every section of it was possible when it came. */
  ghost function QRun(c: QConfig, data: map<Node, Bytes>, run: seq<QAction>): (r: (Queue, bool))
    requires PoolOk(c, data)
    ensures QInv(c, r.0)
  {
    FreshQueueInv(c, data);
    if run == [] then (FreshQueue(c, data), true)
    else
      var (s, ok) := QRun(c, data, run[..|run| - 1]);
      if ok && QEnabled(s, run[|run| - 1]) then
        QStepKeeps(c, s, run[|run| - 1]);
        (QStep(c, s, run[|run| - 1]).0, true)
      else (s, false)
  }

  /** The calls that are copying outside the lock. */
  ghost function InFlight(s: Queue): set<Tid> {
    set t | t in s.calls && (s.calls[t].Filling? || s.calls[t].Draining?)
  }

  ghost function HeldBy(s: Queue, ts: set<Tid>): set<Node>
    requires ts <= InFlight(s)
  {
    set t | t in ts :: s.calls[t].node
  }

  lemma {:induction false} OneNodeEach(s: Queue, ts: set<Tid>)
    requires ts <= InFlight(s)
    requires forall t, u, n :: Holds(s, t, n) && Holds(s, u, n) ==> t == u
    ensures |HeldBy(s, ts)| == |ts|
  {
    if ts == {} {
      assert HeldBy(s, ts) == {};
    } else {
      var t :| t in ts;
      var n := s.calls[t].node;
      OneNodeEach(s, ts - {t});
      assert Holds(s, t, n);
      assert n !in HeldBy(s, ts - {t}) by {
        if n in HeldBy(s, ts - {t}) {
          var u :| u in ts - {t} && s.calls[u].node == n;
          assert Holds(s, u, n);
        }
      }
      assert HeldBy(s, ts) == HeldBy(s, ts - {t}) + {n};
    }
  }

  lemma AllPlaces(c: QConfig, s: Queue)
    requires QInv(c, s)
    ensures var held := HeldBy(s, InFlight(s));
            && Members(s.free) !! Members(s.queue) !! held
            && forall n: Node :: n < c.maxMsgs <==> n in s.free || n in s.queue || n in held
  {
    var held := HeldBy(s, InFlight(s));
    forall n: Node
      ensures n in held <==> exists t :: Holds(s, t, n)
    {
      if n in held {
        var t :| t in InFlight(s) && s.calls[t].node == n;
        assert Holds(s, t, n);
      }
    }
    forall n: Node | n in held
      ensures n < c.maxMsgs && SomewhereElse(s, n)
    {
      var t :| Holds(s, t, n);
      assert PhaseOk(c, s.data, s.calls[t]);
    }
    forall n: Node | n in s.queue
      ensures n < c.maxMsgs
    {
      assert QueuedOk(c, s, n);
    }
    forall n: Node | n < c.maxMsgs
      ensures n in s.free || n in s.queue || n in held
    {
      assert Accounted(s, n);
    }
  }

  /** In every run no node is lost or in two places: those on the free list, those in the queue, and
      one for each call that is copying outside the lock, are all the nodes of the pool. */
  lemma NodesConserved(c: QConfig, data: map<Node, Bytes>, run: seq<QAction>)
    requires PoolOk(c, data)
    ensures var s := QRun(c, data, run).0;
            && |s.free| + |s.queue| + |InFlight(s)| == c.maxMsgs
            && Members(s.free) !! Members(s.queue) !! HeldBy(s, InFlight(s))
            && |HeldBy(s, InFlight(s))| == |InFlight(s)|
            && forall n: Node :: n < c.maxMsgs <==> n in s.free || n in s.queue || n in HeldBy(s, InFlight(s))
  {
    var s := QRun(c, data, run).0;
    AllPlaces(c, s);
    OneNodeEach(s, InFlight(s));
    SetOf(s.free);
    SetOf(s.queue);
    var held := HeldBy(s, InFlight(s));
    SizeOfRange(c.maxMsgs, Members(s.free) + Members(s.queue) + held);
  }

  /** No lost wakeup in any run: while a message and a waiting receiver are both there, a receiver that
      has been woken is about to run, and takes the head; and likewise for free nodes and senders. */
  lemma QNoLostWakeup(c: QConfig, data: map<Node, Bytes>, run: seq<QAction>, elapsed: nat)
    requires PoolOk(c, data)
    ensures var s := QRun(c, data, run).0;
            s.receivers.list != [] && s.queue != [] ==>
              exists t :: t in s.receivers.woken && QEnabled(s, QResumeRecv(t, elapsed))
                          && Holds(QStep(c, s, QResumeRecv(t, elapsed)).0, t, s.queue[0])
    ensures var s := QRun(c, data, run).0;
            s.senders.list != [] && s.free != [] ==>
              exists t :: t in s.senders.woken && QEnabled(s, QResumeSend(t, elapsed))
                          && Holds(QStep(c, s, QResumeSend(t, elapsed)).0, t, s.free[0])
  {
    var s := QRun(c, data, run).0;
    if s.receivers.list != [] && s.queue != [] {
      assert s.receivers.woken != {};
      var t :| t in s.receivers.woken;
      assert s.receivers.Has(t) && QIsReceiving(s, t);
      assert Holds(QStep(c, s, QResumeRecv(t, elapsed)).0, t, s.queue[0]);
    }
    if s.senders.list != [] && s.free != [] {
      assert s.senders.woken != {};
      var t :| t in s.senders.woken;
      assert s.senders.Has(t) && QIsSending(s, t);
      assert Holds(QStep(c, s, QResumeSend(t, elapsed)).0, t, s.free[0]);
    }
  }

  // ---------- the queue is a bounded deque of messages ----------

  /** When a node is linked the queue is short of `max_msgs`, a 16-bit number: `entry` cannot be at
      RT_MQ_ENTRY_MAX there, so neither send nor urgent can lose a node on its overflow branch. */
  lemma RoomToLink(c: QConfig, s: Queue, t: Tid)
    requires QInv(c, s) && IsFilling(s, t)
    ensures |s.queue| < c.maxMsgs
  {
    var h := s.calls[t].node;
    var q := s.queue + [h];
    assert Holds(s, t, h) && PhaseOk(c, s.data, s.calls[t]);
    assert forall n :: n in s.queue ==> QueuedOk(c, s, n);
    assert forall i :: 0 <= i < |s.queue| ==> s.queue[i] in s.queue;
    Pigeonhole(q, c.maxMsgs);
  }

  /** What a section does to the deque. */
  ghost function DequeStep(c: QConfig, s: Queue, a: QAction): seq<Bytes>
    requires Sound(c, s) && QEnabled(s, a)
  {
    var q := Contents(s);
    match a
    case Link(t) => if s.calls[t].urgent then [s.calls[t].msg] + q else q + [s.calls[t].msg]
    case QRecv(_, _, _) => if q == [] then q else q[1..]
    case QResumeRecv(_, _) => if q == [] then q else q[1..]
    case QReset => []
    case _ => q
  }

  lemma PostedMessages(queue: seq<Node>, msgs: map<Node, Bytes>, h: Node, msg: Bytes)
    requires h !in queue && (forall n :: n in queue ==> n in msgs)
    ensures Messages(queue + [h], msgs[h := msg]) == Messages(queue, msgs) + [msg]
    ensures Messages([h] + queue, msgs[h := msg]) == [msg] + Messages(queue, msgs)
  {
    assert forall i :: 0 <= i < |queue| ==> queue[i] in queue;
  }

  lemma RecvRefines(c: QConfig, s: Queue, t: Tid, size: nat, timeout: int)
    requires forall n :: n in s.queue ==> n in s.msgs
    ensures var r, q := QTryRecv(c, s, t, size, timeout).0, Contents(s);
            && (forall n :: n in r.queue ==> n in r.msgs)
            && Contents(r) == (if q == [] then q else q[1..])
            && (q != [] ==> IsDraining(r, t) && r.calls[t].front == q[0])
  {
    var r := QTryRecv(c, s, t, size, timeout).0;
    assert s.queue != [] ==> Contents(r) == Contents(s)[1..];
  }

  lemma OthersLeaveDeque(c: QConfig, s: Queue, a: QAction)
    requires Sound(c, s) && QEnabled(s, a) && !a.Link? && !a.QRecv? && !a.QResumeRecv? && !a.QReset?
    requires Sound(c, QStep(c, s, a).0)
    ensures Contents(QStep(c, s, a).0) == Contents(s)
  {
    var r := QStep(c, s, a).0;
    assert r.queue == s.queue && r.msgs == s.msgs;
  }

  lemma StepRefines(c: QConfig, s: Queue, a: QAction)
    requires QEnabled(s, a) && Sound(c, s) && Sound(c, QStep(c, s, a).0) && forall n :: n in s.queue ==> n in s.msgs
    requires a.Link? ==> s.calls[a.t].node !in s.queue
    ensures Contents(QStep(c, s, a).0) == DequeStep(c, s, a)
    ensures (a.QRecv? || a.QResumeRecv?) && s.queue != [] ==>
              var r := QStep(c, s, a).0; IsDraining(r, a.t) && r.calls[a.t].front == Contents(s)[0]
  {
    match a
    case Link(t) => PostedMessages(s.queue, s.msgs, s.calls[t].node, s.calls[t].msg);
    case QRecv(t, size, timeout) => RecvRefines(c, s, t, size, timeout);
    case QResumeRecv(t, elapsed) =>
      RecvRefines(c, s.(receivers := Rerun(s.receivers, t)), t, s.calls[t].size,
          Remaining(s.calls[t].timeout, elapsed));
    case QReset =>
    case _ => OthersLeaveDeque(c, s, a);
  }

  /** Linking appends the sender's message, or puts an urgent one in front; a receiver takes the front;
      a reset empties; no other section, however interleaved, changes what is queued. */
  lemma RefinesDeque(c: QConfig, s: Queue, a: QAction)
    requires QInv(c, s) && QEnabled(s, a)
    ensures Sound(c, QStep(c, s, a).0) && Contents(QStep(c, s, a).0) == DequeStep(c, s, a)
    ensures (a.QRecv? || a.QResumeRecv?) && s.queue != [] ==>
              var r := QStep(c, s, a).0; IsDraining(r, a.t) && r.calls[a.t].front == Contents(s)[0]
  {
    QStepKeeps(c, s, a);
    assert forall n :: n in s.queue ==> QueuedOk(c, s, n);
    if a.Link? {
      assert Holds(s, a.t, s.calls[a.t].node);
    }
    StepRefines(c, s, a);
  }

  /** What the receiver's buffer holds at the end is the message it took from the front, cut to its
      room, whatever other calls did to the pool in between. */
  lemma ReceivesWhatItTook(c: QConfig, s: Queue, t: Tid)
    requires QInv(c, s) && QEnabled(s, GiveBack(t))
    ensures var p := s.calls[t];
            QStep(c, s, GiveBack(t)).1 == QGot(p.got)
            && |p.got| == (if p.room > c.msgSize then c.msgSize else p.room)
            && forall i :: 0 <= i < |p.front| && i < |p.got| ==> p.got[i] == p.front[i]
  {
    assert PhaseOk(c, s.data, s.calls[t]);
  }

  /** No section of another call changes what a call has in its hands. */
  lemma HandsUntouched(c: QConfig, s: Queue, a: QAction, u: Tid)
    requires QInv(c, s) && QEnabled(s, a) && (IsFilling(s, u) || IsDraining(s, u))
    requires a.QReset? || a.t != u
    ensures var r := QStep(c, s, a).0;
            u in r.calls && r.calls[u] == s.calls[u] && s.data[s.calls[u].node] == r.data[s.calls[u].node]
  {
    assert Holds(s, u, s.calls[u].node);
    assert PhaseOk(c, s.data, s.calls[u]);
    if a.QReset? {
      assert !QIsReceiving(s, u) && !QIsSending(s, u);
    } else if a.CopyIn? {
      assert Holds(s, a.t, s.calls[a.t].node);
    }
  }
}
