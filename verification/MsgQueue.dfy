/** `struct rt_messagequeue` over its linked nodes. Each method is one interrupt-disabled section, or
    one copy between two of them, and is proved to be the step of `QueueModel` it stands for. */
module MsgQueue {
  import opened LinkedNodes
  import opened WaitList
  import opened MailboxModel
  import opened QueueModel

  const MQ_ENTRY_MAX: nat := 0xFFFF

  ghost predicate Apart(queue: seq<Node>, free: seq<Node>) {
    NoDup(queue) && NoDup(free) && forall n :: n in free ==> n !in queue
  }

  /** A sender that has copied its message has also closed its node's link. */
  ghost predicate Closed(next: seq<int>, calls: map<Tid, QPhase>) {
    forall t :: t in calls && calls[t].Filling? && calls[t].copied && !calls[t].urgent
                ==> calls[t].node < |next| && next[calls[t].node] == NIL
  }

  ghost predicate HeldByNoneBut(s: Queue, t: Tid, n: Node) {
    forall u :: u != t ==> !Holds(s, u, n)
  }

  /** A node in the hands of `t` is nobody else's. */
  ghost predicate InHand(c: QConfig, s: Queue, t: Tid, n: Node) {
    n < c.maxMsgs && n !in s.free && n !in s.queue && HeldByNoneBut(s, t, n) && BufferOk(c, s.data, n)
  }

  lemma InHandOf(c: QConfig, s: Queue, t: Tid)
    requires QInv(c, s) && (IsFilling(s, t) || IsDraining(s, t))
    ensures InHand(c, s, t, s.calls[t].node) && PhaseOk(c, s.data, s.calls[t]) && Apart(s.queue, s.free)
  {
    assert Holds(s, t, s.calls[t].node) && PhaseOk(c, s.data, s.calls[t]);
  }

  ghost predicate HeldByNone(s: Queue, n: Node) {
    forall u :: !Holds(s, u, n)
  }

  lemma QueuedHeldByNone(c: QConfig, s: Queue)
    requires QInv(c, s)
    ensures forall n :: n in s.queue ==> n < c.maxMsgs && HeldByNone(s, n)
    ensures Apart(s.queue, s.free) && QPlaced(s)
  {
    assert forall n :: n in s.queue ==> QueuedOk(c, s, n);
  }

  lemma ResetHolds(s: Queue, r: Queue)
    requires QPlaced(s) && r.calls == s.calls - Members(s.receivers.list) - Members(s.senders.list)
    ensures forall n :: HeldByNone(s, n) ==> HeldByNone(r, n)
  {
    assert forall u, n :: Holds(r, u, n) ==> Holds(s, u, n);
  }

  lemma ClosedFrame(s: Queue, next: seq<int>, r: seq<int>, x: Node, value: int)
    requires Closed(next, s.calls) && x < |next| && r == next[x := value] && HeldByNone(s, x)
    ensures Closed(r, s.calls)
  {
    forall u | u in s.calls && s.calls[u].Filling? && s.calls[u].copied && !s.calls[u].urgent
      ensures s.calls[u].node < |r| && r[s.calls[u].node] == NIL
    {
      assert !Holds(s, u, x);
    }
  }

  /** Only the call of `t` and the link of a node that no other call holds differ. */
  lemma ClosedKept(s: Queue, next: seq<int>, r: seq<int>, x: Node, value: int, t: Tid, after: map<Tid, QPhase>)
    requires Closed(next, s.calls) && x < |next| && r == next[x := value]
    requires HeldByNoneBut(s, t, x)
    requires after - {t} == s.calls - {t}
    requires t in after && after[t].Filling? && after[t].copied && !after[t].urgent
             ==> after[t].node < |r| && r[after[t].node] == NIL
    ensures Closed(r, after)
  {
    QOnlyCallOf(s, s.(calls := after), t);
    forall u | u in after && after[u].Filling? && after[u].copied && !after[u].urgent
      ensures after[u].node < |r| && r[after[u].node] == NIL
    {
      if u != t {
        assert u in s.calls && s.calls[u] == after[u];
        assert Holds(s, u, after[u].node);
      }
    }
  }

  class MessageQueue {
    const config: QConfig
    const next: array<int>
    const buffers: array<Bytes>
    var head: int
    var tail: int
    var freeHead: int
    var entry: nat
    var suspendThread: seq<Tid>
    var suspendSenderThread: seq<Tid>

    /** The threads inside a call: what they remember, and which of them have been resumed. */
    var calls: map<Tid, QPhase>
    var wokenReceivers: set<Tid>
    var wokenSenders: set<Tid>

    ghost var queue: seq<Node>
    ghost var free: seq<Node>
    ghost var data: map<Node, Bytes>

    /** The message last linked with each node. The source has no such record; nothing is decided by it. */
    var msgs: map<Node, Bytes>

    ghost predicate Lists()
      reads this, next
    {
      && Chain(next[..], head, queue) && tail == Last(queue)
      && Chain(next[..], freeHead, free)
    }

    ghost predicate Buffered()
      reads this, buffers
    {
      forall n: Node :: (n in data <==> n < buffers.Length) && (n < buffers.Length ==> data[n] == buffers[n])
    }

    ghost predicate Shape()
      reads this, next, buffers
    {
      && next.Length == buffers.Length == config.maxMsgs <= MQ_ENTRY_MAX
      && Lists() && entry == |queue| && Closed(next[..], calls) && Buffered()
    }

    ghost predicate Valid()
      reads this, next, buffers
    {
      Shape() && QInv(config, View())
    }

    ghost function View(): Queue
      reads this
    {
      Queue(free, queue, data, msgs, Waiters(suspendThread, wokenReceivers), Waiters(suspendSenderThread, wokenSenders),
          calls)
    }

    /** `rt_mq_init`, over pool memory with arbitrary contents. */
    constructor (c: QConfig, pool: array<Bytes>)
      requires pool.Length == c.maxMsgs <= MQ_ENTRY_MAX
      requires forall n :: 0 <= n < pool.Length ==> |pool[n]| == c.msgSize
      ensures Valid() && config == c && buffers == pool && fresh(next)
      ensures View() == FreshQueue(c, map n | 0 <= n < pool.Length :: pool[n])
    {
      config := c;
      buffers := pool;
      next := new int[c.maxMsgs];
      head, tail, freeHead, entry := NIL, NIL, NIL, 0;
      suspendThread, suspendSenderThread := [], [];
      calls, wokenReceivers, wokenSenders := map[], {}, {};
      queue, free, msgs := [], [], map[];
      data := map n | 0 <= n < pool.Length :: pool[n];
      new;
      ThreadPool();
      FreshQueueInv(c, data);
    }

    // ---------- the two lists ----------

    method PopFree() returns (msg: Node)
      requires Lists() && free != []
      modifies this`freeHead, this`free
      ensures Lists() && msg == old(free)[0] && free == old(free)[1..]
    {
      msg := freeHead;
      freeHead := next[msg];
      free := free[1..];
    }

    method PushFree(msg: Node)
      requires Lists() && msg < next.Length && msg !in free && msg !in queue
      modifies this`freeHead, this`free, next
      ensures Lists() && free == [msg] + old(free)
      ensures next[..] == old(next[..])[msg := next[msg]]
    {
      ghost var was := next[..];
      next[msg] := freeHead;
      assert next[..] == was[msg := freeHead];
      ChainFrame(was, freeHead, free, msg, freeHead);
      ChainFrame(was, head, queue, msg, freeHead);
      freeHead := msg;
      free := [msg] + free;
      assert free[1..] == old(free);
    }

    method PopHead() returns (msg: Node)
      requires Lists() && queue != [] && NoDup(queue)
      modifies this`head, this`tail, this`queue
      ensures Lists() && msg == old(queue)[0] && queue == old(queue)[1..]
    {
      msg := head;
      head := next[msg];
      if tail == msg {
        tail := NIL;
      }
      queue := queue[1..];
    }

    method Append(msg: Node)
      requires Lists() && Apart(queue, free) && entry < MQ_ENTRY_MAX
      requires msg < next.Length && msg !in free && msg !in queue && next[msg] == NIL
      modifies this`head, this`tail, this`entry, this`queue, next
      ensures Lists() && queue == old(queue) + [msg] && entry == old(entry) + 1
      ensures old(queue) != [] ==> old(tail) in old(queue) && old(tail) < next.Length
      ensures next[..] == if old(queue) == [] then old(next[..]) else old(next[..])[old(tail) := msg]
    {
      ghost var was := next[..];
      if tail != NIL {
        assert queue[|queue| - 1] in queue;
        ChainAppend(was, head, queue, msg);
        ChainFrame(was, freeHead, free, tail, msg);
        next[tail] := msg;
        assert next[..] == was[tail := msg];
      } else {
        assert Chain(was, next[msg], []);
        assert [msg][1..] == [];
      }
      tail := msg;
      if head == NIL {
        head := msg;
      }
      if entry < MQ_ENTRY_MAX {
        entry := entry + 1;
      } else {
        assert false;
      }
      queue := queue + [msg];
    }

    method Prepend(msg: Node)
      requires Lists() && entry < MQ_ENTRY_MAX && msg < next.Length && msg !in free && msg !in queue
      modifies this`head, this`tail, this`entry, this`queue, next
      ensures Lists() && queue == [msg] + old(queue) && entry == old(entry) + 1
      ensures next[..] == old(next[..])[msg := next[msg]]
    {
      ghost var was := next[..];
      next[msg] := head;
      assert next[..] == was[msg := head];
      ChainFrame(was, freeHead, free, msg, head);
      ChainFrame(was, head, queue, msg, head);
      head := msg;
      if tail == NIL {
        tail := msg;
      }
      if entry < MQ_ENTRY_MAX {
        entry := entry + 1;
      } else {
        assert false;
      }
      queue := [msg] + queue;
      assert queue[1..] == old(queue);
    }

    /** The loop of `rt_mq_init`. */
    method ThreadPool()
      requires freeHead == NIL && free == []
      modifies this`freeHead, this`free, next
      ensures Chain(next[..], freeHead, free) && free == FreshFree(next.Length)
    {
      var temp := 0;
      while temp < next.Length
        invariant temp <= next.Length
        invariant Chain(next[..], freeHead, free) && free == FreshFree(temp)
      {
        ghost var was := next[..];
        next[temp] := freeHead;
        assert next[..] == was[temp := freeHead];
        ChainFrame(was, freeHead, free, temp, freeHead);
        freeHead := temp;
        free := [temp] + free;
        assert free[1..] == FreshFree(temp);
        temp := temp + 1;
      }
    }

    // ---------- rt_mq_send_wait and rt_mq_urgent ----------

    method TakeNode(t: Tid, msg: Bytes, urgent: bool)
      requires Shape() && free != []
      modifies this`freeHead, this`free, this`calls
      ensures Shape() && View() == TakeFree(old(View()), t, msg, urgent)
    {
      var node := PopFree();
      calls := calls[t := Filling(node, msg, urgent, false)];
    }

    method SuspendSender(t: Tid, msg: Bytes, timeout: int)
      requires Shape()
      modifies this`suspendSenderThread, this`calls
      ensures Shape() && View() == QParkSender(config, old(View()), t, msg, timeout)
    {
      suspendSenderThread := SuspendOn(suspendSenderThread, t, config.order, config.priority);
      calls := calls[t := QSending(msg, timeout)];
    }

    /** From the loop test to the point where interrupts are enabled again. */
    method SendSection(t: Tid, msg: Bytes, timeout: int) returns (status: QStatus)
      requires Shape()
      modifies this
      ensures Shape() && (View(), status) == QTrySend(config, old(View()), t, msg, timeout)
    {
      if freeHead == NIL {
        if timeout == 0 {
          calls := calls - {t};
          return QFull;
        }
        SuspendSender(t, msg, timeout);
        return QBlocked;
      }
      TakeNode(t, msg, false);
      return Going;
    }

    method SendWait(t: Tid, msg: Bytes, timeout: int) returns (status: QStatus)
      requires Valid() && QEnabled(View(), QSend(t, msg, timeout))
      modifies this
      ensures Valid() && (View(), status) == QStep(config, old(View()), QSend(t, msg, timeout))
    {
      QStepKeeps(config, View(), QSend(t, msg, timeout));
      if |msg| > config.msgSize {
        return TooLong;
      }
      status := SendSection(t, msg, timeout);
    }

    method SendAgain(t: Tid, elapsed: nat) returns (status: QStatus)
      requires Valid() && QEnabled(View(), QResumeSend(t, elapsed))
      modifies this
      ensures Valid() && (View(), status) == QStep(config, old(View()), QResumeSend(t, elapsed))
    {
      QStepKeeps(config, View(), QResumeSend(t, elapsed));
      var phase := calls[t];
      wokenSenders := wokenSenders - {t};
      status := SendSection(t, phase.msg, Remaining(phase.timeout, elapsed));
    }

    method SendUrgent(t: Tid, msg: Bytes) returns (status: QStatus)
      requires Valid() && QEnabled(View(), Urgent(t, msg))
      modifies this
      ensures Valid() && (View(), status) == QStep(config, old(View()), Urgent(t, msg))
    {
      QStepKeeps(config, View(), Urgent(t, msg));
      if |msg| > config.msgSize {
        return TooLong;
      }
      if freeHead == NIL {
        return QFull;
      }
      TakeNode(t, msg, true);
      return Going;
    }

    method FillNode(t: Tid)
      requires Shape() && IsFilling(View(), t) && InHand(config, View(), t, calls[t].node)
      requires |calls[t].msg| <= config.msgSize
      modifies this`data, this`calls, next, buffers
      ensures Shape()
      ensures var p := old(calls)[t];
              View() == old(View()).(data := old(data)[p.node := Overwrite(old(data)[p.node], p.msg)], calls := calls)
      ensures calls == old(calls)[t := old(calls)[t].(copied := true)]
    {
      ghost var was, s := next[..], View();
      var p := calls[t];
      if !p.urgent {
        next[p.node] := NIL;
        ChainFrame(was, freeHead, free, p.node, NIL);
        ChainFrame(was, head, queue, p.node, NIL);
      }
      assert next[..] == was[p.node := next[p.node]];
      buffers[p.node] := Overwrite(buffers[p.node], p.msg);
      data := data[p.node := buffers[p.node]];
      calls := calls[t := p.(copied := true)];
      ClosedKept(s, was, next[..], p.node, next[p.node], t, calls);
    }

    /** Outside the lock: rt_mq_send_wait closes the link, and both copy the message in. */
    method CopyMessage(t: Tid) returns (status: QStatus)
      requires Valid() && QEnabled(View(), CopyIn(t))
      modifies this, next, buffers
      ensures Valid() && (View(), status) == QStep(config, old(View()), CopyIn(t))
    {
      QStepKeeps(config, View(), CopyIn(t));
      InHandOf(config, View(), t);
      FillNode(t);
      return Going;
    }

    method ResumeReceiver()
      requires Shape()
      modifies this`suspendThread, this`wokenReceivers
      ensures Shape() && Waiters(suspendThread, wokenReceivers) == WakeOne(old(Waiters(suspendThread, wokenReceivers)))
    {
      if suspendThread != [] {
        wokenReceivers := wokenReceivers + {suspendThread[0]};
        suspendThread := suspendThread[1..];
      }
    }

    method ResumeSender()
      requires Shape()
      modifies this`suspendSenderThread, this`wokenSenders
      ensures Shape() && Waiters(suspendSenderThread, wokenSenders) ==
              WakeOne(old(Waiters(suspendSenderThread, wokenSenders)))
    {
      if suspendSenderThread != [] {
        wokenSenders := wokenSenders + {suspendSenderThread[0]};
        suspendSenderThread := suspendSenderThread[1..];
      }
    }

    method LinkNode(t: Tid)
      requires Shape() && IsFilling(View(), t) && calls[t].copied && InHand(config, View(), t, calls[t].node)
      requires entry < MQ_ENTRY_MAX && Apart(queue, free) && forall n :: n in queue ==> HeldByNone(View(), n)
      modifies this`head, this`tail, this`entry, this`queue, this`calls, this`msgs, next
      ensures Shape() && calls == old(calls) - {t} && msgs == old(msgs)[old(calls)[t].node := old(calls)[t].msg]
      ensures var p := old(calls)[t]; queue == if p.urgent then [p.node] + old(queue) else old(queue) + [p.node]
    {
      ghost var was, s := next[..], View();
      var p := calls[t];
      msgs := msgs[p.node := p.msg];
      if p.urgent {
        Prepend(p.node);
        calls := calls - {t};
        ClosedKept(s, was, next[..], p.node, next[p.node], t, calls);
      } else {
        ghost var last := if queue == [] then p.node else tail;
        Append(p.node);
        calls := calls - {t};
        ClosedKept(s, was, next[..], last, next[last], t, calls);
      }
    }

    method LinkAndWake(t: Tid)
      requires Shape() && IsFilling(View(), t) && calls[t].copied && InHand(config, View(), t, calls[t].node)
      requires entry < MQ_ENTRY_MAX && Apart(queue, free) && forall n :: n in queue ==> HeldByNone(View(), n)
      modifies this, next
      ensures Shape() && View() == Linked(old(View()), t)
    {
      LinkNode(t);
      ResumeReceiver();
    }

    /** The second section of rt_mq_send_wait and of rt_mq_urgent. */
    method LinkMessage(t: Tid) returns (status: QStatus)
      requires Valid() && QEnabled(View(), Link(t))
      modifies this, next
      ensures Valid() && (View(), status) == QStep(config, old(View()), Link(t))
    {
      QStepKeeps(config, View(), Link(t));
      InHandOf(config, View(), t);
      RoomToLink(config, View(), t);
      QueuedHeldByNone(config, View());
      LinkAndWake(t);
      return QDone;
    }

    // ---------- rt_mq_recv ----------

    method UnlinkNode(t: Tid, size: nat)
      requires Shape() && queue != [] && NoDup(queue) && queue[0] in msgs
      modifies this`head, this`tail, this`entry, this`queue, this`calls
      ensures Shape() && View() == Unlink(old(View()), t, size)
    {
      var node := PopHead();
      if entry > 0 {
        entry := entry - 1;
      }
      calls := calls[t := Draining(node, msgs[node], size, false, [])];
    }

    method SuspendReceiver(t: Tid, size: nat, timeout: int)
      requires Shape()
      modifies this`suspendThread, this`calls
      ensures Shape() && View() == QParkReceiver(config, old(View()), t, size, timeout)
    {
      suspendThread := SuspendOn(suspendThread, t, config.order, config.priority);
      calls := calls[t := QReceiving(size, timeout)];
    }

    method RecvSection(t: Tid, size: nat, timeout: int) returns (status: QStatus)
      requires Shape() && NoDup(queue) && (forall n :: n in queue ==> n in msgs)
      modifies this
      ensures Shape() && (View(), status) == QTryRecv(config, old(View()), t, size, timeout)
    {
      if entry == 0 {
        if timeout == 0 {
          calls := calls - {t};
          return QTimedOut;
        }
        SuspendReceiver(t, size, timeout);
        return QBlocked;
      }
      UnlinkNode(t, size);
      return Going;
    }

    method RecvWait(t: Tid, size: nat, timeout: int) returns (status: QStatus)
      requires Valid() && QEnabled(View(), QRecv(t, size, timeout))
      modifies this
      ensures Valid() && (View(), status) == QStep(config, old(View()), QRecv(t, size, timeout))
    {
      QStepKeeps(config, View(), QRecv(t, size, timeout));
      assert forall n :: n in queue ==> QueuedOk(config, View(), n);
      status := RecvSection(t, size, timeout);
    }

    method RecvAgain(t: Tid, elapsed: nat) returns (status: QStatus)
      requires Valid() && QEnabled(View(), QResumeRecv(t, elapsed))
      modifies this
      ensures Valid() && (View(), status) == QStep(config, old(View()), QResumeRecv(t, elapsed))
    {
      QStepKeeps(config, View(), QResumeRecv(t, elapsed));
      assert forall n :: n in queue ==> QueuedOk(config, View(), n);
      var phase := calls[t];
      wokenReceivers := wokenReceivers - {t};
      status := RecvSection(t, phase.size, Remaining(phase.timeout, elapsed));
    }

    /** Outside the lock. */
    method CopyToCaller(t: Tid) returns (status: QStatus)
      requires Valid() && QEnabled(View(), CopyOut(t))
      modifies this
      ensures Valid() && (View(), status) == QStep(config, old(View()), CopyOut(t))
    {
      QStepKeeps(config, View(), CopyOut(t));
      var p := calls[t];
      assert PhaseOk(config, data, p);
      var got := if p.room > config.msgSize then buffers[p.node] else buffers[p.node][..p.room];
      calls := calls[t := Draining(p.node, p.front, p.room, true, got)];
      return Going;
    }

    method FreeNode(t: Tid)
      requires Shape() && IsDraining(View(), t) && InHand(config, View(), t, calls[t].node)
      modifies this`freeHead, this`free, this`calls, next
      ensures Shape() && free == [old(calls)[t].node] + old(free) && calls == old(calls) - {t}
    {
      ghost var was, s := next[..], View();
      var p := calls[t];
      PushFree(p.node);
      calls := calls - {t};
      ClosedKept(s, was, next[..], p.node, next[p.node], t, calls);
    }

    method FreeAndWake(t: Tid)
      requires Shape() && IsDraining(View(), t) && InHand(config, View(), t, calls[t].node)
      modifies this, next
      ensures Shape() && View() == Returned(old(View()), t)
    {
      FreeNode(t);
      ResumeSender();
    }

    method ReturnNode(t: Tid) returns (status: QStatus)
      requires Valid() && QEnabled(View(), GiveBack(t))
      modifies this, next
      ensures Valid() && (View(), status) == QStep(config, old(View()), GiveBack(t))
    {
      QStepKeeps(config, View(), GiveBack(t));
      InHandOf(config, View(), t);
      var got := calls[t].got;
      FreeAndWake(t);
      return QGot(got);
    }

    // ---------- the others ----------

    /** rt_thread_timeout for a thread suspended here; its call returns without a further look. */
    method TimeoutOf(t: Tid) returns (status: QStatus)
      requires Valid() && QEnabled(View(), QExpire(t))
      modifies this
      ensures Valid() && (View(), status) == QStep(config, old(View()), QExpire(t))
    {
      QStepKeeps(config, View(), QExpire(t));
      suspendSenderThread := Without(suspendSenderThread, t);
      suspendThread := Without(suspendThread, t);
      calls := calls - {t};
      status := QTimedOut;
    }

    method ResumeEveryone()
      requires Shape()
      modifies this`calls, this`suspendThread, this`suspendSenderThread
      ensures Shape() && suspendThread == [] && suspendSenderThread == []
      ensures calls == old(calls) - Members(old(suspendThread)) - Members(old(suspendSenderThread))
    {
      calls := ResumeAll(suspendThread, calls);
      suspendThread := [];
      calls := ResumeAll(suspendSenderThread, calls);
      suspendSenderThread := [];
    }

    method ReleaseFront(ghost s: Queue)
      requires Lists() && Apart(queue, free) && queue != [] && Closed(next[..], calls) && calls == s.calls
      requires queue[0] < next.Length && HeldByNone(s, queue[0])
      modifies this`head, this`tail, this`queue, this`freeHead, this`free, next
      ensures Lists() && Apart(queue, free) && Closed(next[..], calls)
      ensures queue == old(queue)[1..] && free == [old(queue)[0]] + old(free)
    {
      ghost var was, q := next[..], queue;
      assert forall i :: 0 < i < |q| ==> q[i] != q[0];
      assert q[0] in q && forall n :: n in q[1..] ==> n in q && n != q[0];
      var msg := PopHead();
      PushFree(msg);
      assert forall n :: n in free <==> n == msg || n in old(free);
      ClosedFrame(s, was, next[..], msg, next[msg]);
    }

    /** The loop of the reset: every queued node goes to the free list, the front one first. */
    method ReleaseAll(ghost s: Queue)
      requires Lists() && Apart(queue, free) && Closed(next[..], calls) && calls == s.calls
      requires forall n :: n in queue ==> n < next.Length && HeldByNone(s, n)
      modifies this`head, this`tail, this`queue, this`freeHead, this`free, next
      ensures Lists() && Closed(next[..], calls) && queue == [] && free == PushAll(old(queue), old(free))
    {
      while head != NIL
        invariant Lists() && Apart(queue, free) && Closed(next[..], calls)
        invariant forall n :: n in queue ==> n < next.Length && HeldByNone(s, n)
        invariant PushAll(queue, free) == PushAll(old(queue), old(free))
        decreases |queue|
      {
        assert queue[0] in queue && forall n :: n in queue[1..] ==> n in queue;
        ReleaseFront(s);
      }
    }

    method ClearQueue(ghost s: Queue)
      requires Shape() && Apart(queue, free) && calls == s.calls
      requires forall n :: n in queue ==> n < next.Length && HeldByNone(s, n)
      modifies this`head, this`tail, this`queue, this`freeHead, this`free, this`entry, next
      ensures Shape() && queue == [] && free == PushAll(old(queue), old(free))
    {
      ReleaseAll(s);
      entry := 0;
    }

    method ClearAndWake()
      requires Shape() && Apart(queue, free) && QPlaced(View())
      requires forall n :: n in queue ==> n < next.Length && HeldByNone(View(), n)
      modifies this, next
      ensures Shape() && View() == old(View()).(free := PushAll(old(queue), old(free)), queue := [],
                receivers := old(View()).receivers.(list := []), senders := old(View()).senders.(list := []),
                calls := old(calls) - Members(old(suspendThread)) - Members(old(suspendSenderThread)))
    {
      ghost var s := View();
      ResumeEveryone();
      ResetHolds(s, View());
      ClearQueue(View());
    }

    /** rt_mq_control with RT_IPC_CMD_RESET. */
    method ResetQueue() returns (status: QStatus)
      requires Valid()
      modifies this, next
      ensures Valid() && (View(), status) == QStep(config, old(View()), QReset)
    {
      QStepKeeps(config, View(), QReset);
      QueuedHeldByNone(config, View());
      ClearAndWake();
      return QDone;
    }
  }
}
