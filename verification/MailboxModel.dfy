/** The mailbox protocol of `ipc.c` as a step system. One step is one interrupt-disabled section;
    between two sections of a call the thread may be re-scheduled, so any other step can come in. */
module MailboxModel {
  import opened LinkedNodes
  import opened WaitList

  type Mail = nat

  /** What a thread inside `rt_mb_send_wait` or `rt_mb_recv` still remembers: `timeout` is -1 for ever. */
  datatype Phase = Sending(mail: Mail, timeout: int) | Receiving(timeout: int)

  datatype Status = Done | Got(mail: Mail) | Full | TimedOut | Blocked

  /** How a mail left the mailbox: taken by a receiver, or dropped by a reset. */
  datatype Exit = Exit(mail: Mail, taken: bool)

  datatype Config = Config(size: nat, order: Order, priority: map<Tid, nat>)

  /** Threads inside a call are waiting in a list, or woken and not yet run again. */
  datatype State = State(
    mails: seq<Mail>,
    receivers: Waiters, senders: Waiters,
    calls: map<Tid, Phase>,
    accepted: seq<Mail>, left: seq<Exit>)

  datatype Action =
    | Send(t: Tid, mail: Mail, timeout: int)
    | ResumeSend(t: Tid, elapsed: nat)
    | Recv(t: Tid, timeout: int)
    | ResumeRecv(t: Tid, elapsed: nat)
    | Expire(t: Tid)
    | Reset

  const Empty: State := State([], Nobody, Nobody, map[], [], [])

  /** The rest of a timeout: `timeout -= tick_delta` in 32-bit arithmetic, cut off at zero. */
  function Remaining(timeout: int, elapsed: nat): int {
    if timeout <= 0 then timeout
    else
      var d := (timeout - elapsed) % 0x1_0000_0000;
      if d >= 0x8000_0000 then 0 else d
  }

  function Leave(s: State, t: Tid): State {
    s.(calls := s.calls - {t})
  }

  function ParkSender(c: Config, s: State, t: Tid, mail: Mail, timeout: int): State {
    s.(senders := Park(s.senders, t, c.order, c.priority), calls := s.calls[t := Sending(mail, timeout)])
  }

  function ParkReceiver(c: Config, s: State, t: Tid, timeout: int): State {
    s.(receivers := Park(s.receivers, t, c.order, c.priority), calls := s.calls[t := Receiving(timeout)])
  }

  function Store(s: State, t: Tid, mail: Mail): State {
    Leave(s, t).(mails := s.mails + [mail], accepted := s.accepted + [mail], receivers := WakeOne(s.receivers))
  }

  function Take(s: State, t: Tid): State
    requires s.mails != []
  {
    Leave(s, t).(mails := s.mails[1..], left := s.left + [Exit(s.mails[0], true)], senders := WakeOne(s.senders))
  }

  /** The test at the head of the send loop, and what follows it. */
  function TrySend(c: Config, s: State, t: Tid, mail: Mail, timeout: int): (State, Status) {
    if |s.mails| != c.size then (Store(s, t, mail), Done)
    else if timeout == 0 then (Leave(s, t), Full)
    else (ParkSender(c, s, t, mail, timeout), Blocked)
  }

  function TryRecv(c: Config, s: State, t: Tid, timeout: int): (State, Status) {
    if |s.mails| != 0 then (Take(s, t), Got(s.mails[0]))
    else if timeout == 0 then (Leave(s, t), TimedOut)
    else (ParkReceiver(c, s, t, timeout), Blocked)
  }

  function Dropped(mails: seq<Mail>): (r: seq<Exit>)
    ensures |r| == |mails| && forall i :: 0 <= i < |r| ==> r[i] == Exit(mails[i], false)
  {
    seq(|mails|, i requires 0 <= i < |mails| => Exit(mails[i], false))
  }

  predicate IsReceiving(s: State, t: Tid) {
    t in s.calls && s.calls[t].Receiving?
  }

  predicate IsSending(s: State, t: Tid) {
    t in s.calls && s.calls[t].Sending?
  }

  predicate Enabled(s: State, a: Action) {
    match a
    case Send(t, _, _) => t !in s.calls
    case Recv(t, _) => t !in s.calls
    case ResumeSend(t, _) => t in s.senders.woken && IsSending(s, t)
    case ResumeRecv(t, _) => t in s.receivers.woken && IsReceiving(s, t)
    case Expire(t) => (t in s.senders.list || t in s.receivers.list) && t in s.calls && s.calls[t].timeout > 0
    case Reset => true
  }

  function Step(c: Config, s: State, a: Action): (State, Status)
    requires Enabled(s, a)
  {
    match a
    case Send(t, mail, timeout) => TrySend(c, s, t, mail, timeout)
    case Recv(t, timeout) => TryRecv(c, s, t, timeout)
    case ResumeSend(t, elapsed) =>
      TrySend(c, s.(senders := Rerun(s.senders, t)), t, s.calls[t].mail, Remaining(s.calls[t].timeout, elapsed))
    case ResumeRecv(t, elapsed) =>
      TryRecv(c, s.(receivers := Rerun(s.receivers, t)), t, Remaining(s.calls[t].timeout, elapsed))
    case Expire(t) =>
      (Leave(s, t).(senders := Cancel(s.senders, t), receivers := Cancel(s.receivers, t)), TimedOut)
    case Reset =>
      (s.(mails := [], left := s.left + Dropped(s.mails),
          receivers := s.receivers.(list := []), senders := s.senders.(list := []),
          calls := s.calls - Members(s.receivers.list) - Members(s.senders.list)), Done)
  }

  // ---------- the invariant ----------

  /** Every thread inside a call, `but` left aside, is where its call says, and no other thread is. */
  ghost predicate PlacedBut(s: State, but: set<Tid>) {
    && Fine(s.receivers) && Fine(s.senders)
    && (forall t :: s.receivers.Has(t) <==> IsReceiving(s, t) && t !in but)
    && (forall t :: s.senders.Has(t) <==> IsSending(s, t) && t !in but)
  }

  ghost predicate Placed(s: State) {
    PlacedBut(s, {})
  }

  /** While a receiver waits, enough woken receivers are on their way to take every stored mail; while
      a sender waits, enough woken senders are on their way to use every free slot. */
  ghost predicate NoneForgotten(c: Config, s: State) {
    && (s.receivers.list != [] ==> |s.receivers.woken| >= |s.mails|)
    && (s.senders.list != [] ==> |s.senders.woken| >= c.size - |s.mails|)
  }

  /** Mails leave in the order they were accepted, each exactly once. */
  ghost predicate InOrder(s: State) {
    && |s.accepted| == |s.left| + |s.mails|
    && (forall i :: 0 <= i < |s.left| ==> s.left[i].mail == s.accepted[i])
    && (forall i :: 0 <= i < |s.mails| ==> s.mails[i] == s.accepted[|s.left| + i])
  }

  ghost predicate Inv(c: Config, s: State) {
    |s.mails| <= c.size && Placed(s) && NoneForgotten(c, s) && InOrder(s)
  }

  // ---------- every step keeps the invariant ----------

  /** A thread that is not inside a call, or has just been taken out of the woken ones, is nowhere. */
  lemma Nowhere(s: State, t: Tid)
    requires Placed(s)
    ensures t !in s.calls ==> PlacedBut(s, {t})
    ensures t in s.senders.woken ==> PlacedBut(s.(senders := Rerun(s.senders, t)), {t})
    ensures t in s.receivers.woken ==> PlacedBut(s.(receivers := Rerun(s.receivers, t)), {t})
  {
    RerunFine(s.senders, t);
    RerunFine(s.receivers, t);
    var r, q := s.(senders := Rerun(s.senders, t)), s.(receivers := Rerun(s.receivers, t));
    assert forall x :: (IsReceiving(r, x) <==> IsReceiving(s, x)) && (IsSending(r, x) <==> IsSending(s, x));
    assert forall x :: (IsReceiving(q, x) <==> IsReceiving(s, x)) && (IsSending(q, x) <==> IsSending(s, x));
  }

  /** Only the call of thread t differs. */
  lemma OnlyCallOf(s: State, r: State, t: Tid)
    requires r.calls - {t} == s.calls - {t}
    ensures forall x :: x != t ==> (IsReceiving(r, x) <==> IsReceiving(s, x))
    ensures forall x :: x != t ==> (IsSending(r, x) <==> IsSending(s, x))
  {
    forall x | x != t
      ensures x in r.calls <==> x in s.calls
      ensures x in r.calls ==> r.calls[x] == s.calls[x]
    {
      assert x in r.calls <==> x in r.calls - {t};
      assert x in s.calls <==> x in s.calls - {t};
      if x in r.calls {
        assert (r.calls - {t})[x] == (s.calls - {t})[x];
      }
    }
  }

  lemma StorePlaced(s: State, t: Tid, mail: Mail)
    requires PlacedBut(s, {t})
    ensures Placed(Store(s, t, mail))
  {
    WakeOneFine(s.receivers);
    OnlyCallOf(s, Store(s, t, mail), t);
  }

  lemma SendPlaced(c: Config, s: State, t: Tid, mail: Mail, timeout: int)
    requires PlacedBut(s, {t})
    ensures Placed(TrySend(c, s, t, mail, timeout).0)
  {
    if |s.mails| != c.size {
      StorePlaced(s, t, mail);
    } else {
      ParkFine(s.senders, t, c.order, c.priority);
      OnlyCallOf(s, TrySend(c, s, t, mail, timeout).0, t);
    }
  }

  lemma SendBooks(c: Config, s: State, t: Tid, mail: Mail, timeout: int)
    requires |s.mails| <= c.size && Fine(s.receivers) && InOrder(s)
    requires s.receivers.list != [] ==> |s.receivers.woken| >= |s.mails|
    requires s.senders.list != [] ==> |s.senders.woken| + 1 >= c.size - |s.mails|
    ensures var r := TrySend(c, s, t, mail, timeout).0;
            |r.mails| <= c.size && NoneForgotten(c, r) && InOrder(r)
  {
    WakeOneFine(s.receivers);
  }

  lemma TakePlaced(s: State, t: Tid)
    requires PlacedBut(s, {t}) && s.mails != []
    ensures Placed(Take(s, t))
  {
    WakeOneFine(s.senders);
    OnlyCallOf(s, Take(s, t), t);
  }

  lemma RecvPlaced(c: Config, s: State, t: Tid, timeout: int)
    requires PlacedBut(s, {t})
    ensures Placed(TryRecv(c, s, t, timeout).0)
  {
    if |s.mails| != 0 {
      TakePlaced(s, t);
    } else {
      ParkFine(s.receivers, t, c.order, c.priority);
      OnlyCallOf(s, TryRecv(c, s, t, timeout).0, t);
    }
  }

  lemma RecvBooks(c: Config, s: State, t: Tid, timeout: int)
    requires |s.mails| <= c.size && Fine(s.senders) && InOrder(s)
    requires s.receivers.list != [] ==> |s.receivers.woken| + 1 >= |s.mails|
    requires s.senders.list != [] ==> |s.senders.woken| >= c.size - |s.mails|
    ensures var r := TryRecv(c, s, t, timeout).0;
            |r.mails| <= c.size && NoneForgotten(c, r) && InOrder(r)
  {
    WakeOneFine(s.senders);
  }

  lemma CallKeeps(c: Config, s: State, a: Action)
    requires Inv(c, s) && Enabled(s, a) && (a.Send? || a.Recv?)
    ensures Inv(c, Step(c, s, a).0)
  {
    Nowhere(s, a.t);
    match a
    case Send(t, mail, timeout) =>
      SendPlaced(c, s, t, mail, timeout);
      SendBooks(c, s, t, mail, timeout);
    case Recv(t, timeout) =>
      RecvPlaced(c, s, t, timeout);
      RecvBooks(c, s, t, timeout);
  }

  lemma RerunSendKeeps(c: Config, s: State, t: Tid, rest: int)
    requires Inv(c, s) && t in s.senders.woken && IsSending(s, t)
    ensures Inv(c, TrySend(c, s.(senders := Rerun(s.senders, t)), t, s.calls[t].mail, rest).0)
  {
    var r := s.(senders := Rerun(s.senders, t));
    Nowhere(s, t);
    SendPlaced(c, r, t, s.calls[t].mail, rest);
    SendBooks(c, r, t, s.calls[t].mail, rest);
  }

  lemma RerunRecvKeeps(c: Config, s: State, t: Tid, rest: int)
    requires Inv(c, s) && t in s.receivers.woken && IsReceiving(s, t)
    ensures Inv(c, TryRecv(c, s.(receivers := Rerun(s.receivers, t)), t, rest).0)
  {
    var r := s.(receivers := Rerun(s.receivers, t));
    Nowhere(s, t);
    RecvPlaced(c, r, t, rest);
    RecvBooks(c, r, t, rest);
  }

  lemma ExpireKeeps(c: Config, s: State, t: Tid)
    requires Inv(c, s) && Enabled(s, Expire(t))
    ensures Inv(c, Step(c, s, Expire(t)).0)
  {
    CancelFine(s.senders, t);
    CancelFine(s.receivers, t);
    var r := Step(c, s, Expire(t)).0;
    assert s.senders.Has(t) || s.receivers.Has(t);
    assert !(IsReceiving(s, t) && IsSending(s, t));
    assert forall x :: x != t ==> (IsReceiving(r, x) <==> IsReceiving(s, x)) && (IsSending(r, x) <==> IsSending(s, x));
  }

  lemma ResetPlaced(s: State, r: State)
    requires Placed(s)
    requires r.receivers == s.receivers.(list := []) && r.senders == s.senders.(list := [])
    requires r.calls == s.calls - Members(s.receivers.list) - Members(s.senders.list)
    ensures Placed(r)
  {
    forall x
      ensures r.receivers.Has(x) <==> IsReceiving(r, x)
      ensures r.senders.Has(x) <==> IsSending(r, x)
    {
      assert !(IsReceiving(s, x) && IsSending(s, x));
      assert s.receivers.Has(x) <==> IsReceiving(s, x);
      assert s.senders.Has(x) <==> IsSending(s, x);
    }
  }

  lemma ResetInOrder(s: State)
    requires InOrder(s)
    ensures InOrder(s.(mails := [], left := s.left + Dropped(s.mails)))
  {
    var left := s.left + Dropped(s.mails);
    forall i | 0 <= i < |left|
      ensures left[i].mail == s.accepted[i]
    {
      if i >= |s.left| {
        assert s.mails[i - |s.left|] == s.accepted[i];
      }
    }
  }

  lemma ResetKeeps(c: Config, s: State)
    requires Inv(c, s)
    ensures Inv(c, Step(c, s, Reset).0)
  {
    ResetPlaced(s, Step(c, s, Reset).0);
    ResetInOrder(s);
  }

  lemma StepKeeps(c: Config, s: State, a: Action)
    requires Inv(c, s) && Enabled(s, a)
    ensures Inv(c, Step(c, s, a).0)
  {
    match a
    case Send(_, _, _) => CallKeeps(c, s, a);
    case Recv(_, _) => CallKeeps(c, s, a);
    case ResumeSend(t, elapsed) => RerunSendKeeps(c, s, t, Remaining(s.calls[t].timeout, elapsed));
    case ResumeRecv(t, elapsed) => RerunRecvKeeps(c, s, t, Remaining(s.calls[t].timeout, elapsed));
    case Expire(t) => ExpireKeeps(c, s, t);
    case Reset => ResetKeeps(c, s);
  }

  // ---------- what each section answers ----------

  /** What is left of a timeout, for every number of ticks that 32 bits can count: the difference, and 0 once it has
      run out; but after more than 2^31 ticks beyond the timeout the difference wraps, and the thread waits on. */
  lemma RemainingIs(timeout: int, elapsed: nat)
    requires timeout < 0x8000_0000 && elapsed < 0x1_0000_0000
    ensures timeout <= 0 ==> Remaining(timeout, elapsed) == timeout
    ensures timeout > 0 ==>
              (Remaining(timeout, elapsed) == (if elapsed < timeout then timeout - elapsed else 0)
               <==> elapsed <= timeout + 0x8000_0000)
  {
    if timeout > 0 {
      if elapsed <= timeout {
        assert (timeout - elapsed) % 0x1_0000_0000 == timeout - elapsed;
      } else {
        assert (timeout - elapsed) % 0x1_0000_0000 == timeout - elapsed + 0x1_0000_0000;
      }
    }
  }

  /** A call that waits with this timeout, and is woken after so many ticks, may wait on: it waits for ever, or its time
      has not run out. */
  predicate MayWaitOn(timeout: int, elapsed: nat) {
    timeout < 0 || elapsed < timeout
  }

  function WaitsOnFor(timeout: int, elapsed: nat): int {
    if timeout < 0 then timeout else timeout - elapsed
  }

  /** Timeouts are of type rt_int32_t. */
  predicate InTime(timeout: int, elapsed: nat) {
    timeout < 0x8000_0000 && elapsed < 0x8000_0000
  }

  lemma WaitsOn(timeout: int, elapsed: nat)
    requires InTime(timeout, elapsed)
    ensures Remaining(timeout, elapsed) != 0 <==> MayWaitOn(timeout, elapsed)
    ensures MayWaitOn(timeout, elapsed) ==> Remaining(timeout, elapsed) == WaitsOnFor(timeout, elapsed)
  {
    RemainingIs(timeout, elapsed);
  }

  /** t waits in r and did not in w; the others stay where they are. */
  ghost predicate Joins(w: Waiters, r: Waiters, t: Tid) {
    t in r.list && Without(r.list, t) == w.list && r.woken == w.woken
  }

  lemma ParkJoins(w: Waiters, t: Tid, order: Order, priority: map<Tid, nat>)
    requires t !in w.list
    ensures Joins(w, Park(w, t, order, priority), t)
  {
    var r := Park(w, t, order, priority);
    WithoutSuspended(w.list, t, order, priority);
    assert r.list[Place(w.list, t, order, priority)] == t;
  }

  /** A send: the mail goes behind the others if there is room; with no room the call fails at once if it has no
      time, and waits otherwise. */
  lemma SendAnswers(c: Config, s: State, t: Tid, mail: Mail, timeout: int)
    requires Inv(c, s) && t !in s.calls
    ensures var (r, status) := Step(c, s, Send(t, mail, timeout));
            if |s.mails| < c.size then
              && status == Done && r.mails == s.mails + [mail] && r.accepted == s.accepted + [mail]
              && r.calls == s.calls && r.senders == s.senders && r.left == s.left
            else if timeout == 0 then status == Full && r == s
            else
              && status == Blocked && Joins(s.senders, r.senders, t)
              && r == s.(senders := r.senders, calls := s.calls[t := Sending(mail, timeout)])
  {
    assert s.calls - {t} == s.calls;
    assert !s.senders.Has(t);
    ParkJoins(s.senders, t, c.order, c.priority);
  }

  /** A receive: the oldest mail if there is one; with none the call fails at once if it has no time, and waits
      otherwise. */
  lemma RecvAnswers(c: Config, s: State, t: Tid, timeout: int)
    requires Inv(c, s) && t !in s.calls
    ensures var (r, status) := Step(c, s, Recv(t, timeout));
            if s.mails != [] then
              && status == Got(s.mails[0]) && s.mails == [s.mails[0]] + r.mails
              && r.left == s.left + [Exit(s.mails[0], true)] && r.accepted == s.accepted
              && r.calls == s.calls && r.receivers == s.receivers
            else if timeout == 0 then status == TimedOut && r == s
            else
              && status == Blocked && Joins(s.receivers, r.receivers, t)
              && r == s.(receivers := r.receivers, calls := s.calls[t := Receiving(timeout)])
  {
    assert s.calls - {t} == s.calls;
    assert !s.receivers.Has(t);
    ParkJoins(s.receivers, t, c.order, c.priority);
  }

  /** A woken sender that finds the mailbox full again waits on if and only if it waits for ever or its time has not
      run out, with the rest of its time, and fails otherwise; one that finds room has sent its mail. */
  lemma WokenSender(c: Config, s: State, t: Tid, elapsed: nat)
    requires Inv(c, s) && Enabled(s, ResumeSend(t, elapsed)) && InTime(s.calls[t].timeout, elapsed)
    ensures var (r, status) := Step(c, s, ResumeSend(t, elapsed)); var call := s.calls[t];
            if |s.mails| < c.size then
              status == Done && r.mails == s.mails + [call.mail] && r.calls == s.calls - {t} && !r.senders.Has(t)
            else if MayWaitOn(call.timeout, elapsed) then
              && status == Blocked && Joins(Rerun(s.senders, t), r.senders, t)
              && r == s.(senders := r.senders,
                         calls := s.calls[t := Sending(call.mail, WaitsOnFor(call.timeout, elapsed))])
            else status == Full && r == s.(senders := Rerun(s.senders, t), calls := s.calls - {t}) && !r.senders.Has(t)
  {
    WaitsOn(s.calls[t].timeout, elapsed);
    assert s.senders.Has(t);
    ParkJoins(Rerun(s.senders, t), t, c.order, c.priority);
  }

  lemma WokenReceiver(c: Config, s: State, t: Tid, elapsed: nat)
    requires Inv(c, s) && Enabled(s, ResumeRecv(t, elapsed)) && InTime(s.calls[t].timeout, elapsed)
    ensures var (r, status) := Step(c, s, ResumeRecv(t, elapsed)); var call := s.calls[t];
            if s.mails != [] then
              status == Got(s.mails[0]) && r.mails == s.mails[1..] && r.calls == s.calls - {t} && !r.receivers.Has(t)
            else if MayWaitOn(call.timeout, elapsed) then
              && status == Blocked && Joins(Rerun(s.receivers, t), r.receivers, t)
              && r == s.(receivers := r.receivers,
                         calls := s.calls[t := Receiving(WaitsOnFor(call.timeout, elapsed))])
            else
              status == TimedOut && r == s.(receivers := Rerun(s.receivers, t), calls := s.calls - {t})
              && !r.receivers.Has(t)
  {
    WaitsOn(s.calls[t].timeout, elapsed);
    assert s.receivers.Has(t);
    ParkJoins(Rerun(s.receivers, t), t, c.order, c.priority);
  }

  /** A timeout ends the call of its thread and nothing else; a reset ends the calls of all that wait, drops the mails,
      and lets the woken ones go on. */
  lemma Ends(c: Config, s: State, t: Tid)
    requires Inv(c, s)
    ensures Enabled(s, Expire(t)) ==>
              var (r, status) := Step(c, s, Expire(t));
              && status == TimedOut && t !in r.calls && !r.senders.Has(t) && !r.receivers.Has(t)
              && r.senders.list == Without(s.senders.list, t) && r.receivers.list == Without(s.receivers.list, t)
              && r.senders.woken == s.senders.woken && r.receivers.woken == s.receivers.woken
              && r.mails == s.mails && r.calls == s.calls - {t}
    ensures var r := Step(c, s, Reset).0;
            && r.mails == [] && r.senders.list == [] && r.receivers.list == []
            && r.senders.woken == s.senders.woken && r.receivers.woken == s.receivers.woken
            && (t in r.calls <==> t in s.senders.woken || t in s.receivers.woken)
            && (t in r.calls ==> t in s.calls && r.calls[t] == s.calls[t])
  {
    if Enabled(s, Expire(t)) {
      assert s.senders.Has(t) || s.receivers.Has(t);
    }
    assert s.senders.Has(t) <==> IsSending(s, t);
    assert s.receivers.Has(t) <==> IsReceiving(s, t);
  }

  // ---------- whole runs ----------

  /** The state after a run, and whether every step of it was possible when it came. */
  ghost function Run(c: Config, run: seq<Action>): (State, bool) {
    if run == [] then (Empty, true)
    else
      var (s, ok) := Run(c, run[..|run| - 1]);
      if ok && Enabled(s, run[|run| - 1]) then (Step(c, s, run[|run| - 1]).0, true) else (s, false)
  }

  /** In every interleaving of any number of senders, receivers, timeouts and resets. */
  lemma {:induction false} RunKeeps(c: Config, run: seq<Action>)
    ensures Inv(c, Run(c, run).0)
  {
    if run != [] {
      var (s, ok) := Run(c, run[..|run| - 1]);
      RunKeeps(c, run[..|run| - 1]);
      if ok && Enabled(s, run[|run| - 1]) {
        StepKeeps(c, s, run[|run| - 1]);
      }
    }
  }

  /** No lost wakeup: a waiting receiver and a stored mail (or a waiting sender and a free slot) never
      stay together unless a woken thread is about to run; and when that thread runs it gets what the
      wait was for, whatever is left of its timeout. */
  lemma NoLostWakeup(c: Config, run: seq<Action>, elapsed: nat)
    ensures var s := Run(c, run).0;
            s.receivers.list != [] && s.mails != [] ==>
              exists t :: t in s.receivers.woken && Enabled(s, ResumeRecv(t, elapsed))
                          && Step(c, s, ResumeRecv(t, elapsed)).1 == Got(s.mails[0])
    ensures var s := Run(c, run).0;
            s.senders.list != [] && |s.mails| < c.size ==>
              exists t :: t in s.senders.woken && Enabled(s, ResumeSend(t, elapsed))
                          && Step(c, s, ResumeSend(t, elapsed)).1 == Done
  {
    RunKeeps(c, run);
    var s := Run(c, run).0;
    if s.receivers.list != [] && s.mails != [] {
      assert s.receivers.woken != {};
      var t :| t in s.receivers.woken;
      assert IsReceiving(s, t);
      assert Step(c, s, ResumeRecv(t, elapsed)).1 == Got(s.mails[0]);
    }
    if s.senders.list != [] && |s.mails| < c.size {
      assert s.senders.woken != {};
      var t :| t in s.senders.woken;
      assert IsSending(s, t);
      assert Step(c, s, ResumeSend(t, elapsed)).1 == Done;
    }
  }

  /** Once every woken thread has run, a mailbox with slots has waiters on one side at most. */
  lemma WaitersOnOneSide(c: Config, run: seq<Action>)
    requires c.size > 0
    ensures var s := Run(c, run).0;
            s.receivers.woken == {} && s.senders.woken == {} ==> s.receivers.list == [] || s.senders.list == []
  {
    RunKeeps(c, run);
  }

  /** First in, first out, and exactly once: what receivers got and resets dropped, followed by what is
      stored, is what senders were told had been accepted. */
  lemma FirstInFirstOut(c: Config, run: seq<Action>)
    ensures var s := Run(c, run).0;
            |s.accepted| == |s.left| + |s.mails| && |s.mails| <= c.size
            && (forall i :: 0 <= i < |s.left| ==> s.left[i].mail == s.accepted[i])
            && s.mails == s.accepted[|s.left|..]
  {
    RunKeeps(c, run);
  }
}
