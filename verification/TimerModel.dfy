/** The hard timers of `timer.c` in unbounded time: which timers are pending and when they are due. A run of
    `rt_timer_check` fires the due ones; their timeout functions may start, stop and change any timer. */
module TimerModel {
  import opened LinkedNodes
  import opened WaitList

  type TimerId = Tid

  /** RT_TICK_MAX / 2. */
  const HALF: nat := 0x7FFF_FFFF

  /** What a timeout function or a thread does to a timer. */
  datatype Op =
    | Start(u: TimerId)
    | Stop(u: TimerId)
    | SetTime(u: TimerId, ticks: nat)
    | SetOneshot(u: TimerId)
    | SetPeriodic(u: TimerId)

  /** The history: `due` is the tick a start asks for, `at` the tick of a firing. */
  datatype Entry =
    | Started(u: TimerId, due: nat)
    | Stopped(u: TimerId)
    | Fired(u: TimerId, due: nat, since: nat, at: nat)

  /** `active` is RT_TIMER_FLAG_ACTIVATED; `firing` is the temporary list of `rt_timer_check`. */
  datatype Timers = Timers(
    now: nat, queue: seq<TimerId>, due: map<TimerId, nat>, since: map<TimerId, nat>, starts: nat,
    init: map<TimerId, nat>, periodic: set<TimerId>, active: set<TimerId>,
    firing: seq<TimerId>, log: seq<Entry>)

  // ---------- operations ----------

  /** `_rt_timer_remove`, and the flag. */
  function Unqueue(s: Timers, u: TimerId): Timers {
    s.(queue := Without(s.queue, u), firing := Without(s.firing, u), active := s.active - {u})
  }

  function Enqueue(s: Timers, u: TimerId, deadline: nat): Timers {
    var due := s.due[u := deadline];
    s.(queue := Suspend(s.queue, u, Prio, due), due := due,
       since := s.since[u := s.starts], starts := s.starts + 1,
       active := s.active + {u}, log := s.log + [Started(u, deadline)])
  }

  function StartTimer(s: Timers, u: TimerId): Timers
    requires u in s.init
  {
    Enqueue(Unqueue(s, u), u, s.now + s.init[u])
  }

  function StopTimer(s: Timers, u: TimerId): Timers {
    if u !in s.active then s else Unqueue(s, u).(log := s.log + [Stopped(u)])
  }

  function Apply(s: Timers, op: Op): Timers
    requires op.u in s.init
  {
    match op
    case Start(u) => StartTimer(s, u)
    case Stop(u) => StopTimer(s, u)
    case SetTime(u, ticks) => s.(init := s.init[u := ticks])
    case SetOneshot(u) => s.(periodic := s.periodic - {u})
    case SetPeriodic(u) => s.(periodic := s.periodic + {u})
  }

  /** The timer exists, and delays are from 1 to below RT_TICK_MAX / 2. */
  predicate OpOk(known: set<TimerId>, op: Op) {
    op.u in known && (op.SetTime? ==> 1 <= op.ticks < HALF)
  }

  ghost predicate OpsOk(known: set<TimerId>, ops: seq<Op>) {
    forall i :: 0 <= i < |ops| ==> OpOk(known, ops[i])
  }

  ghost function Perform(s: Timers, ops: seq<Op>): (r: Timers)
    requires OpsOk(s.init.Keys, ops)
    ensures r.init.Keys == s.init.Keys
    decreases |ops|
  {
    if ops == [] then s else Perform(Apply(s, ops[0]), ops[1..])
  }

  function Pop(s: Timers): Timers
    requires s.queue != [] && s.queue[0] in s.due && s.queue[0] in s.since
  {
    var t := s.queue[0];
    s.(queue := s.queue[1..], firing := [t], active := if t in s.periodic then s.active else s.active - {t},
       log := s.log + [Fired(t, s.due[t], s.since[t], s.now)])
  }

  /** After the timeout function of t: nothing more if it has restarted or stopped t, and a new period if
      t is periodic. */
  function Rearm(s: Timers, t: TimerId): Timers
    requires t in s.init
  {
    if s.firing == [] then s
    else
      var r := s.(firing := []);
      if t in r.periodic && t in r.active then StartTimer(r, t) else r
  }

  ghost function Fire(s: Timers, ops: seq<Op>): Timers
    requires s.queue != [] && s.queue[0] in s.due && s.queue[0] in s.since && s.queue[0] in s.init
    requires OpsOk(s.init.Keys, ops)
  {
    Rearm(Perform(Pop(s), ops), s.queue[0])
  }

  // ---------- the invariant ----------

  /** Every pending timer is due now or later, by less than half the range of the tick counter. */
  ghost predicate Timed(s: Timers) {
    && (forall u :: u in s.init ==> 1 <= s.init[u] < HALF)
    && (forall u :: u in s.since ==> s.since[u] < s.starts)
    && (forall u :: u in s.queue ==>
          u in s.init && u in s.due && u in s.since && u in s.active && s.now <= s.due[u] < s.now + HALF)
    && (forall u :: u in s.firing ==> u in s.init && u !in s.queue)
  }

  /** Earliest first; timers due at the same tick in the order they were started. */
  ghost predicate InDueOrder(s: Timers) {
    NoDup(s.queue) && Line(s.due, s.since, s.queue)
  }

  datatype Next = Never | At(due: nat)

  /** When the history says that u will go off. */
  function Pending(log: seq<Entry>, u: TimerId): Next {
    if log == [] then Never
    else
      var e := log[|log| - 1];
      if e.u != u then Pending(log[..|log| - 1], u) else if e.Started? then At(e.due) else Never
  }

  /** A firing is at the very tick that the last start before it asked for. */
  ghost predicate OnTime(log: seq<Entry>, i: nat)
    requires i < |log|
  {
    log[i].Fired? ==> log[i].at == log[i].due && Pending(log[..i], log[i].u) == At(log[i].due)
  }

  ghost predicate Recorded(s: Timers) {
    && (forall u {:trigger Pending(s.log, u)} :: Pending(s.log, u) == if u in s.queue
       && u in s.due then At(s.due[u]) else Never)
    && forall i :: 0 <= i < |s.log| ==> OnTime(s.log, i)
  }

  ghost predicate TInv(s: Timers) {
    Timed(s) && InDueOrder(s) && Recorded(s)
  }

  /** Nothing is due any more. */
  ghost predicate Quiet(s: Timers) {
    forall u :: u in s.queue ==> u in s.due && s.now < s.due[u]
  }

  lemma PendingAfter(log: seq<Entry>, e: Entry)
    ensures forall u ::
              Pending(log + [e], u) == if e.u != u then Pending(log, u) else if e.Started? then At(e.due) else Never
  {
    assert (log + [e])[..|log|] == log;
  }

  lemma OnTimeAfter(log: seq<Entry>, e: Entry)
    requires forall i :: 0 <= i < |log| ==> OnTime(log, i)
    requires e.Fired? ==> e.at == e.due && Pending(log, e.u) == At(e.due)
    ensures forall i :: 0 <= i < |log| + 1 ==> OnTime(log + [e], i)
  {
    var r := log + [e];
    forall i | 0 <= i < |r|
      ensures OnTime(r, i)
    {
      if i < |log| {
        assert OnTime(log, i) && r[..i] == log[..i];
      } else {
        assert r[..i] == log;
      }
    }
  }

  // ---------- starting and stopping ----------

  lemma StartOrdered(s: Timers, u: TimerId)
    requires Timed(s) && InDueOrder(s) && u in s.init
    ensures InDueOrder(StartTimer(s, u))
    ensures forall x :: x in StartTimer(s, u).queue <==> x == u || x in s.queue
  {
    var r, q := StartTimer(s, u), Without(s.queue, u);
    WithoutKeeps(s.queue, u, map[]);
    LineWithout(s.due, s.since, s.queue, u);
    LineFrame(s.due, s.since, r.due, r.since, q);
    PlacedInLine(r.due, r.since, q, u, r.due);
    SuspendMembers(q, u, Prio, r.due);
    assert forall x :: x in r.queue <==> x in Members(r.queue);
  }

  lemma StartRecorded(s: Timers, u: TimerId)
    requires Recorded(s) && u in s.init
    requires forall x :: x in StartTimer(s, u).queue <==> x == u || x in s.queue
    ensures Recorded(StartTimer(s, u))
  {
    var e := Started(u, s.now + s.init[u]);
    PendingAfter(s.log, e);
    OnTimeAfter(s.log, e);
  }

  lemma StartKeeps(s: Timers, u: TimerId)
    requires TInv(s) && u in s.init
    ensures TInv(StartTimer(s, u))
    ensures forall x :: x in StartTimer(s, u).queue <==> x == u || x in s.queue
  {
    StartOrdered(s, u);
    StartRecorded(s, u);
  }

  lemma StopKeeps(s: Timers, u: TimerId)
    requires TInv(s)
    ensures TInv(StopTimer(s, u))
  {
    if u in s.active {
      WithoutKeeps(s.queue, u, map[]);
      LineWithout(s.due, s.since, s.queue, u);
      PendingAfter(s.log, Stopped(u));
      OnTimeAfter(s.log, Stopped(u));
    }
  }

  /** Nothing about the other timers differs, and they wait in the same order. */
  ghost predicate OthersStay(s: Timers, r: Timers, u: TimerId) {
    && r.now == s.now && r.periodic == s.periodic && r.init == s.init && Without(r.queue, u) == Without(s.queue, u)
    && (forall v :: v != u ==> (v in r.active <==> v in s.active) && (v in r.firing <==> v in s.firing))
    && (forall v :: v != u && v in s.due ==> v in r.due && r.due[v] == s.due[v])
    && (forall v :: v != u && v in s.since ==> v in r.since && r.since[v] == s.since[v])
  }

  /** A start, of a pending timer or of one that is not, of a periodic one or of a one-shot one: the timer is
      pending, to go off after as many ticks as it has been set to, and counts as the last one started. */
  lemma StartSets(s: Timers, u: TimerId)
    requires TInv(s) && u in s.init
    ensures var r := Apply(s, Start(u));
            && u in r.queue && u in r.due && r.due[u] == s.now + s.init[u] && u in r.active && u !in r.firing
            && r.log == s.log + [Started(u, s.now + s.init[u])] && OthersStay(s, r, u)
            && u in r.since && r.since[u] == s.starts && forall v :: v != u && v in s.since ==> s.since[v] < r.since[u]
  {
    StartKeeps(s, u);
    var q := Without(s.queue, u);
    WithoutKeeps(s.queue, u, map[]);
    WithoutSuspended(q, u, Prio, s.due[u := s.now + s.init[u]]);
    WithoutAbsent(q, u);
  }

  /** A stop: the timer is pending no more, whatever it was doing; the history records a stop only if the timer
      was active. */
  lemma StopSets(s: Timers, u: TimerId)
    requires Timed(s)
    ensures var r := StopTimer(s, u);
            && u !in r.queue && u !in r.active && OthersStay(s, r, u)
            && r.log == (if u in s.active then s.log + [Stopped(u)] else s.log)
  {
    if u in s.active {
      WithoutAbsent(Without(s.queue, u), u);
    } else {
      assert Timed(s);
    }
  }

  /** A time that is set counts from the next start, and a pending timer keeps its tick. */
  lemma ControlSets(s: Timers, u: TimerId, ticks: nat)
    requires TInv(s) && u in s.init && 1 <= ticks < HALF
    ensures var r := Apply(s, SetTime(u, ticks));
            && r.queue == s.queue && r.due == s.due && r.periodic == s.periodic && r.active == s.active
            && u in Apply(r, Start(u)).due && Apply(r, Start(u)).due[u] == s.now + ticks
            && forall v :: v in s.init && v != u ==> v in r.init && r.init[v] == s.init[v]
  {
    ApplyKeeps(s, SetTime(u, ticks));
    StartSets(Apply(s, SetTime(u, ticks)), u);
  }

  /** Making a timer periodic or one-shot leaves it pending as it was. */
  lemma KindSets(s: Timers, u: TimerId)
    requires u in s.init
    ensures Apply(s, SetPeriodic(u)).periodic == s.periodic + {u}
    ensures Apply(s, SetOneshot(u)).periodic == s.periodic - {u}
    ensures forall op :: op == SetPeriodic(u) || op == SetOneshot(u) ==>
                           var r := Apply(s, op); r.queue == s.queue && r.due == s.due && r.init == s.init
  {
  }

  /** What operations on timers do to a check in progress: time stands still, and no timer becomes due. */
  ghost predicate Settles(s: Timers, r: Timers) {
    && r.now == s.now && r.init.Keys == s.init.Keys
    && |s.log| <= |r.log| && r.log[..|s.log|] == s.log
    && (forall u :: u in r.queue && u in r.due && r.due[u] <= r.now ==>
          u in s.queue && u in s.due && r.due[u] == s.due[u]
          && u in s.since && u in r.since && r.since[u] == s.since[u])
    && (forall u :: u in r.firing ==> u in s.firing)
    && (forall i :: |s.log| <= i < |r.log| ==> !r.log[i].Fired?)
  }

  lemma SettlesTrans(s: Timers, q: Timers, r: Timers)
    requires Settles(s, q) && Settles(q, r)
    ensures Settles(s, r)
  {
    assert r.log[..|s.log|] == r.log[..|q.log|][..|s.log|];
    forall i | |s.log| <= i < |r.log|
      ensures !r.log[i].Fired?
    {
      if i < |q.log| {
        assert r.log[i] == r.log[..|q.log|][i];
      }
    }
  }

  lemma ApplyKeeps(s: Timers, op: Op)
    requires TInv(s) && OpOk(s.init.Keys, op)
    ensures TInv(Apply(s, op)) && Settles(s, Apply(s, op))
  {
    match op
    case Start(u) =>
      StartKeeps(s, u);
      StartSettles(s, u);
    case Stop(u) => StopKeeps(s, u);
    case _ =>
  }

  lemma StartSettles(s: Timers, u: TimerId)
    requires Timed(s) && u in s.init
    requires forall x :: x in StartTimer(s, u).queue <==> x == u || x in s.queue
    ensures Settles(s, StartTimer(s, u))
  {
    assert s.init[u] >= 1;
  }

  lemma {:induction false} PerformKeeps(s: Timers, ops: seq<Op>)
    requires TInv(s) && OpsOk(s.init.Keys, ops)
    ensures TInv(Perform(s, ops)) && Settles(s, Perform(s, ops))
    decreases |ops|
  {
    if ops != [] {
      assert OpOk(s.init.Keys, ops[0]);
      ApplyKeeps(s, ops[0]);
      PerformKeeps(Apply(s, ops[0]), ops[1..]);
      SettlesTrans(s, Apply(s, ops[0]), Perform(s, ops));
    }
  }

  // ---------- one firing ----------

  predicate FirstDue(s: Timers) {
    s.queue != [] && s.queue[0] in s.due && s.queue[0] in s.since && s.queue[0] in s.init && s.due[s.queue[0]] <= s.now
  }

  lemma PopKeeps(s: Timers)
    requires TInv(s) && FirstDue(s)
    ensures TInv(Pop(s)) && s.queue[0] !in Pop(s).queue
  {
    var t, r := s.queue[0], Pop(s);
    var e := Fired(t, s.due[t], s.since[t], s.now);
    assert t in s.queue;
    assert forall i :: 0 <= i < |r.queue| ==> r.queue[i] == s.queue[i + 1] && r.queue[i] != t;
    assert forall u :: u in s.queue <==> u == t || u in r.queue;
    PendingAfter(s.log, e);
    OnTimeAfter(s.log, e);
  }

  lemma RearmKeeps(s: Timers, t: TimerId)
    requires TInv(s) && t in s.init
    ensures TInv(Rearm(s, t)) && Settles(s, Rearm(s, t)) && Rearm(s, t).firing == []
  {
    if s.firing != [] {
      var r := s.(firing := []);
      if t in r.periodic && t in r.active {
        ApplyKeeps(r, Start(t));
      }
    }
  }

  lemma FireKeeps(s: Timers, ops: seq<Op>)
    requires TInv(s) && FirstDue(s) && OpsOk(s.init.Keys, ops)
    ensures TInv(Fire(s, ops)) && Settles(Pop(s), Fire(s, ops)) && Fire(s, ops).firing == []
  {
    var q := Perform(Pop(s), ops);
    PopKeeps(s);
    PerformKeeps(Pop(s), ops);
    RearmKeeps(q, s.queue[0]);
    SettlesTrans(Pop(s), q, Fire(s, ops));
  }

  // ---------- a whole check ----------

  /** The timers that are due. */
  ghost function Due(s: Timers): set<TimerId> {
    set u | u in s.queue && u in s.due && s.due[u] <= s.now
  }

  /** What the timeout functions called one after the other by a check do. */
  ghost predicate ScriptOk(known: set<TimerId>, script: nat -> seq<Op>) {
    forall i :: OpsOk(known, script(i))
  }

  lemma FireLeavesFewer(s: Timers, ops: seq<Op>)
    requires TInv(s) && FirstDue(s) && OpsOk(s.init.Keys, ops)
    ensures Due(Fire(s, ops)) <= Due(s) - {s.queue[0]}
    ensures s.queue[0] in Due(s)
  {
    FireKeeps(s, ops);
    PopKeeps(s);
    assert forall u :: u in Pop(s).queue ==> u in s.queue;
  }

  /** With the first timer not due, none is. */
  lemma NothingDue(s: Timers)
    requires TInv(s) && !FirstDue(s)
    ensures Quiet(s)
  {
    forall u | u in s.queue
      ensures u in s.due && s.now < s.due[u]
    {
      var i :| 0 <= i < |s.queue| && s.queue[i] == u;
      assert s.queue[0] in s.queue;
      assert i > 0 ==> InFront(s.due, s.since, s.queue[0], s.queue[i]);
    }
  }

  /** The loop of `rt_timer_check`. Every turn leaves fewer timers due. */
  ghost function Check(s: Timers, script: nat -> seq<Op>, i: nat): (r: Timers)
    requires TInv(s) && ScriptOk(s.init.Keys, script)
    ensures TInv(r) && Quiet(r) && r.now == s.now && r.init.Keys == s.init.Keys
    ensures s.firing == [] ==> r.firing == []
    decreases Due(s)
  {
    if !FirstDue(s) then
      NothingDue(s);
      s
    else
      FireKeeps(s, script(i));
      FireLeavesFewer(s, script(i));
      Check(Fire(s, script(i)), script, i + 1)
  }

  /** `e` is the firing of a timer that was due in s. */
  predicate FiringOf(s: Timers, e: Entry) {
    && e.Fired? && e.u in s.queue && e.u in s.due && e.u in s.since
    && e.due == s.due[e.u] <= s.now && e.since == s.since[e.u] && e.at == s.now
  }

  /** `d` goes off before `e`: it was due earlier, or at the same tick and was started earlier. */
  predicate FiresBefore(d: Entry, e: Entry)
    requires d.Fired? && e.Fired?
  {
    d.due < e.due || (d.due == e.due && d.since < e.since)
  }

  ghost predicate Extends(log: seq<Entry>, was: seq<Entry>) {
    |was| <= |log| && log[..|was|] == was
  }

  lemma ExtendsAt(log: seq<Entry>, was: seq<Entry>, k: nat)
    requires Extends(log, was) && k < |was|
    ensures log[k] == was[k]
  {
    assert log[..|was|][k] == was[k];
  }

  lemma ExtendsTrans(log: seq<Entry>, mid: seq<Entry>, was: seq<Entry>)
    requires Extends(log, mid) && Extends(mid, was)
    ensures Extends(log, was)
  {
    assert log[..|was|] == log[..|mid|][..|was|];
  }

  lemma LogGrows(s: Timers, ops: seq<Op>)
    requires TInv(s) && FirstDue(s) && OpsOk(s.init.Keys, ops)
    ensures var r := Fire(s, ops);
            && |s.log| < |r.log| && Extends(r.log, s.log)
            && FiringOf(s, r.log[|s.log|]) && r.log[|s.log|].u == s.queue[0]
            && forall k :: |s.log| < k < |r.log| ==> !r.log[k].Fired?
  {
    FireKeeps(s, ops);
    var p, r := Pop(s), Fire(s, ops);
    assert Extends(r.log, p.log) && Extends(p.log, s.log);
    ExtendsTrans(r.log, p.log, s.log);
    ExtendsAt(r.log, p.log, |s.log|);
  }

  lemma {:induction false} CheckExtends(s: Timers, script: nat -> seq<Op>, i: nat)
    requires TInv(s) && ScriptOk(s.init.Keys, script)
    ensures Extends(Check(s, script, i).log, s.log)
    decreases Due(s)
  {
    if FirstDue(s) {
      FireKeeps(s, script(i));
      FireLeavesFewer(s, script(i));
      LogGrows(s, script(i));
      CheckExtends(Fire(s, script(i)), script, i + 1);
      ExtendsTrans(Check(s, script, i).log, Fire(s, script(i)).log, s.log);
    }
  }

  /** What one check adds to the log. */
  ghost predicate FiringsOf(s: Timers, log: seq<Entry>, from: nat) {
    && (forall k :: from <= k < |log| && log[k].Fired? ==> FiringOf(s, log[k]))
    && (forall j, k :: from <= j < k < |log| && log[j].Fired? && log[k].Fired? ==> FiresBefore(log[j], log[k]))
  }

  lemma FirstThenOthers(s: Timers, ops: seq<Op>, log: seq<Entry>)
    requires TInv(s) && FirstDue(s) && OpsOk(s.init.Keys, ops)
    requires Extends(log, Fire(s, ops).log) && FiringsOf(Fire(s, ops), log, |Fire(s, ops).log|)
    ensures FiringsOf(s, log, |s.log|)
  {
    var q, n := Fire(s, ops), |s.log|;
    LogGrows(s, ops);
    ExtendsAt(log, q.log, n);
    forall k: nat | n < k < |q.log|
      ensures !log[k].Fired?
    {
      ExtendsAt(log, q.log, k);
    }
    forall k | n < k < |log| && log[k].Fired?
      ensures FiringOf(s, log[k]) && FiresBefore(log[n], log[k]) && k >= |q.log|
    {
      FiringAfterFirst(s, ops, log[k]);
    }
  }

  /** Within one check timers fire in due order, ties in the order they were started; and only timers that
      were due when it began: none that a timeout function starts goes off in the same check. */
  lemma {:induction false} FiresInOrder(s: Timers, script: nat -> seq<Op>, i: nat)
    requires TInv(s) && ScriptOk(s.init.Keys, script)
    ensures FiringsOf(s, Check(s, script, i).log, |s.log|)
    decreases Due(s)
  {
    if FirstDue(s) {
      var q := Fire(s, script(i));
      FireKeeps(s, script(i));
      FireLeavesFewer(s, script(i));
      CheckExtends(q, script, i + 1);
      FiresInOrder(q, script, i + 1);
      FirstThenOthers(s, script(i), Check(s, script, i).log);
    }
  }

  /** A timer that is still due after the first one has fired was behind it. */
  lemma FiringAfterFirst(s: Timers, ops: seq<Op>, e: Entry)
    requires TInv(s) && FirstDue(s) && OpsOk(s.init.Keys, ops) && FiringOf(Fire(s, ops), e)
    ensures FiringOf(s, e) && InFront(s.due, s.since, s.queue[0], e.u)
  {
    FireKeeps(s, ops);
    assert e.u in s.queue[1..];
    var k :| 1 <= k < |s.queue| && s.queue[k] == e.u;
    assert InFront(s.due, s.since, s.queue[0], s.queue[k]);
  }

  // ---------- nothing is missed ----------

  /** Nothing about u differs, except that it may have left the temporary list. */
  predicate Spares(s: Timers, r: Timers, u: TimerId) {
    && (u in r.queue <==> u in s.queue) && (u in s.due ==> u in r.due && r.due[u] == s.due[u])
    && (u in s.init ==> u in r.init && r.init[u] == s.init[u])
    && (u in r.periodic <==> u in s.periodic) && (u in r.active <==> u in s.active)
    && (u in s.firing ==> u in r.firing)
  }

  lemma ApplySpares(s: Timers, op: Op, u: TimerId)
    requires TInv(s) && OpOk(s.init.Keys, op) && op.u != u
    ensures Spares(s, Apply(s, op), u)
  {
    if op.Start? {
      StartKeeps(s, op.u);
    }
  }

  lemma {:induction false} PerformLeaves(s: Timers, ops: seq<Op>, u: TimerId)
    requires TInv(s) && OpsOk(s.init.Keys, ops) && forall j :: 0 <= j < |ops| ==> ops[j].u != u
    ensures Spares(s, Perform(s, ops), u)
    decreases |ops|
  {
    if ops != [] {
      assert OpOk(s.init.Keys, ops[0]);
      ApplyKeeps(s, ops[0]);
      ApplySpares(s, ops[0], u);
      PerformLeaves(Apply(s, ops[0]), ops[1..], u);
    }
  }

  lemma {:induction false} PerformSplits(s: Timers, front: seq<Op>, back: seq<Op>)
    requires OpsOk(s.init.Keys, front) && OpsOk(s.init.Keys, back)
    ensures OpsOk(s.init.Keys, front + back)
    ensures Perform(s, front + back) == Perform(Perform(s, front), back)
    decreases |front|
  {
    if front == [] {
      assert front + back == back;
    } else {
      assert (front + back)[1..] == front[1..] + back;
      assert OpOk(s.init.Keys, front[0]);
      PerformSplits(Apply(s, front[0]), front[1..], back);
    }
  }

  lemma StartedAndLeft(s: Timers, u: TimerId, back: seq<Op>)
    requires TInv(s) && u in s.init && OpsOk(s.init.Keys, back) && forall j :: 0 <= j < |back| ==> back[j].u != u
    ensures var r := Perform(StartTimer(s, u), back); u in r.queue && u in r.due && r.due[u] == s.now + s.init[u]
  {
    StartSets(s, u);
    StartKeeps(s, u);
    PerformLeaves(StartTimer(s, u), back, u);
  }

  /** A timeout function that starts a timer, and leaves it alone afterwards, makes it pending. */
  lemma StartedByTimeout(s: Timers, front: seq<Op>, u: TimerId, back: seq<Op>)
    requires TInv(s) && OpsOk(s.init.Keys, front) && OpsOk(s.init.Keys, back) && u in s.init
    requires forall j :: 0 <= j < |back| ==> back[j].u != u
    ensures OpsOk(s.init.Keys, front + [Start(u)]) && OpsOk(s.init.Keys, front + [Start(u)] + back)
    ensures var r := Perform(s, front + [Start(u)] + back);
            && u in r.queue && u in r.due && u in Perform(s, front).init
            && r.due[u] == s.now + Perform(s, front).init[u]
  {
    var start := [Start(u)];
    PerformSplits(s, front, start);
    PerformSplits(s, front + start, back);
    PerformKeeps(s, front);
    StartedAndLeft(Perform(s, front), u, back);
    assert start[1..] == [];
  }

  ghost predicate Untouched(script: nat -> seq<Op>, u: TimerId) {
    forall i, j :: 0 <= j < |script(i)| ==> script(i)[j].u != u
  }

  /** A timer is next in line, and no timeout function touches it: what its firing leaves. */
  lemma OwnFiring(s: Timers, ops: seq<Op>)
    requires TInv(s) && FirstDue(s) && OpsOk(s.init.Keys, ops) && forall j :: 0 <= j < |ops| ==> ops[j].u != s.queue[0]
    ensures var u, r := s.queue[0], Fire(s, ops);
            if u in s.periodic then u in r.queue && u in r.due && r.due[u] == s.now + s.init[u]
            else u !in r.queue && u !in r.active
  {
    var u, p := s.queue[0], Pop(s);
    PopKeeps(s);
    PerformKeeps(p, ops);
    PerformLeaves(p, ops, u);
    assert u in s.queue;
    var q := Perform(p, ops);
    if u in s.periodic {
      StartKeeps(q.(firing := []), u);
    }
  }

  lemma OtherFiring(s: Timers, ops: seq<Op>, u: TimerId)
    requires TInv(s) && FirstDue(s) && OpsOk(s.init.Keys, ops) && u in s.queue && u != s.queue[0]
    requires forall j :: 0 <= j < |ops| ==> ops[j].u != u
    ensures var r := Fire(s, ops);
            && u in r.queue && u in r.due && r.due[u] == s.due[u] && u in r.init && r.init[u] == s.init[u]
            && (u in r.periodic <==> u in s.periodic)
  {
    var p := Pop(s);
    PopKeeps(s);
    PerformKeeps(p, ops);
    PerformLeaves(p, ops, u);
    var q := Perform(p, ops);
    if q.firing != [] && s.queue[0] in q.periodic && s.queue[0] in q.active {
      StartKeeps(q.(firing := []), s.queue[0]);
    }
  }

  lemma {:induction false} PassedOver(s: Timers, script: nat -> seq<Op>, i: nat, u: TimerId)
    requires TInv(s) && ScriptOk(s.init.Keys, script) && Untouched(script, u)
    requires u !in s.queue || (u in s.due && s.now < s.due[u])
    ensures var r := Check(s, script, i);
            && (u in r.queue <==> u in s.queue) && (u in s.queue ==> u in r.due && r.due[u] == s.due[u])
    decreases Due(s)
  {
    if FirstDue(s) {
      var t, q := s.queue[0], Fire(s, script(i));
      FireKeeps(s, script(i));
      FireLeavesFewer(s, script(i));
      assert t in s.queue && t != u;
      if u in s.queue {
        OtherFiring(s, script(i), u);
      } else {
        PopKeeps(s);
        PerformKeeps(Pop(s), script(i));
        PerformLeaves(Pop(s), script(i), u);
        var p := Perform(Pop(s), script(i));
        if p.firing != [] && t in p.periodic && t in p.active {
          StartKeeps(p.(firing := []), t);
        }
      }
      PassedOver(q, script, i + 1, u);
    }
  }

  /** u fires at tick `at`, in the log from position `from` on. */
  ghost predicate FiresAt(log: seq<Entry>, from: nat, u: TimerId, at: nat) {
    exists k :: from <= k < |log| && log[k].Fired? && log[k].u == u && log[k].at == at
  }

  lemma FirstFires(s: Timers, ops: seq<Op>, log: seq<Entry>)
    requires TInv(s) && FirstDue(s) && OpsOk(s.init.Keys, ops) && Extends(log, Fire(s, ops).log)
    ensures FiresAt(log, |s.log|, s.queue[0], s.now)
  {
    LogGrows(s, ops);
    ExtendsAt(log, Fire(s, ops).log, |s.log|);
  }

  /** A timer that is due, and that no timeout function starts, stops or changes, fires in this check; and a
      periodic one is due again exactly one period later, while a one-shot one is pending no more. */
  lemma {:induction false} DueTimerFires(s: Timers, script: nat -> seq<Op>, i: nat, u: TimerId)
    requires TInv(s) && ScriptOk(s.init.Keys, script) && u in Due(s) && Untouched(script, u)
    ensures FiresAt(Check(s, script, i).log, |s.log|, u, s.now)
    ensures var r := Check(s, script, i);
            if u in s.periodic then u in r.queue && u in r.due && r.due[u] == s.now + s.init[u] else u !in r.queue
    decreases Due(s)
  {
    if !FirstDue(s) {
      NothingDue(s);
      assert false;
    }
    var q := Fire(s, script(i));
    FireKeeps(s, script(i));
    FireLeavesFewer(s, script(i));
    if s.queue[0] == u {
      CheckExtends(q, script, i + 1);
      FirstFires(s, script(i), Check(s, script, i).log);
      OwnFiring(s, script(i));
      PassedOver(q, script, i + 1, u);
    } else {
      OtherFiring(s, script(i), u);
      LogGrows(s, script(i));
      DueTimerFires(q, script, i + 1, u);
    }
  }

  // ---------- the ACTIVATED flag ----------

  ghost predicate FlagsAgree(s: Timers) {
    forall u {:trigger u in s.active} {:trigger u in s.queue} :: u in s.active <==> u in s.queue
  }

  /** t, whose timeout function is running, is in the temporary list, or pending, or neither; the flags of
      all other timers agree. */
  ghost predicate FlagsAgreeBut(s: Timers, t: TimerId) {
    && (forall u {:trigger u in s.active} {:trigger u in s.queue} :: u != t ==> (u in s.active <==> u in s.queue))
    && (t in s.firing ==> t !in s.queue) && (t !in s.firing ==> (t in s.active <==> t in s.queue))
    && (forall u :: u in s.firing ==> u == t)
  }

  /** Neither starts nor stops t. */
  ghost predicate LeavesRunning(ops: seq<Op>, t: TimerId) {
    forall j :: 0 <= j < |ops| && ops[j].u == t ==> !ops[j].Start? && !ops[j].Stop?
  }

  /** Whether t ends up periodic. */
  function EndsPeriodic(ops: seq<Op>, t: TimerId, before: bool): bool
    decreases |ops|
  {
    if ops == [] then before
    else
      EndsPeriodic(ops[1..], t,
                   if ops[0] == SetOneshot(t) then false else if ops[0] == SetPeriodic(t) then true else before)
  }

  lemma ApplyFlags(s: Timers, op: Op, t: TimerId)
    requires TInv(s) && OpOk(s.init.Keys, op) && FlagsAgreeBut(s, t)
    ensures var r := Apply(s, op);
            && FlagsAgreeBut(r, t)
            && (t in r.firing && t in r.active <==> t in s.firing && t in s.active && op != Start(t) && op != Stop(t))
            && (t in r.periodic <==> EndsPeriodic([op], t, t in s.periodic))
  {
    assert [op][1..] == [];
    if op.Start? {
      StartKeeps(s, op.u);
    }
  }

  lemma {:induction false} PerformFlags(s: Timers, ops: seq<Op>, t: TimerId)
    requires TInv(s) && OpsOk(s.init.Keys, ops) && FlagsAgreeBut(s, t)
    ensures var r := Perform(s, ops);
            && FlagsAgreeBut(r, t)
            && (t in r.firing && t in r.active <==> t in s.firing && t in s.active && LeavesRunning(ops, t))
            && (t in r.periodic <==> EndsPeriodic(ops, t, t in s.periodic))
    decreases |ops|
  {
    if ops != [] {
      assert OpOk(s.init.Keys, ops[0]);
      ApplyKeeps(s, ops[0]);
      ApplyFlags(s, ops[0], t);
      LeavesRunningSplits(ops, t);
      PerformFlags(Apply(s, ops[0]), ops[1..], t);
    }
  }

  lemma LeavesRunningSplits(ops: seq<Op>, t: TimerId)
    requires ops != []
    ensures LeavesRunning(ops, t) <==> ops[0] != Start(t) && ops[0] != Stop(t) && LeavesRunning(ops[1..], t)
    ensures forall before ::
              EndsPeriodic(ops, t, before) == EndsPeriodic(ops[1..], t, EndsPeriodic([ops[0]], t, before))
  {
    assert [ops[0]][1..] == [];
    assert forall j :: 0 < j < |ops| ==> ops[j] == ops[1..][j - 1];
  }

  lemma PopFlags(s: Timers)
    requires TInv(s) && FirstDue(s) && FlagsAgree(s)
    ensures var t := s.queue[0]; FlagsAgreeBut(Pop(s), t) && (t in Pop(s).active <==> t in s.periodic)
  {
    PopKeeps(s);
    assert s.queue[0] in s.queue && forall u :: u in s.queue <==> u == s.queue[0] || u in Pop(s).queue;
  }

  /** A timer is flagged ACTIVATED exactly while it is in the list, except in one case: the timeout function of a
      periodic timer makes that timer one-shot and neither starts nor stops it. Then, and only then, the flag
      stays on although the timer is in the list no more. */
  lemma FlagAfterFiring(s: Timers, ops: seq<Op>)
    requires TInv(s) && FirstDue(s) && OpsOk(s.init.Keys, ops) && FlagsAgree(s)
    ensures var t := s.queue[0];
            FlagsAgree(Fire(s, ops)) <==> !(t in s.periodic && LeavesRunning(ops, t) && !EndsPeriodic(ops, t, true))
  {
    var t := s.queue[0];
    PopKeeps(s);
    PopFlags(s);
    PerformKeeps(Pop(s), ops);
    PerformFlags(Pop(s), ops, t);
    RearmFlags(Perform(Pop(s), ops), t);
  }

  lemma RearmFlags(s: Timers, t: TimerId)
    requires TInv(s) && t in s.init && FlagsAgreeBut(s, t)
    ensures FlagsAgree(Rearm(s, t)) <==> !(t in s.firing && t in s.active && t !in s.periodic)
  {
    if s.firing != [] {
      assert s.firing[0] in s.firing;
      if t in s.periodic && t in s.active {
        StartKeeps(s.(firing := []), t);
      }
    }
  }

  /** Outside a check, no operation makes a flag disagree. */
  lemma FlagAfterCall(s: Timers, op: Op)
    requires TInv(s) && OpOk(s.init.Keys, op) && FlagsAgree(s) && s.firing == []
    ensures FlagsAgree(Apply(s, op))
  {
    if op.Start? {
      StartKeeps(s, op.u);
    }
  }

  // ---------- whole runs ----------

  /** A tick with the check that follows it, or an operation by a thread between two ticks. */
  datatype Happening = Tick(script: nat -> seq<Op>) | Do(op: Op)

  ghost predicate HappeningOk(known: set<TimerId>, h: Happening) {
    match h
    case Tick(script) => ScriptOk(known, script)
    case Do(op) => OpOk(known, op)
  }

  ghost predicate DelaysOk(init: map<TimerId, nat>) {
    forall u :: u in init ==> 1 <= init[u] < HALF
  }

  function NoneStarted(init: map<TimerId, nat>, periodic: set<TimerId>): Timers {
    Timers(0, [], map[], map[], 0, init, periodic, {}, [], [])
  }

  lemma TimePasses(s: Timers)
    requires TInv(s) && Quiet(s)
    ensures TInv(s.(now := s.now + 1))
  {
  }

  ghost function TickStep(s: Timers, script: nat -> seq<Op>): Timers
    requires TInv(s) && Quiet(s) && ScriptOk(s.init.Keys, script)
  {
    Check(s.(now := s.now + 1), script, 0)
  }

  ghost function TStep(s: Timers, h: Happening): (r: Timers)
    requires TInv(s) && Quiet(s) && s.firing == [] && HappeningOk(s.init.Keys, h)
    ensures TInv(r) && Quiet(r) && r.firing == [] && r.init.Keys == s.init.Keys
  {
    match h
    case Tick(script) => TickStep(s, script)
    case Do(op) =>
      ApplyKeeps(s, op);
      Apply(s, op)
  }

  ghost function TRun(init: map<TimerId, nat>, periodic: set<TimerId>, run: seq<Happening>): (r: Timers)
    requires DelaysOk(init) && forall i :: 0 <= i < |run| ==> HappeningOk(init.Keys, run[i])
    ensures TInv(r) && Quiet(r) && r.firing == [] && r.init.Keys == init.Keys
  {
    if run == [] then NoneStarted(init, periodic)
    else TStep(TRun(init, periodic, run[..|run| - 1]), run[|run| - 1])
  }

  /** In every run with a check on every tick, whatever threads and timeout functions do: each firing is at
      exactly the tick asked for by the start before it, and a timer is in the list exactly while its history
      says that it has been started and has neither fired nor been stopped since; its tick is then to come. */
  lemma FiresExactly(init: map<TimerId, nat>, periodic: set<TimerId>, run: seq<Happening>, u: TimerId)
    requires DelaysOk(init) && forall i :: 0 <= i < |run| ==> HappeningOk(init.Keys, run[i])
    ensures var s := TRun(init, periodic, run);
            && (forall i :: 0 <= i < |s.log| && s.log[i].Fired? ==>
                  s.log[i].at == s.log[i].due && Pending(s.log[..i], s.log[i].u) == At(s.log[i].due))
            && (u in s.queue <==> Pending(s.log, u) != Never)
            && (u in s.queue ==> u in s.due && Pending(s.log, u) == At(s.due[u]) && s.now < s.due[u])
  {
    var s := TRun(init, periodic, run);
    forall i | 0 <= i < |s.log| && s.log[i].Fired?
      ensures s.log[i].at == s.log[i].due && Pending(s.log[..i], s.log[i].u) == At(s.log[i].due)
    {
      assert OnTime(s.log, i);
    }
  }

  /** The tick of a pending timer: on every earlier tick it is passed over, and on that tick it fires. */
  lemma TickFiresDue(s: Timers, script: nat -> seq<Op>, u: TimerId)
    requires TInv(s) && Quiet(s) && ScriptOk(s.init.Keys, script) && u in s.queue && Untouched(script, u)
    ensures var r := TickStep(s, script);
            if s.due[u] == s.now + 1 then FiresAt(r.log, |s.log|, u, s.now + 1)
            else u in r.queue && u in r.due && r.due[u] == s.due[u]
  {
    var q := s.(now := s.now + 1);
    if s.due[u] == s.now + 1 {
      DueTimerFires(q, script, 0, u);
    } else {
      PassedOver(q, script, 0, u);
    }
  }
}
