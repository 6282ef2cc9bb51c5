/** When a timer goes off, counted from the call of `rt_timer_start`: in every continuation of every run. */
module TimerRuns {
  import opened WaitList
  import opened TimerModel

  /** Between two checks. */
  ghost predicate Resting(s: Timers) {
    TInv(s) && Quiet(s) && s.firing == []
  }

  /** Nobody starts, stops or changes u: no thread, and no timeout function. */
  ghost predicate LeavesAlone(h: Happening, u: TimerId) {
    match h
    case Tick(script) => Untouched(script, u)
    case Do(op) => op.u != u
  }

  ghost predicate Continues(known: set<TimerId>, rest: seq<Happening>) {
    forall i :: 0 <= i < |rest| ==> HappeningOk(known, rest[i])
  }

  ghost predicate AllLeaveAlone(rest: seq<Happening>, u: TimerId) {
    forall i :: 0 <= i < |rest| ==> LeavesAlone(rest[i], u)
  }

  ghost function Ticks(rest: seq<Happening>): nat {
    if rest == [] then 0 else Ticks(rest[..|rest| - 1]) + if rest[|rest| - 1].Tick? then 1 else 0
  }

  ghost function Onward(s: Timers, rest: seq<Happening>): (r: Timers)
    requires Resting(s) && Continues(s.init.Keys, rest)
    ensures Resting(r) && r.init.Keys == s.init.Keys
  {
    if rest == [] then s
    else
      var last := rest[|rest| - 1];
      assert HappeningOk(s.init.Keys, last);
      TStep(Onward(s, rest[..|rest| - 1]), last)
  }

  lemma {:induction false} OnwardIsRun(
      init: map<TimerId, nat>, periodic: set<TimerId>, run: seq<Happening>, rest: seq<Happening>)
    requires DelaysOk(init) && Continues(init.Keys, run) && Continues(init.Keys, rest)
    ensures Continues(init.Keys, run + rest)
    ensures TRun(init, periodic, run + rest) == Onward(TRun(init, periodic, run), rest)
  {
    if rest == [] {
      assert run + rest == run;
    } else {
      var shorter := rest[..|rest| - 1];
      OnwardIsRun(init, periodic, run, shorter);
      assert (run + rest)[..|run + rest| - 1] == run + shorter;
    }
  }

  // ---------- one tick ----------

  lemma FireKeepsSettings(s: Timers, ops: seq<Op>, u: TimerId)
    requires TInv(s) && FirstDue(s) && OpsOk(s.init.Keys, ops) && u in s.init
    requires forall j :: 0 <= j < |ops| ==> ops[j].u != u
    ensures var r := Fire(s, ops); u in r.init && r.init[u] == s.init[u] && (u in r.periodic <==> u in s.periodic)
  {
    PopKeeps(s);
    PerformKeeps(Pop(s), ops);
    PerformLeaves(Pop(s), ops, u);
  }

  /** A check leaves the time and the kind of a timer that nobody touches as they were. */
  lemma {:induction false} CheckKeepsSettings(s: Timers, script: nat -> seq<Op>, i: nat, u: TimerId)
    requires TInv(s) && ScriptOk(s.init.Keys, script) && Untouched(script, u) && u in s.init
    ensures var r := Check(s, script, i);
            u in r.init && r.init[u] == s.init[u] && (u in r.periodic <==> u in s.periodic)
    decreases Due(s)
  {
    if FirstDue(s) {
      FireKeeps(s, script(i));
      FireLeavesFewer(s, script(i));
      FireKeepsSettings(s, script(i), u);
      CheckKeepsSettings(Fire(s, script(i)), script, i + 1, u);
    }
  }

  /** d, 2d, 3d and so on. */
  predicate IsMultiple(x: nat, d: nat)
    requires d > 0
  {
    x == d || (x > d && IsMultiple(x - d, d))
  }

  lemma {:induction false} MultipleIs(x: nat, d: nat)
    requires d > 0
    ensures IsMultiple(x, d) <==> x > 0 && x % d == 0
    decreases x
  {
    if x > d {
      MultipleIs(x - d, d);
      assert x % d == (x - d) % d by {
        LessOnePeriod(x, d);
      }
    }
  }

  lemma LessOnePeriod(x: nat, d: nat)
    requires x >= d > 0
    ensures x % d == (x - d) % d
  {
    var q, y := (x - d) / d, (x - d) % d;
    assert x - d == q * d + y;
    assert x == (q + 1) * d + y;
    Quotient(x, d, q + 1, y);
  }

  lemma Quotient(m: nat, d: nat, q: nat, x: nat)
    requires x < d && m == q * d + x
    ensures m / d == q && m % d == x
  {
    var k, y := m / d, m % d;
    assert m == k * d + y;
    assert (k - q) * d == x - y;
    AtLeastOne(k - q, d);
  }

  lemma AtLeastOne(a: int, d: nat)
    ensures a >= 1 ==> a * d >= d
    ensures a <= -1 ==> a * d <= 0 - d
  {
  }

  /** On which ticks a timer goes off that is set to d ticks, counted from its start. */
  predicate GoesOff(x: nat, d: nat, periodic: bool)
    requires d > 0
  {
    if periodic then IsMultiple(x, d) else x == d
  }

  /** The first multiple of d after m. */
  function NextTick(m: nat, d: nat): nat
    requires d > 0
    decreases m
  {
    if m < d then d else d + NextTick(m - d, d)
  }

  lemma {:induction false} NextTickIs(m: nat, d: nat)
    requires d > 0
    ensures m < NextTick(m, d) && (m + 1 == NextTick(m, d) <==> IsMultiple(m + 1, d))
    ensures NextTick(m + 1, d) == if m + 1 == NextTick(m, d) then m + 1 + d else NextTick(m, d)
    decreases m
  {
    if m >= d {
      NextTickIs(m - d, d);
    }
  }

  /** What is pending after m ticks. */
  ghost predicate Pends(r: Timers, u: TimerId, n: nat, m: nat, d: nat, periodic: bool) {
    && d > 0 && u in r.init && r.init[u] == d && (u in r.periodic <==> periodic)
    && (u in r.queue <==> periodic || m < d)
    && (u in r.queue ==> u in r.due && r.due[u] == n + if periodic then NextTick(m, d) else d)
  }

  /** What the history says after m ticks. */
  ghost predicate WentOff(log: seq<Entry>, from: nat, u: TimerId, n: nat, m: nat, d: nat, periodic: bool)
    requires d > 0
  {
    && (forall x: nat :: 0 < x <= m ==> (FiresAt(log, from, u, n + x) <==> GoesOff(x, d, periodic)))
    && forall k :: from <= k < |log| && log[k].Fired? && log[k].u == u ==> n < log[k].at <= n + m
  }

  /** What a check leaves pending. */
  ghost predicate Leaves(s: Timers, r: Timers, u: TimerId) {
    && r.now == s.now && u in s.init && u in r.init && r.init[u] == s.init[u] && (u in r.periodic <==> u in s.periodic)
    && if u in s.queue && u in s.due && s.due[u] <= s.now then
         if u in s.periodic then u in r.queue && u in r.due && r.due[u] == s.now + s.init[u] else u !in r.queue
       else (u in r.queue <==> u in s.queue) && (u in s.queue && u in s.due ==> u in r.due && r.due[u] == s.due[u])
  }

  lemma CheckLeaves(s: Timers, script: nat -> seq<Op>, u: TimerId)
    requires TInv(s) && ScriptOk(s.init.Keys, script) && Untouched(script, u) && u in s.init
    ensures Leaves(s, Check(s, script, 0), u)
  {
    CheckKeepsSettings(s, script, 0, u);
    if u in Due(s) {
      DueTimerFires(s, script, 0, u);
    } else {
      PassedOver(s, script, 0, u);
    }
  }

  lemma LeftPending(s: Timers, r: Timers, u: TimerId, n: nat, m: nat, d: nat, periodic: bool)
    requires Leaves(s, r, u) && s.now == n + m + 1 && Pends(s, u, n, m, d, periodic)
    ensures Pends(r, u, n, m + 1, d, periodic)
  {
    NextTickIs(m, d);
  }

  predicate IsDue(s: Timers, u: TimerId) {
    u in s.queue && u in s.due && s.due[u] <= s.now
  }

  /** All firings written since are of tick `at`. */
  ghost predicate AllAt(log: seq<Entry>, was: seq<Entry>, at: nat) {
    Extends(log, was) && forall k :: |was| <= k < |log| && log[k].Fired? ==> log[k].at == at
  }

  /** What is written at tick `at`, and whether it says that u fires. */
  ghost predicate Written(log: seq<Entry>, was: seq<Entry>, u: TimerId, at: nat, fires: bool) {
    match fires
    case true => AllAt(log, was, at) && FiresAt(log, |was|, u, at)
    case false => AllAt(log, was, at) && !FiresAt(log, |was|, u, at)
  }

  /** In a check the timer fires if it is due then, and not otherwise. */
  lemma CheckFirings(s: Timers, script: nat -> seq<Op>, u: TimerId)
    requires TInv(s) && ScriptOk(s.init.Keys, script) && Untouched(script, u)
    ensures Written(Check(s, script, 0).log, s.log, u, s.now, IsDue(s, u))
  {
    CheckExtends(s, script, 0);
    FiresInOrder(s, script, 0);
    var log := Check(s, script, 0).log;
    FiredWasDue(s, log, u);
    if u in Due(s) {
      DueTimerFires(s, script, 0, u);
    }
  }

  lemma FiredWasDue(s: Timers, log: seq<Entry>, u: TimerId)
    requires FiringsOf(s, log, |s.log|)
    ensures FiresAt(log, |s.log|, u, s.now) ==> u in Due(s)
    ensures forall k :: |s.log| <= k < |log| && log[k].Fired? ==> log[k].at == s.now
  {
    if FiresAt(log, |s.log|, u, s.now) {
      var k :| |s.log| <= k < |log| && log[k].Fired? && log[k].u == u && log[k].at == s.now;
      assert FiringOf(s, log[k]);
    }
  }

  /** Nothing is written about u at a tick of the past. */
  lemma FiresAtExtended(log: seq<Entry>, was: seq<Entry>, from: nat, u: TimerId, at: nat)
    requires Extends(log, was) && from <= |was|
    requires forall k :: |was| <= k < |log| && log[k].Fired? && log[k].u == u ==> log[k].at != at
    ensures FiresAt(log, from, u, at) <==> FiresAt(was, from, u, at)
  {
    if FiresAt(log, from, u, at) {
      var k :| from <= k < |log| && log[k].Fired? && log[k].u == u && log[k].at == at;
      ExtendsAt(log, was, k);
    }
    if FiresAt(was, from, u, at) {
      var k :| from <= k < |was| && was[k].Fired? && was[k].u == u && was[k].at == at;
      ExtendsAt(log, was, k);
    }
  }

  lemma FirstlyWritten(log: seq<Entry>, was: seq<Entry>, from: nat, u: TimerId, at: nat)
    requires Extends(log, was) && from <= |was|
    requires forall k :: from <= k < |was| && was[k].Fired? && was[k].u == u ==> was[k].at != at
    ensures FiresAt(log, from, u, at) <==> FiresAt(log, |was|, u, at)
  {
    forall k | from <= k < |was|
      ensures log[k] == was[k]
    {
      ExtendsAt(log, was, k);
    }
  }

  /** One more tick of history. */
  lemma WentOffOn(log: seq<Entry>, was: seq<Entry>, from: nat, u: TimerId, n: nat, m: nat, d: nat, periodic: bool)
    requires d > 0 && Written(log, was, u, n + m + 1, GoesOff(m + 1, d, periodic))
    requires from <= |was| && WentOff(was, from, u, n, m, d, periodic)
    ensures WentOff(log, from, u, n, m + 1, d, periodic)
  {
    forall x: nat | 0 < x <= m + 1
      ensures FiresAt(log, from, u, n + x) <==> GoesOff(x, d, periodic)
    {
      if x <= m {
        FiresAtExtended(log, was, from, u, n + x);
      } else {
        FirstlyWritten(log, was, from, u, n + x);
      }
    }
    forall k | from <= k < |log| && log[k].Fired? && log[k].u == u
      ensures n < log[k].at <= n + m + 1
    {
      if k < |was| {
        ExtendsAt(log, was, k);
      }
    }
  }

  lemma DueWhenItGoesOff(s: Timers, u: TimerId, n: nat, m: nat, d: nat, periodic: bool)
    requires s.now == n + m + 1 && Pends(s, u, n, m, d, periodic)
    ensures IsDue(s, u) <==> GoesOff(m + 1, d, periodic)
  {
    NextTickIs(m, d);
  }

  // ---------- between two ticks ----------

  /** Nothing is written about a firing of u. */
  lemma WentOffStill(log: seq<Entry>, was: seq<Entry>, from: nat, u: TimerId, n: nat, m: nat, d: nat, periodic: bool)
    requires d > 0 && Extends(log, was) && from <= |was| && WentOff(was, from, u, n, m, d, periodic)
    requires forall k :: |was| <= k < |log| ==> !log[k].Fired?
    ensures WentOff(log, from, u, n, m, d, periodic)
  {
    forall x: nat | 0 < x <= m
      ensures FiresAt(log, from, u, n + x) <==> GoesOff(x, d, periodic)
    {
      FiresAtExtended(log, was, from, u, n + x);
    }
    forall k | from <= k < |log| && log[k].Fired? && log[k].u == u
      ensures n < log[k].at <= n + m
    {
      ExtendsAt(log, was, k);
    }
  }

  // ---------- from the start on ----------

  /** Timer u, when the history had `from` entries, was started at tick n, set to d ticks. */
  datatype Course = Course(u: TimerId, from: nat, n: nat, d: nat, periodic: bool)

  /** What is pending and what is written m ticks after that start. */
  ghost predicate OnCourse(r: Timers, m: nat, c: Course) {
    match c
    case Course(u, from, n, d, periodic) =>
      Pends(r, u, n, m, d, periodic) && from <= |r.log| && WentOff(r.log, from, u, n, m, d, periodic)
  }

  function Started(s: Timers, u: TimerId): Course
    requires u in s.init
  {
    Course(u, |s.log|, s.now, s.init[u], u in s.periodic)
  }

  lemma StartsOnCourse(s: Timers, u: TimerId)
    requires Resting(s) && u in s.init
    ensures OnCourse(TStep(s, Do(Start(u))), 0, Started(s, u)) && TStep(s, Do(Start(u))).now == s.now
  {
    StartSets(s, u);
  }

  lemma DoOnCourse(s: Timers, op: Op, m: nat, c: Course)
    requires TInv(s) && OpOk(s.init.Keys, op) && op.u != c.u && OnCourse(s, m, c)
    ensures OnCourse(Apply(s, op), m, c) && Apply(s, op).now == s.now
  {
    ApplyKeeps(s, op);
    ApplySpares(s, op, c.u);
    WentOffStill(Apply(s, op).log, s.log, c.from, c.u, c.n, m, c.d, c.periodic);
  }

  /** One tick, in the list and in the history. */
  lemma OneTick(s: Timers, r: Timers, m: nat, c: Course)
    requires s.now == c.n + m + 1 && OnCourse(s, m, c)
    requires Leaves(s, r, c.u) && Written(r.log, s.log, c.u, s.now, IsDue(s, c.u))
    ensures OnCourse(r, m + 1, c)
  {
    LeftPending(s, r, c.u, c.n, m, c.d, c.periodic);
    DueWhenItGoesOff(s, c.u, c.n, m, c.d, c.periodic);
    WentOffOn(r.log, s.log, c.from, c.u, c.n, m, c.d, c.periodic);
  }

  lemma CheckOnCourse(s: Timers, script: nat -> seq<Op>, m: nat, c: Course)
    requires TInv(s) && ScriptOk(s.init.Keys, script) && Untouched(script, c.u)
    requires s.now == c.n + m + 1 && OnCourse(s, m, c)
    ensures OnCourse(Check(s, script, 0), m + 1, c)
  {
    CheckLeaves(s, script, c.u);
    CheckFirings(s, script, c.u);
    OneTick(s, Check(s, script, 0), m, c);
  }

  lemma LaterOnCourse(s: Timers, m: nat, c: Course)
    requires OnCourse(s, m, c)
    ensures OnCourse(s.(now := s.now + 1), m, c)
  {
  }

  lemma TickIsCheck(s: Timers, script: nat -> seq<Op>)
    requires TInv(s) && Quiet(s) && ScriptOk(s.init.Keys, script)
    ensures TInv(s.(now := s.now + 1)) && TickStep(s, script) == Check(s.(now := s.now + 1), script, 0)
  {
    TimePasses(s);
  }

  lemma TickOnCourse(s: Timers, script: nat -> seq<Op>, m: nat, c: Course)
    requires TInv(s) && Quiet(s) && ScriptOk(s.init.Keys, script) && Untouched(script, c.u)
    requires s.now == c.n + m && OnCourse(s, m, c)
    ensures OnCourse(TickStep(s, script), m + 1, c) && TickStep(s, script).now == s.now + 1
  {
    LaterOnCourse(s, m, c);
    TickIsCheck(s, script);
    CheckOnCourse(s.(now := s.now + 1), script, m, c);
  }

  lemma StepOnCourse(s: Timers, h: Happening, m: nat, c: Course)
    requires Resting(s) && HappeningOk(s.init.Keys, h) && LeavesAlone(h, c.u) && s.now == c.n + m && OnCourse(s, m, c)
    ensures var r, more := TStep(s, h), if h.Tick? then m + 1 else m;
            r.now == c.n + more && OnCourse(r, more, c)
  {
    match h
    case Tick(script) =>
      assert TStep(s, h) == TickStep(s, script);
      TickOnCourse(s, script, m, c);
    case Do(op) =>
      assert TStep(s, h) == Apply(s, op);
      DoOnCourse(s, op, m, c);
  }

  /** Each happening of `rest` leads from `held`, after m ticks, to `held` again. */
  ghost predicate Carries(known: set<TimerId>, u: TimerId, held: (Timers, nat) -> bool) {
    forall q, h, m: nat ::
      Resting(q) && q.init.Keys == known && HappeningOk(known, h) && LeavesAlone(h, u) && held(q, m) ==>
        held(TStep(q, h), if h.Tick? then m + 1 else m)
  }

  lemma {:induction false} Carried(s: Timers, rest: seq<Happening>, u: TimerId, held: (Timers, nat) -> bool)
    requires Resting(s) && Continues(s.init.Keys, rest) && AllLeaveAlone(rest, u)
    requires Carries(s.init.Keys, u, held) && held(s, 0)
    ensures held(Onward(s, rest), Ticks(rest))
  {
    if rest != [] {
      var last, shorter := rest[|rest| - 1], rest[..|rest| - 1];
      Carried(s, shorter, u, held);
      assert HappeningOk(s.init.Keys, last) && LeavesAlone(last, u);
      assert held(TStep(Onward(s, shorter), last), if last.Tick? then Ticks(shorter) + 1 else Ticks(shorter));
    }
  }

  lemma StaysOnCourse(s: Timers, rest: seq<Happening>, c: Course)
    requires Resting(s) && Continues(s.init.Keys, rest) && AllLeaveAlone(rest, c.u) && s.now == c.n && OnCourse(s, 0, c)
    ensures var r := Onward(s, rest);
            r.now == c.n + Ticks(rest) && OnCourse(r, Ticks(rest), c)
  {
    var held := (q: Timers, m: nat) => q.now == c.n + m && OnCourse(q, m, c);
    forall q, h, m: nat | Resting(q) && q.init.Keys == s.init.Keys && HappeningOk(q.init.Keys, h)
                     && LeavesAlone(h, c.u) && held(q, m)
      ensures held(TStep(q, h), if h.Tick? then m + 1 else m)
    {
      StepOnCourse(q, h, m, c);
    }
    Carried(s, rest, c.u, held);
  }

  lemma StartInRun(init: map<TimerId, nat>, periodic: set<TimerId>, run: seq<Happening>, u: TimerId)
    requires DelaysOk(init) && Continues(init.Keys, run) && u in init
    ensures Continues(init.Keys, run + [Do(Start(u))])
    ensures TRun(init, periodic, run + [Do(Start(u))]) == TStep(TRun(init, periodic, run), Do(Start(u)))
  {
    assert (run + [Do(Start(u))])[..|run|] == run;
  }

  /** From any point of any run: a timer that is started at tick n, set to d ticks, and that nobody touches
      afterwards, fires at n + d and at no other tick if it is one-shot, and at n + d, n + 2d, n + 3d and so on and at
      no other tick if it is periodic. */
  lemma FiresAfterItsDelay(
      init: map<TimerId, nat>, periodic: set<TimerId>, run: seq<Happening>, rest: seq<Happening>, u: TimerId)
    requires DelaysOk(init) && Continues(init.Keys, run) && Continues(init.Keys, rest)
    requires u in init && AllLeaveAlone(rest, u)
    ensures Continues(init.Keys, run + [Do(Start(u))] + rest)
    ensures var s, r := TRun(init, periodic, run), TRun(init, periodic, run + [Do(Start(u))] + rest);
            r.now == s.now + Ticks(rest) && OnCourse(r, Ticks(rest), Started(s, u))
  {
    var s, begun := TRun(init, periodic, run), [Do(Start(u))];
    StartInRun(init, periodic, run, u);
    OnwardIsRun(init, periodic, run + begun, rest);
    StartsOnCourse(s, u);
    StaysOnCourse(TStep(s, Do(Start(u))), rest, Started(s, u));
  }
}
