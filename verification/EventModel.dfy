/** Event sets of `ipc.c` as a step system. An event mask is only ever used with `|`, `&`, `& ~` and in
    comparisons, so it is the set of the numbers of its bits. A send gives the waiters, in list order,
    what they wait for; a waiter with the CLEAR option takes its bits away from those behind it. */
module EventModel {
  import opened LinkedNodes
  import opened WaitList

  type Events = set<nat>

  /** RT_EVENT_FLAG_AND, RT_EVENT_FLAG_OR and RT_EVENT_FLAG_CLEAR. */
  datatype Flags = Flags(conj: bool, any: bool, clear: bool)

  datatype Want = Want(mask: Events, flags: Flags, time: int)

  datatype Delivery = Delivery(t: Tid, bits: Events, clear: bool)

  datatype Scanned = Scanned(rest: seq<Tid>, left: Events, given: seq<Delivery>)

  datatype EConfig = EConfig(order: Order, priority: map<Tid, nat>)

  /** `calls` are the requests of the threads inside a receive; `got` is what the woken ones will return. */
  datatype EState = EState(bits: Events, list: seq<Tid>, calls: map<Tid, Want>, got: map<Tid, Events>)

  datatype EStatus = EDone | EError | EGot(bits: Events) | ETimedOut | EBlocked

  datatype EAction =
    | ESend(bits: Events)
    | ERecv(t: Tid, w: Want)
    | ERerun(t: Tid)
    | EExpire(t: Tid)
    | EReset

  const NoEvents: EState := EState({}, [], map[], map[])

  /** AND has precedence over OR. */
  predicate Met(w: Want, bits: Events) {
    if w.flags.conj then w.mask <= bits else w.flags.any && w.mask * bits != {}
  }

  function Taken(w: Want, bits: Events): Events {
    if w.flags.conj then w.mask else w.mask * bits
  }

  function After(bits: Events, taken: Events, clear: bool): Events {
    if clear then bits - taken else bits
  }

  /** The loop of `rt_event_send` over the waiters of `q`. */
  function Scan(q: seq<Tid>, calls: map<Tid, Want>, bits: Events): Scanned
    requires forall t :: t in q ==> t in calls
  {
    if q == [] then Scanned([], bits, [])
    else
      var w := calls[q[0]];
      if Met(w, bits) then
        var d := Taken(w, bits);
        var r := Scan(q[1..], calls, After(bits, d, w.flags.clear));
        r.(given := [Delivery(q[0], d, w.flags.clear)] + r.given)
      else
        var r := Scan(q[1..], calls, bits);
        r.(rest := [q[0]] + r.rest)
  }

  /** `r` is what remains of the scan `whole` once it has passed the waiters of `front`. */
  ghost predicate Continues(whole: Scanned, front: seq<Tid>, r: Scanned, before: map<Tid, Events>,
                            got: map<Tid, Events>) {
    whole.left == r.left && whole.rest == front + r.rest && Handed(before, whole.given) == Handed(got, r.given)
  }

  /** One turn of the loop. */
  lemma ScanTurn(whole: Scanned, front: seq<Tid>, q: seq<Tid>, calls: map<Tid, Want>, bits: Events,
                 before: map<Tid, Events>, got: map<Tid, Events>)
    requires q != [] && (forall t :: t in q ==> t in calls)
    requires Continues(whole, front, Scan(q, calls, bits), before, got)
    ensures var w, t := calls[q[0]], q[0];
            if Met(w, bits) then
              Continues(whole, front, Scan(q[1..], calls, After(bits, Taken(w, bits), w.flags.clear)), before,
                        got[t := Taken(w, bits)])
            else Continues(whole, front + [t], Scan(q[1..], calls, bits), before, got)
  {
    var w, t := calls[q[0]], q[0];
    if Met(w, bits) {
      var r := Scan(q[1..], calls, After(bits, Taken(w, bits), w.flags.clear));
      assert ([Delivery(t, Taken(w, bits), w.flags.clear)] + r.given)[1..] == r.given;
    } else {
      var r := Scan(q[1..], calls, bits);
      assert front + ([t] + r.rest) == front + [t] + r.rest;
    }
  }

  /** What the CLEAR receivers among the deliveries have taken together. */
  function Cleared(given: seq<Delivery>): Events {
    if given == [] then {} else (if given[0].clear then given[0].bits else {}) + Cleared(given[1..])
  }

  function Receivers(given: seq<Delivery>): (r: seq<Tid>)
    ensures |r| == |given| && forall i :: 0 <= i < |r| ==> r[i] == given[i].t
  {
    seq(|given|, i requires 0 <= i < |given| => given[i].t)
  }

  function Handed(got: map<Tid, Events>, given: seq<Delivery>): map<Tid, Events>
    decreases |given|
  {
    if given == [] then got else Handed(got[given[0].t := given[0].bits], given[1..])
  }

  /** One of AND and OR has to be asked for. */
  predicate EEnabled(c: EConfig, s: EState, a: EAction) {
    match a
    case ESend(_) => true
    case ERecv(t, w) => t !in s.calls && t in c.priority && (w.flags.conj || w.flags.any)
    case ERerun(t) => t in s.got
    case EExpire(t) => t in s.list && t in s.calls && s.calls[t].time > 0
    case EReset => true
  }

  function SendStep(s: EState, bits: Events): EState
    requires forall t :: t in s.list ==> t in s.calls
  {
    var r := Scan(s.list, s.calls, s.bits + bits);
    s.(bits := r.left, list := r.rest, got := Handed(s.got, r.given))
  }

  function RecvStep(c: EConfig, s: EState, t: Tid, w: Want): (EState, EStatus) {
    if Met(w, s.bits) then (s.(bits := After(s.bits, w.mask, w.flags.clear)), EGot(s.bits * w.mask))
    else if w.time == 0 then (s, ETimedOut)
    else (s.(list := Suspend(s.list, t, c.order, c.priority), calls := s.calls[t := w]), EBlocked)
  }

  function EStep(c: EConfig, s: EState, a: EAction): (EState, EStatus)
    requires EEnabled(c, s, a) && forall t :: t in s.list ==> t in s.calls
  {
    match a
    case ESend(bits) => if bits == {} then (s, EError) else (SendStep(s, bits), EDone)
    case ERecv(t, w) => if w.mask == {} then (s, EError) else RecvStep(c, s, t, w)
    case ERerun(t) => (s.(calls := s.calls - {t}, got := s.got - {t}), EGot(s.got[t]))
    case EExpire(t) => (s.(list := Without(s.list, t), calls := s.calls - {t}), ETimedOut)
    case EReset => (s.(bits := {}, list := [], calls := s.calls - Members(s.list)), EDone)
  }

  // ---------- one send ----------

  ghost predicate Asks(calls: map<Tid, Want>, q: seq<Tid>) {
    forall t :: t in q ==> t in calls && calls[t].mask != {} && (calls[t].flags.conj || calls[t].flags.any)
  }

  /** What a delivery owes its receiver: all of its mask for AND, some of it for OR. */
  predicate Satisfies(w: Want, bits: Events) {
    bits != {} && bits <= w.mask && (w.flags.conj ==> bits == w.mask)
  }

  /** Nobody is left behind, and what is given is there to be given. */
  lemma {:induction false} ScanGives(q: seq<Tid>, calls: map<Tid, Want>, bits: Events)
    requires Asks(calls, q)
    ensures var r := Scan(q, calls, bits);
            && r.left <= bits
            && (forall t :: t in r.rest ==> t in q && !Met(calls[t], r.left))
            && (forall i :: 0 <= i < |r.given| ==>
                  r.given[i].t in q && r.given[i].bits <= bits
                  && Satisfies(calls[r.given[i].t], r.given[i].bits)
                  && r.given[i].clear == calls[r.given[i].t].flags.clear)
  {
    if q != [] {
      var w, rest := calls[q[0]], q[1..];
      assert forall t :: t in rest ==> t in q;
      if Met(w, bits) {
        var d := Taken(w, bits);
        var next := After(bits, d, w.flags.clear);
        ScanGives(rest, calls, next);
      } else {
        ScanGives(rest, calls, bits);
      }
    }
  }

  /** Every bit that was set is either still set or has gone to a CLEAR receiver, never both; and what one
      CLEAR receiver got, nobody after it gets. */
  lemma {:induction false} ScanSharesOut(q: seq<Tid>, calls: map<Tid, Want>, bits: Events)
    requires Asks(calls, q)
    ensures var r := Scan(q, calls, bits);
            && r.left + Cleared(r.given) == bits && r.left !! Cleared(r.given)
            && forall i, j :: 0 <= i < j < |r.given| && r.given[i].clear ==> r.given[i].bits !! r.given[j].bits
  {
    if q != [] {
      var w, rest := calls[q[0]], q[1..];
      assert forall t :: t in rest ==> t in q;
      if Met(w, bits) {
        var d := Taken(w, bits);
        var next := After(bits, d, w.flags.clear);
        ScanSharesOut(rest, calls, next);
        ScanGives(rest, calls, next);
        var r, all := Scan(rest, calls, next), Scan(q, calls, bits);
        assert all.given[1..] == r.given;
      } else {
        ScanSharesOut(rest, calls, bits);
      }
    }
  }

  /** Each waiter is either given something or still waits, and those that wait keep their order. */
  lemma {:induction false} ScanParts(q: seq<Tid>, calls: map<Tid, Want>, bits: Events)
    requires NoDup(q) && forall t :: t in q ==> t in calls
    ensures var r := Scan(q, calls, bits);
            && NoDup(r.rest) && NoDup(Receivers(r.given))
            && (forall t :: t in q <==> t in r.rest || t in Receivers(r.given))
            && (forall t :: t in r.rest ==> t !in Receivers(r.given))
  {
    if q != [] {
      var w, rest := calls[q[0]], q[1..];
      assert forall t :: t in q <==> t == q[0] || t in rest;
      assert forall i :: 0 < i < |q| ==> q[i] != q[0];
      assert q[0] !in rest;
      var met := Met(w, bits);
      var next := if met then After(bits, Taken(w, bits), w.flags.clear) else bits;
      ScanParts(rest, calls, next);
      var r, all := Scan(rest, calls, next), Scan(q, calls, bits);
      assert Receivers(all.given) == if met then [q[0]] + Receivers(r.given) else Receivers(r.given);
      assert all.rest == if met then r.rest else [q[0]] + r.rest;
    }
  }

  lemma {:induction false} ScanSorted(q: seq<Tid>, calls: map<Tid, Want>, bits: Events, priority: map<Tid, nat>)
    requires Sorted(q, priority) && Asks(calls, q)
    ensures Sorted(Scan(q, calls, bits).rest, priority)
  {
    if q != [] {
      var w, rest := calls[q[0]], q[1..];
      assert forall t :: t in rest ==> t in q;
      assert forall i :: 0 <= i < |rest| ==> rest[i] == q[i + 1];
      var next := if Met(w, bits) then After(bits, Taken(w, bits), w.flags.clear) else bits;
      ScanSorted(rest, calls, next, priority);
      ScanGives(rest, calls, next);
      var r := Scan(rest, calls, next).rest;
      forall i | 0 <= i < |r|
        ensures r[i] in priority && priority[q[0]] <= priority[r[i]]
      {
        assert r[i] in rest;
        var k :| 0 <= k < |rest| && rest[k] == r[i];
      }
    }
  }

  /** Waiters are served in list order: one is passed over exactly when what those in front of it have
      left does not meet its request. */
  lemma {:induction false} ServedInOrder(q: seq<Tid>, calls: map<Tid, Want>, bits: Events, i: nat)
    requires NoDup(q) && i < |q| && forall t :: t in q ==> t in calls
    ensures forall t :: t in q[..i] ==> t in calls
    ensures q[i] in calls
    ensures q[i] in Receivers(Scan(q, calls, bits).given) <==> Met(calls[q[i]], Scan(q[..i], calls, bits).left)
  {
    var w, rest := calls[q[0]], q[1..];
    assert forall t :: t in q <==> t == q[0] || t in rest;
    assert forall j :: 0 <= j < |rest| ==> rest[j] == q[j + 1] != q[0];
    assert forall t :: t in q[..i] ==> t in q;
    assert q[0] !in rest && NoDup(rest);
    var met := Met(w, bits);
    var next := if met then After(bits, Taken(w, bits), w.flags.clear) else bits;
    ScanParts(rest, calls, next);
    var r, all := Scan(rest, calls, next), Scan(q, calls, bits);
    assert Receivers(all.given) == if met then [q[0]] + Receivers(r.given) else Receivers(r.given);
    if i > 0 {
      ServedInOrder(rest, calls, next, i - 1);
      assert rest[..i - 1] == q[..i][1..];
    }
  }

  lemma {:induction false} HandedToOthers(got: map<Tid, Events>, given: seq<Delivery>, t: Tid)
    requires forall i :: 0 <= i < |given| ==> given[i].t != t
    ensures t in Handed(got, given) <==> t in got
    ensures t in got ==> Handed(got, given)[t] == got[t]
    decreases |given|
  {
    if given != [] {
      HandedToOthers(got[given[0].t := given[0].bits], given[1..], t);
    }
  }

  lemma {:induction false} HandedTo(got: map<Tid, Events>, given: seq<Delivery>, i: nat)
    requires i < |given| && forall j :: 0 <= j < |given| && j != i ==> given[j].t != given[i].t
    ensures given[i].t in Handed(got, given) && Handed(got, given)[given[i].t] == given[i].bits
    decreases |given|
  {
    var next := got[given[0].t := given[0].bits];
    if i == 0 {
      HandedToOthers(next, given[1..], given[0].t);
    } else {
      HandedTo(next, given[1..], i - 1);
    }
  }

  lemma HandedIs(got: map<Tid, Events>, given: seq<Delivery>)
    requires NoDup(Receivers(given)) && forall t :: t in Receivers(given) ==> t !in got
    ensures var r := Handed(got, given);
            && (forall t :: t in r <==> t in got || t in Receivers(given))
            && (forall t :: t in got ==> r[t] == got[t])
            && (forall i :: 0 <= i < |given| ==> given[i].t in r && r[given[i].t] == given[i].bits)
  {
    var q := Receivers(given);
    forall i | 0 <= i < |given|
      ensures given[i].t in Handed(got, given) && Handed(got, given)[given[i].t] == given[i].bits
    {
      assert forall j :: 0 <= j < |given| && j != i ==> q[j] != q[i];
      HandedTo(got, given, i);
    }
    forall t | t !in q
      ensures t in Handed(got, given) <==> t in got
      ensures t in got ==> Handed(got, given)[t] == got[t]
    {
      assert forall i :: 0 <= i < |given| ==> q[i] == given[i].t;
      HandedToOthers(got, given, t);
    }
  }

  // ---------- the invariant ----------

  /** Every waiter still has to wait, and every woken thread has something it asked for. */
  ghost predicate EInv(c: EConfig, s: EState) {
    && NoDup(s.list) && (c.order.Prio? ==> Sorted(s.list, c.priority))
    && Asks(s.calls, s.list) && (forall t :: t in s.list ==> t in c.priority && !Met(s.calls[t], s.bits))
    && (forall t :: t in s.got ==> t in s.calls && t !in s.list && Satisfies(s.calls[t], s.got[t]))
    && (forall t :: t in s.calls ==> t in s.list || t in s.got)
  }

  lemma SendKeeps(c: EConfig, s: EState, bits: Events)
    requires EInv(c, s)
    ensures EInv(c, SendStep(s, bits))
  {
    var b := s.bits + bits;
    var r := Scan(s.list, s.calls, b);
    ScanGives(s.list, s.calls, b);
    ScanParts(s.list, s.calls, b);
    if c.order.Prio? {
      ScanSorted(s.list, s.calls, b, c.priority);
    }
    HandedIs(s.got, r.given);
    var h := Handed(s.got, r.given);
    forall t | t in h
      ensures t in s.calls && t !in r.rest && Satisfies(s.calls[t], h[t])
    {
      if t !in s.got {
        var i :| 0 <= i < |r.given| && r.given[i].t == t;
      }
    }
  }

  lemma RecvKeeps(c: EConfig, s: EState, t: Tid, w: Want)
    requires EInv(c, s) && EEnabled(c, s, ERecv(t, w)) && w.mask != {}
    ensures EInv(c, RecvStep(c, s, t, w).0)
  {
    if !Met(w, s.bits) && w.time != 0 {
      ParkKeeps(c, s, t, w);
    }
  }

  lemma ParkKeeps(c: EConfig, s: EState, t: Tid, w: Want)
    requires EInv(c, s) && EEnabled(c, s, ERecv(t, w)) && w.mask != {} && !Met(w, s.bits)
    ensures EInv(c, s.(list := Suspend(s.list, t, c.order, c.priority), calls := s.calls[t := w]))
  {
    var list := Suspend(s.list, t, c.order, c.priority);
    SuspendMembers(s.list, t, c.order, c.priority);
    assert forall x :: x in list <==> x in Members(list);
    assert t !in s.list;
    if c.order.Prio? {
      SuspendSorted(s.list, t, c.priority);
    }
  }

  lemma EStepKeeps(c: EConfig, s: EState, a: EAction)
    requires EInv(c, s) && EEnabled(c, s, a)
    ensures EInv(c, EStep(c, s, a).0)
  {
    match a
    case ESend(bits) => SendKeeps(c, s, bits);
    case ERecv(t, w) =>
      if w.mask != {} {
        RecvKeeps(c, s, t, w);
      }
    case ERerun(_) =>
    case EExpire(t) => WithoutKeeps(s.list, t, c.priority);
    case EReset =>
  }

  // ---------- whole runs ----------

  ghost function ERun(c: EConfig, run: seq<EAction>): (r: (EState, bool))
    ensures EInv(c, r.0)
  {
    if run == [] then (NoEvents, true)
    else
      var (s, ok) := ERun(c, run[..|run| - 1]);
      if ok && EEnabled(c, s, run[|run| - 1]) then
        EStepKeeps(c, s, run[|run| - 1]);
        (EStep(c, s, run[|run| - 1]).0, true)
      else (s, false)
  }

  /** In every run, after every step: no suspended thread's condition holds for the events that are set;
      and every suspended thread asked for AND or OR, so a send never meets its "invalid option" case. */
  lemma NoneStranded(c: EConfig, run: seq<EAction>, t: Tid)
    requires t in ERun(c, run).0.list
    ensures var s := ERun(c, run).0;
            && t in s.calls && !Met(s.calls[t], s.bits)
            && (s.calls[t].flags.conj || s.calls[t].flags.any)
            && t !in s.got
  {
  }

  /** In every run, a thread that was woken by a send returns with what it asked for: all of its mask for
      AND, a part that is not empty for OR, whatever has happened between the send and its return. */
  lemma WokenIsServed(c: EConfig, run: seq<EAction>, t: Tid)
    requires EEnabled(c, ERun(c, run).0, ERerun(t))
    ensures var s := ERun(c, run).0;
            t in s.calls && EStep(c, s, ERerun(t)).1 == EGot(s.got[t]) && Satisfies(s.calls[t], s.got[t])
  {
  }

  /** A receive that does not block takes part in the same bargain. */
  lemma ReceivedAtOnce(c: EConfig, s: EState, t: Tid, w: Want)
    requires EInv(c, s) && EEnabled(c, s, ERecv(t, w)) && w.mask != {}
    ensures var (r, status) := EStep(c, s, ERecv(t, w));
            && (status.EGot? <==> Met(w, s.bits))
            && (status.EGot? ==>
                  && Satisfies(w, status.bits) && status.bits <= s.bits
                  && r == s.(bits := if w.flags.clear then s.bits - status.bits else s.bits))
            && (status.ETimedOut? <==> !Met(w, s.bits) && w.time == 0)
            && (status.ETimedOut? ==> r == s)
  {
    assert s.bits - w.mask == s.bits - (s.bits * w.mask);
  }

  /** One send: every event that was set before or is sent now is afterwards either still set or with one
      of the CLEAR receivers, which share no event with each other or with anybody served after them. */
  lemma SendAccounts(c: EConfig, s: EState, bits: Events)
    requires EInv(c, s)
    ensures var r, g := SendStep(s, bits), Scan(s.list, s.calls, s.bits + bits).given;
            && r.bits + Cleared(g) == s.bits + bits && r.bits !! Cleared(g)
            && (forall i, j :: 0 <= i < j < |g| && g[i].clear ==> g[i].bits !! g[j].bits)
            && (forall i :: 0 <= i < |g| ==>
                  g[i].t in s.list && g[i].t in r.got && r.got[g[i].t] == g[i].bits
                      && Satisfies(s.calls[g[i].t], g[i].bits))
            && (forall t :: t in s.list <==> t in r.list || t in Receivers(g))
  {
    var b := s.bits + bits;
    ScanGives(s.list, s.calls, b);
    ScanParts(s.list, s.calls, b);
    ScanSharesOut(s.list, s.calls, b);
    HandedIs(s.got, Scan(s.list, s.calls, b).given);
  }
}
