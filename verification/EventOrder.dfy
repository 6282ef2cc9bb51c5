/** The order in which an event set serves its waiters, in every run, and exactly what each of them is given. */
module EventOrder {
  import opened ArrivalOrder
  import opened EventModel
  import opened LinkedNodes
  import opened WaitList

  // ---------- what each call answers ----------

  /** Calls for no event at all are refused; a receive whose condition does not hold waits if it has time. */
  lemma EventAnswers(c: EConfig, s: EState, t: Tid, w: Want)
    requires EInv(c, s) && EEnabled(c, s, ERecv(t, w))
    ensures EStep(c, s, ESend({})) == (s, EError)
    ensures var (r, status) := EStep(c, s, ERecv(t, w));
            if w.mask == {} then status == EError && r == s
            else if !Met(w, s.bits) && w.time != 0 then
              && status == EBlocked && t in r.list && Without(r.list, t) == s.list
              && r == s.(list := r.list, calls := s.calls[t := w])
            else !status.EBlocked?
  {
    WithoutSuspended(s.list, t, c.order, c.priority);
    SuspendMembers(s.list, t, c.order, c.priority);
    var list := Suspend(s.list, t, c.order, c.priority);
    assert t in Members(list);
  }

  /** AND waits for all events of the mask, OR for any of them, and AND decides if both are asked for. */
  lemma MetIs(w: Want, bits: Events)
    requires w.flags.conj || w.flags.any
    ensures Met(w, bits) <==> if w.flags.conj then forall b :: b in w.mask ==> b in bits
                              else exists b :: b in w.mask && b in bits
  {
    var both := w.mask * bits;
    assert forall b :: b in both <==> b in w.mask && b in bits;
    if both != {} {
      var b :| b in both;
    }
  }

  /** A woken thread returns and takes its delivery with it; a timeout ends the call of its thread; a reset ends the
      calls of all that wait and clears all events. */
  lemma EventCallsEnd(c: EConfig, s: EState, t: Tid)
    requires EInv(c, s)
    ensures EEnabled(c, s, ERerun(t)) ==>
              var r := EStep(c, s, ERerun(t)).0;
              t !in r.calls && t !in r.got && r.bits == s.bits && r.list == s.list && r.got == s.got - {t}
    ensures EEnabled(c, s, EExpire(t)) ==>
              var (r, status) := EStep(c, s, EExpire(t));
              && status == ETimedOut && t !in r.list && t !in r.calls && t !in r.got
              && r == s.(list := Without(s.list, t), calls := s.calls - {t})
    ensures var r := EStep(c, s, EReset).0;
            r.bits == {} && r.list == [] && r.got == s.got && r.calls.Keys == s.got.Keys
  {
  }

  /** What a waiter is given is exactly what it asks for out of what those in front of it have left: all of its mask for
      AND, and for OR every event of its mask that is there. */
  lemma {:induction false} GivenExactly(q: seq<Tid>, calls: map<Tid, Want>, bits: Events, i: nat)
    requires NoDup(q) && i < |q| && forall t :: t in q ==> t in calls
    ensures forall t :: t in q[..i] ==> t in calls
    ensures q[i] in calls
    ensures var left, w := Scan(q[..i], calls, bits).left, calls[q[i]];
            Met(w, left) ==>
              Delivery(q[i], if w.flags.conj then w.mask else w.mask * left, w.flags.clear)
              in Scan(q, calls, bits).given
  {
    var w, rest := calls[q[0]], q[1..];
    assert forall t :: t in q[..i] ==> t in q;
    assert forall t :: t in rest ==> t in q;
    assert forall j :: 0 <= j < |rest| ==> rest[j] == q[j + 1];
    var met := Met(w, bits);
    var next := if met then After(bits, Taken(w, bits), w.flags.clear) else bits;
    var r, all := Scan(rest, calls, next), Scan(q, calls, bits);
    assert all.given == if met then [Delivery(q[0], Taken(w, bits), w.flags.clear)] + r.given else r.given;
    if i > 0 {
      GivenExactly(rest, calls, next, i - 1);
      assert rest[..i - 1] == q[..i][1..];
      assert Scan(q[..i], calls, bits).left == Scan(rest[..i - 1], calls, next).left;
    } else {
      assert q[..0] == [];
    }
  }

  // ---------- the order of the list ----------

  /** For every thread that has ever waited, the number of the step in which it last began to. */
  ghost function EArrived(c: EConfig, run: seq<EAction>): map<Tid, nat> {
    if run == [] then map[]
    else
      var n := |run| - 1;
      var (s, ok) := ERun(c, run[..n]);
      if ok && EEnabled(c, s, run[n]) then ENumbering(c, s, run[n], EArrived(c, run[..n]), n)
      else EArrived(c, run[..n])
  }

  ghost function ENumbering(c: EConfig, s: EState, a: EAction, arrived: map<Tid, nat>, n: nat): map<Tid, nat>
    requires EInv(c, s) && EEnabled(c, s, a)
  {
    if EStep(c, s, a).1.EBlocked? then arrived[a.t := n] else arrived
  }

  /** Those that a send passes over keep their order. */
  lemma {:induction false} PassedOverInTurn(order: Order, priority: map<Tid, nat>, arrived: map<Tid, nat>,
                                            q: seq<Tid>, calls: map<Tid, Want>, bits: Events)
    requires Queued(order, priority, arrived, q) && forall t :: t in q ==> t in calls
    ensures var rest := Scan(q, calls, bits).rest;
            Queued(order, priority, arrived, rest) && forall t :: t in rest ==> t in q
  {
    if q != [] {
      var w, tail := calls[q[0]], q[1..];
      TailInTurn(order, priority, arrived, q);
      assert forall t :: t in tail ==> t in q;
      var next := if Met(w, bits) then After(bits, Taken(w, bits), w.flags.clear) else bits;
      PassedOverInTurn(order, priority, arrived, tail, calls, next);
      var r := Scan(tail, calls, next).rest;
      forall i | 0 <= i < |r|
        ensures Before(order, priority, arrived, q[0], r[i])
      {
        assert r[i] in tail;
        var k :| 0 <= k < |tail| && tail[k] == r[i];
        assert Before(order, priority, arrived, q[0], q[k + 1]);
      }
    }
  }

  lemma EStepInTurn(c: EConfig, s: EState, a: EAction, arrived: map<Tid, nat>, n: nat)
    requires EInv(c, s) && EEnabled(c, s, a)
    requires Queued(c.order, c.priority, arrived, s.list) && Numbered(arrived, n)
    ensures var m := ENumbering(c, s, a, arrived, n);
            Queued(c.order, c.priority, m, EStep(c, s, a).0.list) && Numbered(m, n + 1)
  {
    match a
    case ESend(bits) => PassedOverInTurn(c.order, c.priority, arrived, s.list, s.calls, s.bits + bits);
    case ERecv(t, _) => Arrives(c.order, c.priority, arrived, s.list, t, n);
    case ERerun(_) =>
    case EExpire(t) => Leaves(c.order, c.priority, arrived, s.list, Without(s.list, t), t);
    case EReset =>
  }

  lemma {:induction false} EListInTurn(c: EConfig, run: seq<EAction>)
    ensures Queued(c.order, c.priority, EArrived(c, run), ERun(c, run).0.list) && Numbered(EArrived(c, run), |run|)
  {
    if run != [] {
      var n := |run| - 1;
      var (s, ok) := ERun(c, run[..n]);
      EListInTurn(c, run[..n]);
      if ok && EEnabled(c, s, run[n]) {
        EStepInTurn(c, s, run[n], EArrived(c, run[..n]), n);
      }
    }
  }

  /** In every run the list that a send walks along holds the waiters in the order in which they began to wait, for a
      FIFO event set, and by priority and then by that order otherwise. */
  lemma EventByArrival(c: EConfig, run: seq<EAction>, i: nat, j: nat)
    requires i < j < |ERun(c, run).0.list|
    ensures var m := EArrived(c, run); var x, y := ERun(c, run).0.list[i], ERun(c, run).0.list[j];
            && x in m && y in m && x in c.priority && y in c.priority
            && (c.order.Fifo? ==> m[x] < m[y])
            && (c.order.Prio? ==> c.priority[x] < c.priority[y] || (c.priority[x] == c.priority[y] && m[x] < m[y]))
  {
    var q, m := ERun(c, run).0.list, EArrived(c, run);
    EListInTurn(c, run);
    assert Before(c.order, c.priority, m, q[i], q[j]);
    assert q[i] in q && q[j] in q;
  }
}
