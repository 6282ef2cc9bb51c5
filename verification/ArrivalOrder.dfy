/** The order in which waiting threads are resumed, told by when each of them began to wait: `arrived` numbers the
    arrivals. */
module ArrivalOrder {
  import opened LinkedNodes
  import opened WaitList

  /** x is to be resumed before y: first come, first served, or the higher priority first and first come, first served
      among equals. */
  predicate Before(order: Order, priority: map<Tid, nat>, arrived: map<Tid, nat>, x: Tid, y: Tid) {
    && x in arrived && y in arrived
    && match order
       case Fifo => arrived[x] < arrived[y]
       case Prio =>
         Rank(x, priority) < Rank(y, priority)
         || (Rank(x, priority) == Rank(y, priority) && arrived[x] < arrived[y])
  }

  ghost predicate InTurn(order: Order, priority: map<Tid, nat>, arrived: map<Tid, nat>, q: seq<Tid>) {
    forall i, j :: 0 <= i < j < |q| ==> Before(order, priority, arrived, q[i], q[j])
  }

  /** The arrivals so far have numbers below n. */
  ghost predicate Numbered(arrived: map<Tid, nat>, n: nat) {
    forall t :: t in arrived ==> arrived[t] < n
  }

  /** `t` is the one of q that has to be resumed. */
  ghost predicate Foremost(order: Order, priority: map<Tid, nat>, arrived: map<Tid, nat>, q: seq<Tid>, t: Tid) {
    t in q && forall x :: x in q && x != t ==> Before(order, priority, arrived, t, x)
  }

  ghost predicate AllArrived(arrived: map<Tid, nat>, q: seq<Tid>) {
    forall x :: x in q ==> x in arrived
  }

  /** Only the arrivals of the members matter. */
  lemma TurnsFrame(order: Order, priority: map<Tid, nat>, arrived: map<Tid, nat>, later: map<Tid, nat>, q: seq<Tid>)
    requires InTurn(order, priority, arrived, q)
    requires forall x :: x in q && x in arrived ==> x in later && later[x] == arrived[x]
    ensures InTurn(order, priority, later, q)
  {
    forall i, j | 0 <= i < j < |q|
      ensures Before(order, priority, later, q[i], q[j])
    {
      assert Before(order, priority, arrived, q[i], q[j]) && q[i] in q && q[j] in q;
    }
  }

  lemma TailInTurn(order: Order, priority: map<Tid, nat>, arrived: map<Tid, nat>, q: seq<Tid>)
    requires InTurn(order, priority, arrived, q) && q != []
    ensures InTurn(order, priority, arrived, q[1..]) && Foremost(order, priority, arrived, q, q[0])
  {
    forall i, j | 0 <= i < j < |q| - 1
      ensures Before(order, priority, arrived, q[1..][i], q[1..][j])
    {
      assert Before(order, priority, arrived, q[i + 1], q[j + 1]);
    }
    forall x | x in q && x != q[0]
      ensures Before(order, priority, arrived, q[0], x)
    {
      var k :| 0 <= k < |q| && q[k] == x;
      assert Before(order, priority, arrived, q[0], q[k]);
    }
  }

  lemma {:induction false} WithoutInTurn(order: Order, priority: map<Tid, nat>, arrived: map<Tid, nat>, q: seq<Tid>,
                                         t: Tid)
    requires InTurn(order, priority, arrived, q)
    ensures InTurn(order, priority, arrived, Without(q, t))
  {
    if q != [] {
      var p, last := q[..|q| - 1], q[|q| - 1];
      assert forall i :: 0 <= i < |p| ==> p[i] == q[i];
      WithoutInTurn(order, priority, arrived, p, t);
      var w := Without(p, t);
      forall i | 0 <= i < |w|
        ensures Before(order, priority, arrived, w[i], last)
      {
        assert w[i] in p;
        var k :| 0 <= k < |p| && p[k] == w[i];
        assert Before(order, priority, arrived, q[k], last);
      }
    }
  }

  /** Where a newcomer goes: in front of those that are to be resumed after it, behind the others. */
  lemma PlaceInTurn(order: Order, priority: map<Tid, nat>, arrived: map<Tid, nat>, q: seq<Tid>, t: Tid)
    requires InTurn(order, priority, arrived, q) && t in arrived && t !in q && AllArrived(arrived, q)
    requires forall x :: x in q && x in arrived ==> arrived[x] < arrived[t]
    ensures var n := Place(q, t, order, priority);
            && (forall j :: 0 <= j < n ==> Before(order, priority, arrived, q[j], t))
            && (forall j :: n <= j < |q| ==> Before(order, priority, arrived, t, q[j]))
  {
    var n := Place(q, t, order, priority);
    forall j | 0 <= j < |q|
      ensures j < n ==> Before(order, priority, arrived, q[j], t)
      ensures j >= n ==> Before(order, priority, arrived, t, q[j])
    {
      assert q[j] in q;
      if n < j {
        assert q[n] in q && Before(order, priority, arrived, q[n], q[j]);
      }
    }
  }

  lemma SuspendInTurn(order: Order, priority: map<Tid, nat>, arrived: map<Tid, nat>, q: seq<Tid>, t: Tid)
    requires InTurn(order, priority, arrived, q) && t in arrived && t !in q && AllArrived(arrived, q)
    requires forall x :: x in q && x in arrived ==> arrived[x] < arrived[t]
    ensures InTurn(order, priority, arrived, Suspend(q, t, order, priority))
  {
    var n, r := Place(q, t, order, priority), Suspend(q, t, order, priority);
    PlaceInTurn(order, priority, arrived, q, t);
    forall i, j | 0 <= i < j < |r|
      ensures Before(order, priority, arrived, r[i], r[j])
    {
      assert r[i] == (if i < n then q[i] else if i == n then t else q[i - 1]);
      assert r[j] == (if j < n then q[j] else if j == n then t else q[j - 1]);
    }
  }

  /** A list in turn, of threads that have all arrived. */
  ghost predicate Queued(order: Order, priority: map<Tid, nat>, arrived: map<Tid, nat>, q: seq<Tid>) {
    InTurn(order, priority, arrived, q) && AllArrived(arrived, q)
  }

  /** A thread begins to wait as number n: it takes its place in one list, and no other list is disturbed. */
  lemma Arrives(order: Order, priority: map<Tid, nat>, arrived: map<Tid, nat>, q: seq<Tid>, t: Tid, n: nat)
    requires Queued(order, priority, arrived, q) && Numbered(arrived, n) && t !in q
    ensures Queued(order, priority, arrived[t := n], Suspend(q, t, order, priority))
    ensures Queued(order, priority, arrived[t := n], q) && Numbered(arrived[t := n], n + 1)
  {
    var later := arrived[t := n];
    TurnsFrame(order, priority, arrived, later, q);
    SuspendInTurn(order, priority, later, q, t);
    SuspendMembers(q, t, order, priority);
    assert forall x :: x in Suspend(q, t, order, priority) <==> x in Members(Suspend(q, t, order, priority));
  }

  /** Nobody begins to wait; some leave: the first, one anywhere, or all. */
  lemma Leaves(order: Order, priority: map<Tid, nat>, arrived: map<Tid, nat>, q: seq<Tid>, r: seq<Tid>, t: Tid)
    requires Queued(order, priority, arrived, q)
    requires r == q || (q != [] && r == q[1..]) || r == Without(q, t) || r == []
    ensures Queued(order, priority, arrived, r)
  {
    if q != [] {
      TailInTurn(order, priority, arrived, q);
      assert forall x :: x in q[1..] ==> x in q;
    }
    WithoutInTurn(order, priority, arrived, q, t);
  }

  /** Exactly one waiter is woken if there is one: the foremost, and the others stay in their order. */
  ghost predicate WakesForemost(order: Order, priority: map<Tid, nat>, arrived: map<Tid, nat>, w: Waiters, r: Waiters) {
    if w.list == [] then r == w
    else
      exists t ::
        Foremost(order, priority, arrived, w.list, t) && r.woken == w.woken + {t} && r.list == Without(w.list, t)
  }

  lemma WakesInTurn(order: Order, priority: map<Tid, nat>, arrived: map<Tid, nat>, w: Waiters)
    requires Queued(order, priority, arrived, w.list) && Fine(w)
    ensures WakesForemost(order, priority, arrived, w, WakeOne(w))
  {
    if w.list != [] {
      TailInTurn(order, priority, arrived, w.list);
      WithoutFirst(w.list);
      assert Foremost(order, priority, arrived, w.list, w.list[0]);
    }
  }
}
