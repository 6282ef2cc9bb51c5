/** The suspend lists of `ipc.c`: `rt_ipc_list_suspend` in both orders, and what every list keeps. */
module WaitList {
  import opened LinkedNodes

  type Tid = nat

  /** RT_IPC_FLAG_FIFO and RT_IPC_FLAG_PRIO. */
  datatype Order = Fifo | Prio

  /** A smaller number is a higher priority. */
  ghost predicate Sorted(q: seq<Tid>, priority: map<Tid, nat>) {
    && (forall i :: 0 <= i < |q| ==> q[i] in priority)
    && forall i, j :: 0 <= i < j < |q| ==> priority[q[i]] <= priority[q[j]]
  }

  function Rank(t: Tid, priority: map<Tid, nat>): nat {
    if t in priority then priority[t] else 0
  }

  /** The first waiter, from position `from` on, that `t` outranks. */
  function PlaceFrom(q: seq<Tid>, t: Tid, priority: map<Tid, nat>, from: nat): (n: nat)
    requires from <= |q|
    ensures from <= n <= |q|
    ensures forall j :: from <= j < n ==> Rank(q[j], priority) <= Rank(t, priority)
    ensures n < |q| ==> Rank(t, priority) < Rank(q[n], priority)
    decreases |q| - from
  {
    if from == |q| || Rank(t, priority) < Rank(q[from], priority) then from
    else PlaceFrom(q, t, priority, from + 1)
  }

  function Place(q: seq<Tid>, t: Tid, order: Order, priority: map<Tid, nat>): (n: nat)
    ensures n <= |q|
  {
    if order.Fifo? then |q| else PlaceFrom(q, t, priority, 0)
  }

  function Suspend(q: seq<Tid>, t: Tid, order: Order, priority: map<Tid, nat>): seq<Tid> {
    q[..Place(q, t, order, priority)] + [t] + q[Place(q, t, order, priority)..]
  }

  /** `rt_ipc_list_suspend`: the walk along the list, and the insertion. */
  method SuspendOn(q: seq<Tid>, t: Tid, order: Order, priority: map<Tid, nat>) returns (r: seq<Tid>)
    ensures r == Suspend(q, t, order, priority)
  {
    if order.Fifo? {
      return q + [t];
    }
    var n := 0;
    while n < |q| && !(Rank(t, priority) < Rank(q[n], priority))
      invariant n <= |q| && PlaceFrom(q, t, priority, 0) == PlaceFrom(q, t, priority, n)
    {
      n := n + 1;
    }
    r := q[..n] + [t] + q[n..];
  }

  function Without(q: seq<Tid>, t: Tid): (r: seq<Tid>)
    ensures |r| <= |q|
    ensures forall x :: x in r <==> x in q && x != t
  {
    if q == [] then []
    else if q[|q| - 1] == t then Without(q[..|q| - 1], t)
    else Without(q[..|q| - 1], t) + [q[|q| - 1]]
  }

  function Members(q: seq<Tid>): set<Tid> {
    set t | t in q
  }

  /** A list without repetitions has as many members as places. */
  lemma {:induction false} SetOf(q: seq<nat>)
    requires NoDup(q)
    ensures |Members(q)| == |q|
  {
    if q != [] {
      var last, p := q[|q| - 1], q[..|q| - 1];
      SetOf(p);
      assert Members(q) == Members(p) + {last};
      assert last !in Members(p);
    }
  }

  lemma {:induction false} SizeOfRange(n: nat, s: set<nat>)
    requires forall b: nat :: b in s <==> b < n
    ensures |s| == n
  {
    if n > 0 {
      SizeOfRange(n - 1, s - {n - 1});
    } else {
      assert s == {};
    }
  }

  lemma SuspendMembers(q: seq<Tid>, t: Tid, order: Order, priority: map<Tid, nat>)
    ensures Members(Suspend(q, t, order, priority)) == Members(q) + {t}
    ensures NoDup(q) && t !in q ==> NoDup(Suspend(q, t, order, priority))
  {
    var n, r := Place(q, t, order, priority), Suspend(q, t, order, priority);
    assert r[n] == t;
    forall x | x in q
      ensures x in r
    {
      var i :| 0 <= i < |q| && q[i] == x;
      assert r[if i < n then i else i + 1] == x;
    }
  }

  /** Priority order is kept, and `t` goes behind every waiter of its own priority. */
  lemma SuspendSorted(q: seq<Tid>, t: Tid, priority: map<Tid, nat>)
    requires Sorted(q, priority) && t in priority
    ensures Sorted(Suspend(q, t, Prio, priority), priority)
    ensures var n := Place(q, t, Prio, priority);
            forall j :: n <= j < |q| ==> priority[t] < priority[q[j]]
  {
  }

  /** rt_list_remove keeps the order of the others. */
  lemma {:induction false} WithoutKeeps(q: seq<Tid>, t: Tid, priority: map<Tid, nat>)
    ensures NoDup(q) ==> NoDup(Without(q, t))
    ensures Sorted(q, priority) ==> Sorted(Without(q, t), priority)
  {
    if q != [] {
      var p, last := q[..|q| - 1], q[|q| - 1];
      var w := Without(p, t);
      WithoutKeeps(p, t, priority);
      forall i | 0 <= i < |w|
        ensures NoDup(q) ==> w[i] != last
        ensures Sorted(q, priority) ==> w[i] in priority && last in priority && priority[w[i]] <= priority[last]
      {
        assert w[i] in p;
        var k :| 0 <= k < |p| && p[k] == w[i];
        assert q[k] == p[k];
      }
    }
  }

  lemma {:induction false} WithoutFirst(q: seq<Tid>)
    requires NoDup(q) && q != []
    ensures Without(q, q[0]) == q[1..]
  {
    if |q| == 1 {
      assert q[..0] == [];
    } else {
      var p := q[..|q| - 1];
      assert NoDup(p) && p[0] == q[0] != q[|q| - 1];
      WithoutFirst(p);
      assert p[1..] + [q[|q| - 1]] == q[1..];
    }
  }

  lemma {:induction false} WithoutAbsent(q: seq<Tid>, t: Tid)
    requires t !in q
    ensures Without(q, t) == q
  {
    if q != [] {
      assert q[|q| - 1] in q && forall x :: x in q[..|q| - 1] ==> x in q;
      WithoutAbsent(q[..|q| - 1], t);
    }
  }

  lemma {:induction false} WithoutAppend(q: seq<Tid>, p: seq<Tid>, t: Tid)
    ensures Without(q + p, t) == Without(q, t) + Without(p, t)
  {
    if p == [] {
      assert q + p == q;
    } else {
      assert (q + p)[..|q + p| - 1] == q + p[..|p| - 1];
      WithoutAppend(q, p[..|p| - 1], t);
    }
  }

  /** A newcomer leaves the others where they are. */
  lemma WithoutSuspended(q: seq<Tid>, t: Tid, order: Order, priority: map<Tid, nat>)
    requires t !in q
    ensures Without(Suspend(q, t, order, priority), t) == q
  {
    var n := Place(q, t, order, priority);
    WithoutAppend(q[..n] + [t], q[n..], t);
    WithoutAppend(q[..n], [t], t);
    WithoutAbsent(q[..n], t);
    WithoutAbsent(q[n..], t);
    assert Without([t], t) == [];
    assert q[..n] + q[n..] == q;
  }

  // ---------- priority order with ties in order of arrival ----------

  /** x is served before y: it ranks first, or came first. */
  predicate InFront(rank: map<Tid, nat>, since: map<Tid, nat>, x: Tid, y: Tid) {
    && x in rank && y in rank && x in since && y in since
    && (rank[x] < rank[y] || (rank[x] == rank[y] && since[x] < since[y]))
  }

  ghost predicate Line(rank: map<Tid, nat>, since: map<Tid, nat>, q: seq<Tid>) {
    forall i, j :: 0 <= i < j < |q| ==> InFront(rank, since, q[i], q[j])
  }

  /** Only what the maps say about the members matters. */
  lemma LineFrame(rank: map<Tid, nat>, since: map<Tid, nat>, newRank: map<Tid, nat>, newSince: map<Tid, nat>,
                  q: seq<Tid>)
    requires Line(rank, since, q)
    requires forall t :: t in q && t in rank ==> t in newRank && newRank[t] == rank[t]
    requires forall t :: t in q && t in since ==> t in newSince && newSince[t] == since[t]
    ensures Line(newRank, newSince, q)
  {
    forall i, j | 0 <= i < j < |q|
      ensures InFront(newRank, newSince, q[i], q[j])
    {
      assert InFront(rank, since, q[i], q[j]) && q[i] in q && q[j] in q;
    }
  }

  lemma LineInsert(rank: map<Tid, nat>, since: map<Tid, nat>, q: seq<Tid>, n: nat, t: Tid)
    requires Line(rank, since, q) && n <= |q|
    requires forall j :: 0 <= j < n ==> InFront(rank, since, q[j], t)
    requires forall j :: n <= j < |q| ==> InFront(rank, since, t, q[j])
    ensures Line(rank, since, q[..n] + [t] + q[n..])
  {
    var r := q[..n] + [t] + q[n..];
    forall i, j | 0 <= i < j < |r|
      ensures InFront(rank, since, r[i], r[j])
    {
      assert r[i] == (if i < n then q[i] else if i == n then t else q[i - 1]);
      assert r[j] == (if j < n then q[j] else if j == n then t else q[j - 1]);
    }
  }

  lemma {:induction false} LineWithout(rank: map<Tid, nat>, since: map<Tid, nat>, q: seq<Tid>, t: Tid)
    requires Line(rank, since, q)
    ensures Line(rank, since, Without(q, t))
  {
    if q != [] {
      var p, last := q[..|q| - 1], q[|q| - 1];
      assert forall i :: 0 <= i < |p| ==> p[i] == q[i];
      LineWithout(rank, since, p, t);
      var w := Without(p, t);
      forall i | 0 <= i < |w|
        ensures InFront(rank, since, w[i], last)
      {
        assert w[i] in p;
        var k :| 0 <= k < |p| && p[k] == w[i];
        assert InFront(rank, since, q[k], last);
      }
    }
  }

  /** A newcomer goes behind everybody of its own rank or a better one, and in front of the others. */
  lemma PlacedInLine(rank: map<Tid, nat>, since: map<Tid, nat>, q: seq<Tid>, t: Tid, p: map<Tid, nat>)
    requires Line(rank, since, q) && t in rank && t in since && Rank(t, p) == rank[t]
    requires forall x :: x in q ==> x in rank && x in since && Rank(x, p) == rank[x] && since[x] < since[t]
    ensures Line(rank, since, Suspend(q, t, Prio, p))
  {
    var n := Place(q, t, Prio, p);
    forall j | 0 <= j < |q|
      ensures j < n ==> InFront(rank, since, q[j], t)
      ensures j >= n ==> InFront(rank, since, t, q[j])
    {
      assert q[j] in q;
      if j > n {
        assert q[n] in q && InFront(rank, since, q[n], q[j]);
      }
    }
    LineInsert(rank, since, q, n, t);
  }

  // ---------- a suspend list together with the threads resumed from it ----------

  /** `list` waits; `woken` has been resumed by the other side and has not run again yet. */
  datatype Waiters = Waiters(list: seq<Tid>, woken: set<Tid>) {
    predicate Has(t: Tid) {
      t in list || t in woken
    }
  }

  const Nobody: Waiters := Waiters([], {})

  ghost predicate Fine(w: Waiters) {
    NoDup(w.list) && forall t :: t in w.list ==> t !in w.woken
  }

  function Park(w: Waiters, t: Tid, order: Order, priority: map<Tid, nat>): Waiters {
    w.(list := Suspend(w.list, t, order, priority))
  }

  /** `rt_ipc_list_resume`, when the list is not empty. */
  function WakeOne(w: Waiters): Waiters {
    if w.list == [] then w else Waiters(w.list[1..], w.woken + {w.list[0]})
  }

  function Rerun(w: Waiters, t: Tid): Waiters {
    w.(woken := w.woken - {t})
  }

  function Cancel(w: Waiters, t: Tid): Waiters {
    w.(list := Without(w.list, t))
  }

  lemma ParkFine(w: Waiters, t: Tid, order: Order, priority: map<Tid, nat>)
    requires Fine(w) && !w.Has(t)
    ensures Fine(Park(w, t, order, priority)) && Park(w, t, order, priority).list != []
    ensures forall x :: Park(w, t, order, priority).Has(x) <==> x == t || w.Has(x)
  {
    SuspendMembers(w.list, t, order, priority);
    var r := Suspend(w.list, t, order, priority);
    assert forall x :: x in r <==> x in Members(r);
  }

  lemma WakeOneFine(w: Waiters)
    requires Fine(w)
    ensures Fine(WakeOne(w))
    ensures forall x :: WakeOne(w).Has(x) <==> w.Has(x)
    ensures |WakeOne(w).woken| == if w.list == [] then |w.woken| else |w.woken| + 1
  {
    if w.list != [] {
      assert forall x :: x in w.list <==> x == w.list[0] || x in w.list[1..];
    }
  }

  lemma RerunFine(w: Waiters, t: Tid)
    requires Fine(w)
    ensures Fine(Rerun(w, t))
    ensures t in w.woken ==> (forall x :: Rerun(w, t).Has(x) <==> w.Has(x) && x != t)
    ensures t in w.woken ==> |Rerun(w, t).woken| == |w.woken| - 1
  {
  }

  lemma CancelFine(w: Waiters, t: Tid)
    requires Fine(w)
    ensures Fine(Cancel(w, t))
    ensures t !in w.woken ==> (forall x :: Cancel(w, t).Has(x) <==> w.Has(x) && x != t)
    ensures Cancel(w, t).list != [] ==> w.list != []
  {
    WithoutKeeps(w.list, t, map[]);
  }

  /** `rt_ipc_list_resume_all`: the calls of all waiters end with an error. */
  method ResumeAll<Call>(q: seq<Tid>, calls: map<Tid, Call>) returns (rest: map<Tid, Call>)
    ensures rest == calls - Members(q)
  {
    var list := q;
    rest := calls;
    while list != []
      invariant |list| <= |q| && list == q[|q| - |list|..]
      invariant rest == calls - Members(q[..|q| - |list|])
    {
      var n := |q| - |list|;
      assert q[..n + 1] == q[..n] + [list[0]];
      rest := rest - {list[0]};
      list := list[1..];
    }
    assert q[..|q|] == q;
  }
}
