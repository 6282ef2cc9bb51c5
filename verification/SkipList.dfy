/** The rows of the timer skip list as sequences: each row is the row below it, cut down to some members. */
module SkipList {
  import opened LinkedNodes
  import opened WaitList

  /** The members of `q` that are in `keep`, in the order of `q`. */
  function Only(q: seq<Tid>, keep: set<Tid>): (r: seq<Tid>)
    ensures |r| <= |q| && forall x :: x in r <==> x in q && x in keep
  {
    if q == [] then []
    else
      var r := Only(q[..|q| - 1], keep);
      if q[|q| - 1] in keep then r + [q[|q| - 1]] else r
  }

  lemma {:induction false} OnlyAgree(q: seq<Tid>, s: set<Tid>, t: set<Tid>)
    requires forall x :: x in q ==> (x in s <==> x in t)
    ensures Only(q, s) == Only(q, t)
  {
    if q != [] {
      assert forall x :: x in q[..|q| - 1] ==> x in q;
      OnlyAgree(q[..|q| - 1], s, t);
    }
  }

  lemma {:induction false} OnlyAppend(a: seq<Tid>, b: seq<Tid>, keep: set<Tid>)
    ensures Only(a + b, keep) == Only(a, keep) + Only(b, keep)
  {
    if b == [] {
      assert a + b == a;
    } else {
      var p := b[..|b| - 1];
      assert (a + b)[..|a + b| - 1] == a + p && (a + b)[|a + b| - 1] == b[|b| - 1];
      OnlyAppend(a, p, keep);
    }
  }

  lemma {:induction false} OnlyOnly(q: seq<Tid>, s: set<Tid>, t: set<Tid>)
    ensures Only(Only(q, s), t) == Only(q, s * t)
  {
    if q != [] {
      var p, last := q[..|q| - 1], q[|q| - 1];
      OnlyOnly(p, s, t);
      if last in s {
        OnlyAppend(Only(p, s), [last], t);
        assert Only([last], t) == if last in t then [last] else [];
      }
    }
  }

  lemma {:induction false} WithoutIsOnly(q: seq<Tid>, t: Tid, keep: set<Tid>)
    requires forall x :: x in q ==> (x in keep <==> x != t)
    ensures Without(q, t) == Only(q, keep)
  {
    if q != [] {
      assert forall x :: x in q[..|q| - 1] ==> x in q;
      WithoutIsOnly(q[..|q| - 1], t, keep);
      assert q[|q| - 1] in q;
    }
  }

  /** `upper` is a subsequence of `lower`. */
  ghost predicate Thinned(upper: seq<Tid>, lower: seq<Tid>) {
    upper == Only(lower, Members(upper))
  }

  lemma ThinnedWithout(upper: seq<Tid>, lower: seq<Tid>, t: Tid)
    requires Thinned(upper, lower)
    ensures Thinned(Without(upper, t), Without(lower, t))
  {
    var u := Without(upper, t);
    var rest := Members(lower) - {t};
    WithoutIsOnly(lower, t, rest);
    WithoutIsOnly(upper, t, rest);
    OnlyOnly(lower, Members(upper), rest);
    OnlyOnly(lower, rest, Members(u));
    OnlyAgree(lower, Members(upper) * rest, rest * Members(u));
  }

  // ---------- sorted insertion ----------

  ghost predicate AllAtMost(q: seq<Tid>, t: Tid, rank: map<Tid, nat>) {
    forall x :: x in q ==> Rank(x, rank) <= Rank(t, rank)
  }

  ghost predicate AllAbove(q: seq<Tid>, t: Tid, rank: map<Tid, nat>) {
    forall x :: x in q ==> Rank(t, rank) < Rank(x, rank)
  }

  /** A sorted list falls into the part before the place of t and the part after it. */
  lemma PlaceSplits(q: seq<Tid>, t: Tid, rank: map<Tid, nat>)
    requires Sorted(q, rank)
    ensures var n := Place(q, t, Prio, rank); AllAtMost(q[..n], t, rank) && AllAbove(q[n..], t, rank)
  {
    var n := Place(q, t, Prio, rank);
    forall x | x in q[n..]
      ensures Rank(t, rank) < Rank(x, rank)
    {
      var i :| 0 <= i < |q| - n && q[n..][i] == x;
      assert q[n + i] == x && (i > 0 ==> rank[q[n]] <= rank[q[n + i]]);
    }
  }

  lemma {:induction false} PlaceIs(q: seq<Tid>, t: Tid, rank: map<Tid, nat>, from: nat, n: nat)
    requires from <= n <= |q| && AllAtMost(q[..n], t, rank) && AllAbove(q[n..], t, rank)
    ensures PlaceFrom(q, t, rank, from) == n
    decreases n - from
  {
    if from < n {
      assert q[..n][from] == q[from] && q[from] in q[..n];
      PlaceIs(q, t, rank, from + 1, n);
    } else if n < |q| {
      assert q[n..][0] == q[n] && q[n] in q[n..];
    }
  }

  /** Cutting both sides of the place of t down gives the two sides of its place in the row above. */
  lemma PlaceThinned(upper: seq<Tid>, lower: seq<Tid>, t: Tid, rank: map<Tid, nat>)
    requires Thinned(upper, lower) && Sorted(lower, rank)
    ensures var n, m := Place(lower, t, Prio, rank), Place(upper, t, Prio, rank);
            upper[..m] == Only(lower[..n], Members(upper)) && upper[m..] == Only(lower[n..], Members(upper))
  {
    var n, s := Place(lower, t, Prio, rank), Members(upper);
    var a, b := lower[..n], lower[n..];
    PlaceSplits(lower, t, rank);
    assert lower == a + b;
    OnlyAppend(a, b, s);
    var m := |Only(a, s)|;
    assert upper[..m] == Only(a, s) && upper[m..] == Only(b, s);
    PlaceIs(upper, t, rank, 0, m);
  }

  /** Inserting into a row and the row below, or only into the row below, keeps the one inside the other. */
  lemma ThinnedSuspend(upper: seq<Tid>, lower: seq<Tid>, t: Tid, rank: map<Tid, nat>)
    requires Thinned(upper, lower) && Sorted(lower, rank) && t !in lower
    ensures Thinned(upper, Suspend(lower, t, Prio, rank))
    ensures Thinned(Suspend(upper, t, Prio, rank), Suspend(lower, t, Prio, rank))
  {
    var n, s := Place(lower, t, Prio, rank), Members(upper);
    var a, b := lower[..n], lower[n..];
    PlaceThinned(upper, lower, t, rank);
    InsertedOnly(a, b, t, s);
    assert t !in upper;
    assert upper == Only(a, s) + [] + Only(b, s);
    InsertedBoth(upper, a, b, t);
    SuspendMembers(upper, t, Prio, rank);
  }

  lemma InsertedBoth(upper: seq<Tid>, a: seq<Tid>, b: seq<Tid>, t: Tid)
    requires t !in a && t !in b
    ensures var s := Members(upper); Only(a + [t] + b, s + {t}) == Only(a, s) + [t] + Only(b, s)
  {
    var s := Members(upper);
    InsertedOnly(a, b, t, s + {t});
    OnlyAgree(a, s, s + {t});
    OnlyAgree(b, s, s + {t});
  }

  lemma InsertedOnly(a: seq<Tid>, b: seq<Tid>, t: Tid, keep: set<Tid>)
    ensures Only(a + [t] + b, keep) == Only(a, keep) + (if t in keep then [t] else []) + Only(b, keep)
  {
    OnlyAppend(a + [t], b, keep);
    OnlyAppend(a, [t], keep);
    assert [t][..0] == [];
    assert Only([t], keep) == if t in keep then [t] else [];
  }

  lemma {:induction false} ThinnedSorted(upper: seq<Tid>, lower: seq<Tid>, keep: set<Tid>, rank: map<Tid, nat>)
    requires Sorted(lower, rank) && upper == Only(lower, keep)
    ensures Sorted(upper, rank)
    decreases |lower|
  {
    if lower != [] {
      var p, last := lower[..|lower| - 1], lower[|lower| - 1];
      var u := Only(p, keep);
      ThinnedSorted(u, p, keep, rank);
      forall i | 0 <= i < |u|
        ensures u[i] in rank && rank[u[i]] <= rank[last]
      {
        assert u[i] in p;
        var k :| 0 <= k < |p| && p[k] == u[i];
        assert lower[k] == p[k];
      }
    }
  }

  // ---------- all rows ----------

  function Bottom(rows: seq<seq<Tid>>): seq<Tid>
    requires rows != []
  {
    rows[|rows| - 1]
  }

  /** The last row is the list itself; every other row is a thinned copy of the one below. */
  ghost predicate Stacked(rows: seq<seq<Tid>>) {
    forall l: nat :: l < |rows| - 1 ==> ThinnedAt(rows, l)
  }

  ghost predicate ThinnedAt(rows: seq<seq<Tid>>, l: nat)
    requires l < |rows| - 1
  {
    Thinned(rows[l], rows[l + 1])
  }

  lemma {:induction false} RowsSorted(rows: seq<seq<Tid>>, rank: map<Tid, nat>, l: nat)
    requires Stacked(rows) && l < |rows| && Sorted(Bottom(rows), rank)
    ensures Sorted(rows[l], rank) && forall x :: x in rows[l] ==> x in Bottom(rows)
    decreases |rows| - l
  {
    if l < |rows| - 1 {
      RowsSorted(rows, rank, l + 1);
      assert ThinnedAt(rows, l);
      ThinnedSorted(rows[l], rows[l + 1], Members(rows[l]), rank);
    }
  }

  /** `nr & mask` is 0, and `nr` with the mask bits shifted out, for a base of mask + 1. */
  predicate Divides(base: nat, nr: nat)
    requires base > 1
  {
    nr % base == 0
  }

  function ShiftOut(nr: nat, base: nat): nat
    requires base > 1
  {
    nr / base
  }

  /** How many rows above the bottom one the counter `nr` gives a new timer, of `more` that there are:
      one for each time the mask bits are all 0. */
  function Extra(nr: nat, base: nat, more: nat): (n: nat)
    requires base > 1
    ensures n <= more
    decreases more
  {
    if more == 0 || !Divides(base, nr) then 0 else 1 + Extra(ShiftOut(nr, base), base, more - 1)
  }

  /** t goes to its place in the rows from `top` down. */
  function InsertRows(rows: seq<seq<Tid>>, t: Tid, rank: map<Tid, nat>, top: nat): (r: seq<seq<Tid>>)
    ensures |r| == |rows|
    ensures forall l :: 0 <= l < |rows| ==> r[l] == if l >= top then Suspend(rows[l], t, Prio, rank) else rows[l]
  {
    seq(|rows|, l requires 0 <= l < |rows| => if l >= top then Suspend(rows[l], t, Prio, rank) else rows[l])
  }

  lemma InsertOneMore(rows: seq<seq<Tid>>, t: Tid, rank: map<Tid, nat>, top: nat)
    requires top < |rows|
    ensures InsertRows(rows, t, rank, top + 1)[top := Suspend(rows[top], t, Prio, rank)] ==
            InsertRows(rows, t, rank, top)
  {
  }

  function RemoveRows(rows: seq<seq<Tid>>, t: Tid): (r: seq<seq<Tid>>)
    ensures |r| == |rows| && forall l :: 0 <= l < |rows| ==> r[l] == Without(rows[l], t)
  {
    seq(|rows|, l requires 0 <= l < |rows| => Without(rows[l], t))
  }

  lemma RemoveStacked(rows: seq<seq<Tid>>, t: Tid)
    requires Stacked(rows) && rows != []
    ensures Stacked(RemoveRows(rows, t)) && Bottom(RemoveRows(rows, t)) == Without(Bottom(rows), t)
  {
    var r := RemoveRows(rows, t);
    forall l: nat | l < |r| - 1
      ensures ThinnedAt(r, l)
    {
      assert ThinnedAt(rows, l);
      ThinnedWithout(rows[l], rows[l + 1], t);
    }
  }

  /** For any number of rows and any height: after an insertion every row is still a subsequence of the row
      below, and the bottom row is what plain sorted insertion makes of it. */
  lemma InsertStacked(rows: seq<seq<Tid>>, t: Tid, rank: map<Tid, nat>, top: nat)
    requires Stacked(rows) && rows != [] && top < |rows| && Sorted(Bottom(rows), rank)
    requires t in rank && t !in Bottom(rows)
    ensures var r := InsertRows(rows, t, rank, top);
            Stacked(r) && Bottom(r) == Suspend(Bottom(rows), t, Prio, rank)
  {
    var r := InsertRows(rows, t, rank, top);
    forall l: nat | l < |r| - 1
      ensures ThinnedAt(r, l)
    {
      assert ThinnedAt(rows, l);
      RowsSorted(rows, rank, l + 1);
      ThinnedSuspend(rows[l], rows[l + 1], t, rank);
    }
  }
}
