/** Lists without repetitions, and singly linked lists of numbered nodes: `next[n]` is the node after n. */
module LinkedNodes {

  /** RT_NULL among the node indices. */
  const NIL: int := -1

  ghost predicate NoDup(q: seq<nat>) {
    forall i, j :: 0 <= i < j < |q| ==> q[i] != q[j]
  }

  /** A list of different numbers below k has at most k of them. */
  lemma {:induction false} Pigeonhole(q: seq<nat>, k: nat)
    requires NoDup(q) && (forall n :: n in q ==> n < k)
    ensures |q| <= k
  {
    if q == [] {
      return;
    }
    assert q[0] in q;
    if k - 1 in q {
      var i :| 0 <= i < |q| && q[i] == k - 1;
      var p := q[..i] + q[i + 1..];
      assert forall j :: 0 <= j < |p| ==> p[j] == q[if j < i then j else j + 1] && p[j] in q;
      Pigeonhole(p, k - 1);
    } else {
      Pigeonhole(q, k - 1);
    }
  }

  function Last(q: seq<nat>): int {
    if q == [] then NIL else q[|q| - 1]
  }

  /** Following the links from `from` visits exactly the nodes of `q`, and ends at RT_NULL. */
  ghost predicate Chain(next: seq<int>, from: int, q: seq<nat>)
    decreases |q|
  {
    if q == [] then from == NIL else from == q[0] && q[0] < |next| && Chain(next, next[q[0]], q[1..])
  }

  /** Writing the link of a node that is not in a list leaves the list alone. */
  lemma {:induction false} ChainFrame(next: seq<int>, from: int, q: seq<nat>, n: nat, value: int)
    requires Chain(next, from, q) && n < |next| && n !in q
    ensures Chain(next[n := value], from, q)
    decreases |q|
  {
    if q != [] {
      assert q[0] in q && forall x :: x in q[1..] ==> x in q;
      ChainFrame(next, next[q[0]], q[1..], n, value);
    }
  }

  lemma {:induction false} ChainAppend(next: seq<int>, from: int, q: seq<nat>, n: nat)
    requires Chain(next, from, q) && q != [] && NoDup(q) && n < |next| && n !in q && next[n] == NIL
    ensures q[|q| - 1] < |next| && Chain(next[q[|q| - 1] := n], from, q + [n])
    decreases |q|
  {
    if |q| == 1 {
      assert Chain(next, next[q[0]], q[1..]);
      var r := next[q[0] := n];
      assert (q + [n])[1..] == [n] && [n][1..] == [];
      assert Chain(r, NIL, []);
      assert Chain(r, n, [n]);
    } else {
      var rest := q[1..];
      assert q[0] in q && forall x :: x in rest ==> x in q;
      assert rest[|rest| - 1] == q[|q| - 1] != q[0];
      ChainAppend(next, next[q[0]], rest, n);
      assert (q + [n])[1..] == rest + [n];
    }
  }

  /** A list after the walk that takes p off it. */
  function Unlinked(l: seq<nat>, p: nat): seq<nat> {
    if l == [] then [] else if l[0] == p then l[1..] else [l[0]] + Unlinked(l[1..], p)
  }

  lemma {:induction false} UnlinkedHas(l: seq<nat>, p: nat)
    requires NoDup(l)
    ensures NoDup(Unlinked(l, p)) && forall q :: q in Unlinked(l, p) <==> q in l && q != p
    decreases l
  {
    if l != [] {
      assert l == [l[0]] + l[1..];
      assert l[0] !in l[1..];
      if l[0] != p {
        UnlinkedHas(l[1..], p);
      }
    }
  }

  lemma {:induction false} UnlinkedAt(l: seq<nat>, k: nat, p: nat)
    requires k < |l| && l[k] == p && p !in l[..k]
    ensures Unlinked(l, p) == l[..k] + l[k + 1..]
    decreases k
  {
    if k > 0 {
      assert l[0] in l[..k] && l[1..][..k - 1] == l[..k][1..];
      UnlinkedAt(l[1..], k - 1, p);
    }
  }
}
