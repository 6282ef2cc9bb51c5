/** The circular doubly linked lists of `rtservice.h`. Nodes are numbers; a list is known by its head, which is a
    node of the circle itself. */
module RtList {
  import opened LinkedNodes

  function Succ(i: nat, n: nat): nat {
    if i + 1 == n then 0 else i + 1
  }

  /** The link from place i of the circle to the next one, both ways. */
  predicate Linked(next: seq<int>, prev: seq<int>, ring: seq<nat>, i: nat)
    requires i < |ring|
  {
    && ring[i] < |next| == |prev| && ring[Succ(i, |ring|)] < |next|
    && next[ring[i]] == ring[Succ(i, |ring|)] && prev[ring[Succ(i, |ring|)]] == ring[i]
  }

  /** The links lead around the nodes of `ring`, forwards and backwards. */
  ghost predicate Ring(next: seq<int>, prev: seq<int>, ring: seq<nat>) {
    && |next| == |prev| && ring != [] && NoDup(ring)
    && forall i: nat :: i < |ring| ==> Linked(next, prev, ring, i)
  }

  /** The links of other nodes do not matter. */
  lemma RingFrame(next: seq<int>, prev: seq<int>, ring: seq<nat>, next1: seq<int>, prev1: seq<int>)
    requires Ring(next, prev, ring) && |next1| == |prev1| == |next|
    requires forall n :: n in ring ==> n < |next| && next1[n] == next[n] && prev1[n] == prev[n]
    ensures Ring(next1, prev1, ring)
  {
    forall i: nat | i < |ring|
      ensures Linked(next1, prev1, ring, i)
    {
      assert Linked(next, prev, ring, i);
      assert ring[i] in ring && ring[Succ(i, |ring|)] in ring;
    }
  }

  lemma RingNodes(next: seq<int>, prev: seq<int>, ring: seq<nat>)
    requires Ring(next, prev, ring)
    ensures forall n :: n in ring ==> n < |next|
  {
    forall n | n in ring
      ensures n < |next|
    {
      var i: nat :| i < |ring| && ring[i] == n;
      assert Linked(next, prev, ring, i);
    }
  }

  /** The circle seen from its second node. */
  lemma Rotated(next: seq<int>, prev: seq<int>, ring: seq<nat>)
    requires Ring(next, prev, ring)
    ensures Ring(next, prev, ring[1..] + [ring[0]])
  {
    var r := ring[1..] + [ring[0]];
    forall i: nat | i < |r|
      ensures Linked(next, prev, r, i)
    {
      assert Linked(next, prev, ring, Succ(i, |ring|));
    }
  }

  /** And from any other. */
  lemma {:induction false} RotatedTo(next: seq<int>, prev: seq<int>, ring: seq<nat>, i: nat)
    requires Ring(next, prev, ring) && i <= |ring|
    ensures Ring(next, prev, ring[i..] + ring[..i])
    decreases i
  {
    if i == 0 {
      assert ring[0..] + ring[..0] == ring;
    } else {
      RotatedTo(next, prev, ring, i - 1);
      var r := ring[i - 1..] + ring[..i - 1];
      Rotated(next, prev, r);
      assert r[1..] + [r[0]] == ring[i..] + ring[..i];
    }
  }

  /** The writes of `rt_list_insert_after`. */
  function AfterNext(next: seq<int>, l: nat, n: nat): seq<int>
    requires l < |next| && n < |next|
  {
    next[n := next[l]][l := n]
  }

  function AfterPrev(next: seq<int>, prev: seq<int>, l: nat, n: nat): seq<int>
    requires l < |next| == |prev| && n < |next| && 0 <= next[l] < |prev|
  {
    prev[next[l] := n][n := l]
  }

  /** A node is put between the head and the node after it. */
  lemma InsertFirst(next: seq<int>, prev: seq<int>, ring: seq<nat>, n: nat)
    requires Ring(next, prev, ring) && n !in ring && n < |next|
    ensures ring[0] < |next| && 0 <= next[ring[0]] < |next|
    ensures Ring(AfterNext(next, ring[0], n), AfterPrev(next, prev, ring[0], n), [ring[0], n] + ring[1..])
  {
    assert Linked(next, prev, ring, 0);
    var r := [ring[0], n] + ring[1..];
    var next1, prev1 := AfterNext(next, ring[0], n), AfterPrev(next, prev, ring[0], n);
    forall i: nat | i < |r|
      ensures Linked(next1, prev1, r, i)
    {
      if i > 1 {
        assert Linked(next, prev, ring, i - 1);
        assert ring[i - 1] in ring && ring[Succ(i - 1, |ring|)] in ring;
      }
    }
  }

  lemma TurnedBack(ring: seq<nat>, i: nat, n: nat)
    requires i < |ring|
    ensures var q := [ring[i], n] + (ring[i..] + ring[..i])[1..];
            |q| == |ring| + 1 && q[|q| - i..] + q[..|q| - i] == ring[..i + 1] + [n] + ring[i + 1..]
  {
    var q := [ring[i], n] + (ring[i..] + ring[..i])[1..];
    assert q[|q| - i..] == ring[..i];
    assert q[..|q| - i] == [ring[i], n] + ring[i + 1..];
  }

  lemma SameNodes(ring: seq<nat>, i: nat, n: nat)
    requires i <= |ring|
    ensures n in ring[i..] + ring[..i] <==> n in ring
  {
    assert ring == ring[..i] + ring[i..];
  }

  /** Anywhere in the circle, it is put behind the node l. */
  lemma InsertAfterRing(next: seq<int>, prev: seq<int>, ring: seq<nat>, i: nat, n: nat)
    requires Ring(next, prev, ring) && i < |ring| && n !in ring && n < |next|
    ensures ring[i] < |next| && 0 <= next[ring[i]] < |next|
    ensures Ring(AfterNext(next, ring[i], n), AfterPrev(next, prev, ring[i], n), ring[..i + 1] + [n] + ring[i + 1..])
  {
    RotatedTo(next, prev, ring, i);
    var r := ring[i..] + ring[..i];
    SameNodes(ring, i, n);
    InsertFirst(next, prev, r, n);
    var q := [r[0], n] + r[1..];
    RotatedTo(AfterNext(next, r[0], n), AfterPrev(next, prev, r[0], n), q, |q| - i);
    TurnedBack(ring, i, n);
  }

  /** `rt_list_insert_before` writes the same links as an insertion behind the node before l. */
  lemma BeforeIsAfter(next: seq<int>, prev: seq<int>, ring: seq<nat>, i: nat)
    requires Ring(next, prev, ring) && i < |ring|
    ensures ring[i] < |prev| && 0 <= prev[ring[i]] < |next|
    ensures prev[ring[i]] == ring[if i == 0 then |ring| - 1 else i - 1] && next[prev[ring[i]]] == ring[i]
  {
    assert Linked(next, prev, ring, if i == 0 then |ring| - 1 else i - 1);
  }

  /** The writes of `rt_list_remove` to the neighbours of n. */
  lemma RemoveFirst(next: seq<int>, prev: seq<int>, ring: seq<nat>)
    requires Ring(next, prev, ring) && |ring| > 1
    ensures var n := ring[0];
            && n < |next| && 0 <= next[n] < |next| && 0 <= prev[n] < |next|
            && Ring(next[prev[n] := next[n]], prev[next[n] := prev[n]], ring[1..])
  {
    var n := ring[0];
    assert Linked(next, prev, ring, 0) && Linked(next, prev, ring, |ring| - 1);
    var r := ring[1..];
    var next1, prev1 := next[prev[n] := next[n]], prev[next[n] := prev[n]];
    forall i: nat | i < |r|
      ensures Linked(next1, prev1, r, i)
    {
      assert Linked(next, prev, ring, i + 1);
    }
  }

  lemma RemoveRing(next: seq<int>, prev: seq<int>, ring: seq<nat>, i: nat)
    requires Ring(next, prev, ring) && 0 < i < |ring|
    ensures var n := ring[i];
            && n < |next| && 0 <= next[n] < |next| && 0 <= prev[n] < |next|
            && Ring(next[prev[n] := next[n]], prev[next[n] := prev[n]], ring[..i] + ring[i + 1..])
  {
    RotatedTo(next, prev, ring, i);
    var r := ring[i..] + ring[..i];
    RemoveFirst(next, prev, r);
    var n := r[0];
    RotatedTo(next[prev[n] := next[n]], prev[next[n] := prev[n]], r[1..], |r| - 1 - i);
    assert r[1..][|r| - 1 - i..] + r[1..][..|r| - 1 - i] == ring[..i] + ring[i + 1..];
  }

  /** No links but those of the nodes in `touched` have changed; so every list without such nodes is kept. */
  ghost predicate SameBut(next: seq<int>, prev: seq<int>, next1: seq<int>, prev1: seq<int>, touched: seq<nat>) {
    && |next1| == |next| && |prev1| == |prev|
    && (forall n: nat :: n < |next| && n !in touched ==> next1[n] == next[n])
    && (forall n: nat :: n < |prev| && n !in touched ==> prev1[n] == prev[n])
  }

  lemma OtherListKept(next: seq<int>, prev: seq<int>, next1: seq<int>, prev1: seq<int>, touched: seq<nat>,
                      ring: seq<nat>)
    requires SameBut(next, prev, next1, prev1, touched) && Ring(next, prev, ring)
             && forall n :: n in ring ==> n !in touched
    ensures Ring(next1, prev1, ring)
  {
    RingNodes(next, prev, ring);
    RingFrame(next, prev, ring, next1, prev1);
  }

  lemma OnlyOnce(ring: seq<nat>, i: nat)
    requires NoDup(ring) && i < |ring|
    ensures ring[i] !in ring[..i] + ring[i + 1..]
  {
  }

  lemma Neighbours(next: seq<int>, prev: seq<int>, ring: seq<nat>, i: nat)
    requires Ring(next, prev, ring) && i < |ring|
    ensures ring[i] < |next| && 0 <= next[ring[i]] < |next| && 0 <= prev[ring[i]] < |next|
    ensures next[ring[i]] in ring && prev[ring[i]] in ring
  {
    assert Linked(next, prev, ring, i);
    assert next[ring[i]] == ring[Succ(i, |ring|)];
    BeforeIsAfter(next, prev, ring, i);
  }

  lemma AfterSame(next: seq<int>, prev: seq<int>, ring: seq<nat>, i: nat, n: nat)
    requires Ring(next, prev, ring) && i < |ring| && n < |next|
    ensures ring[i] < |next| && 0 <= next[ring[i]] < |next| && ring[i] in ring && next[ring[i]] in ring
    ensures SameBut(next, prev, AfterNext(next, ring[i], n), AfterPrev(next, prev, ring[i], n), [n] + ring)
  {
    assert Linked(next, prev, ring, i);
    assert ring[Succ(i, |ring|)] in ring;
  }

  class Lists {
    const next: array<int>
    const prev: array<int>

    ghost predicate Valid() {
      next != prev && next.Length == prev.Length
    }

    constructor (n: nat)
      ensures Valid() && next.Length == n && fresh(next) && fresh(prev)
    {
      next := new int[n];
      prev := new int[n];
    }

    /** A list: its head, and the nodes on it in order. */
    ghost predicate Holds(head: nat, nodes: seq<nat>)
      reads next, prev
    {
      Valid() && Ring(next[..], prev[..], [head] + nodes)
    }

    /** `rt_list_init`. */
    method Init(l: nat)
      requires Valid() && l < next.Length
      modifies next, prev
      ensures Holds(l, []) && SameBut(old(next[..]), old(prev[..]), next[..], prev[..], [l])
    {
      prev[l] := l;
      next[l] := prev[l];
    }

    /** `rt_list_insert_after`: l is the head or the node at place i - 1 of the list. */
    method InsertAfter(l: nat, n: nat, ghost head: nat, ghost nodes: seq<nat>, ghost i: nat)
      requires Holds(head, nodes) && i <= |nodes| && l == ([head] + nodes)[i] && n < next.Length && n !in [head] + nodes
      modifies next, prev
      ensures Holds(head, nodes[..i] + [n] + nodes[i..])
      ensures SameBut(old(next[..]), old(prev[..]), next[..], prev[..], [n] + ([head] + nodes))
    {
      ghost var ring, nx, pv := [head] + nodes, next[..], prev[..];
      InsertAfterRing(nx, pv, ring, i, n);
      AfterSame(nx, pv, ring, i, n);
      assert [head] + (nodes[..i] + [n] + nodes[i..]) == ring[..i + 1] + [n] + ring[i + 1..];
      prev[next[l]] := n;
      next[n] := next[l];
      next[l] := n;
      prev[n] := l;
      assert next[..] == AfterNext(nx, l, n) && prev[..] == AfterPrev(nx, pv, l, n);
    }

    /** `rt_list_insert_before`: l is the node at place i of the list, or the head, and then n becomes the last node. */
    method InsertBefore(l: nat, n: nat, ghost head: nat, ghost nodes: seq<nat>, ghost i: nat)
      requires Holds(head, nodes) && i <= |nodes| && l == (nodes + [head])[i] && n < next.Length && n !in [head] + nodes
      modifies next, prev
      ensures Holds(head, nodes[..i] + [n] + nodes[i..])
      ensures SameBut(old(next[..]), old(prev[..]), next[..], prev[..], [n] + ([head] + nodes))
    {
      ghost var ring, nx, pv := [head] + nodes, next[..], prev[..];
      BeforeIsAfter(nx, pv, ring, if i == |nodes| then 0 else i + 1);
      InsertAfterRing(nx, pv, ring, i, n);
      AfterSame(nx, pv, ring, i, n);
      assert [head] + (nodes[..i] + [n] + nodes[i..]) == ring[..i + 1] + [n] + ring[i + 1..];
      ghost var p := prev[l];
      next[prev[l]] := n;
      prev[n] := prev[l];
      prev[l] := n;
      next[n] := l;
      assert next[..] == AfterNext(nx, p, n) && prev[..] == AfterPrev(nx, pv, p, n);
    }

    /** `rt_list_remove`: the node is a list of its own again. */
    method Remove(n: nat, ghost head: nat, ghost nodes: seq<nat>, ghost i: nat)
      requires Holds(head, nodes) && i < |nodes| && n == nodes[i]
      modifies next, prev
      ensures Holds(head, nodes[..i] + nodes[i + 1..]) && Holds(n, [])
      ensures SameBut(old(next[..]), old(prev[..]), next[..], prev[..], [head] + nodes)
    {
      ghost var ring, nx, pv := [head] + nodes, next[..], prev[..];
      RemoveRing(nx, pv, ring, i + 1);
      Neighbours(nx, pv, ring, i + 1);
      ghost var rest := [head] + (nodes[..i] + nodes[i + 1..]);
      OnlyOnce(ring, i + 1);
      assert rest == ring[..i + 1] + ring[i + 2..] && n == ring[i + 1];
      prev[next[n]] := prev[n];
      next[prev[n]] := next[n];
      ghost var nx1, pv1 := next[..], prev[..];
      assert pv1 == pv[nx[n] := pv[n]] && nx1 == nx[pv[n] := nx[n]];
      prev[n] := n;
      next[n] := prev[n];
      RingNodes(nx1, pv1, rest);
      RingFrame(nx1, pv1, rest, next[..], prev[..]);
    }

    /** `rt_list_isempty`. */
    method IsEmpty(l: nat, ghost nodes: seq<nat>) returns (empty: bool)
      requires Holds(l, nodes)
      ensures empty <==> nodes == []
    {
      assert Linked(next[..], prev[..], [l] + nodes, 0);
      empty := next[l] == l;
    }

    /** `rt_list_len`. */
    method Len(l: nat, ghost nodes: seq<nat>) returns (len: nat)
      requires Holds(l, nodes)
      ensures len == |nodes|
    {
      ghost var ring := [l] + nodes;
      var p := l;
      len := 0;
      assert Linked(next[..], prev[..], ring, 0);
      while next[p] != l
        invariant len <= |nodes| && p == ring[len] && Linked(next[..], prev[..], ring, len)
        decreases |nodes| - len
      {
        p := next[p];
        len := len + 1;
        assert Linked(next[..], prev[..], ring, len);
      }
    }
  }
}
