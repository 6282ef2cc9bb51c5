/** Call graphs, and what a worst-case stack is: the largest sum of local stacks along a call path. */
module CallGraph {
  import opened LinkedNodes

  /** A function: global, or local to a translation unit. */
  type Fxn = nat

  /** `calls` are the resolved calls of each function, `own` the names it calls that nothing resolves. */
  datatype Graph = Graph(calls: seq<seq<Fxn>>, local: seq<nat>, ptrCall: seq<bool>, own: seq<set<string>>)

  predicate WellFormed(g: Graph) {
    && |g.calls| == |g.local| == |g.ptrCall| == |g.own|
    && forall f, k :: 0 <= f < |g.calls| && 0 <= k < |g.calls[f]| ==> g.calls[f][k] < |g.calls|
  }

  /** f calls c. */
  predicate Edge(g: Graph, f: Fxn, c: Fxn) {
    f < |g.calls| && c in g.calls[f]
  }

  ghost predicate Path(g: Graph, p: seq<Fxn>) {
    p != [] && (forall i :: 0 <= i < |p| ==> p[i] < |g.calls|)
        && forall i: nat :: i < |p| - 1 ==> Edge(g, p[i], p[i + 1])
  }

  ghost predicate From(g: Graph, p: seq<Fxn>, f: Fxn) {
    Path(g, p) && p[0] == f
  }

  function Sum(g: Graph, p: seq<Fxn>): nat
    requires WellFormed(g) && forall i :: 0 <= i < |p| ==> p[i] < |g.calls|
  {
    if p == [] then 0 else g.local[p[0]] + Sum(g, p[1..])
  }

  ghost predicate Reaches(g: Graph, f: Fxn, c: Fxn) {
    exists p :: From(g, p, f) && p[|p| - 1] == c
  }

  /** f can call itself, directly or through others. */
  ghost predicate OnCycle(g: Graph, f: Fxn) {
    exists p :: From(g, p, f) && |p| > 1 && p[|p| - 1] == f
  }

  /** f reaches a call through a pointer, or recursion. */
  ghost predicate Bad(g: Graph, f: Fxn)
    requires WellFormed(g)
  {
    exists c: Fxn :: Reaches(g, f, c) && c < |g.calls| && (g.ptrCall[c] || OnCycle(g, c))
  }

  lemma ReachesSelf(g: Graph, f: Fxn)
    requires f < |g.calls|
    ensures Reaches(g, f, f)
  {
    assert From(g, [f], f) && [f][|[f]| - 1] == f;
  }

  lemma ExtendPath(g: Graph, f: Fxn, p: seq<Fxn>)
    requires Path(g, p) && Edge(g, f, p[0])
    ensures From(g, [f] + p, f)
  {
    var q := [f] + p;
    forall i: nat | i < |q| - 1
      ensures Edge(g, q[i], q[i + 1])
    {
      if i > 0 {
        assert Edge(g, p[i - 1], p[i]);
      }
    }
  }

  lemma ReachesThrough(g: Graph, f: Fxn, c: Fxn, d: Fxn)
    requires Edge(g, f, c) && Reaches(g, c, d)
    ensures Reaches(g, f, d)
  {
    var p :| From(g, p, c) && p[|p| - 1] == d;
    ExtendPath(g, f, p);
    assert ([f] + p)[|[f] + p| - 1] == d;
  }

  lemma BadThrough(g: Graph, f: Fxn, c: Fxn)
    requires WellFormed(g) && Edge(g, f, c) && Bad(g, c)
    ensures Bad(g, f)
  {
    var d: Fxn :| Reaches(g, c, d) && d < |g.calls| && (g.ptrCall[d] || OnCycle(g, d));
    ReachesThrough(g, f, c, d);
  }

  lemma BadSelf(g: Graph, f: Fxn)
    requires WellFormed(g) && f < |g.calls| && (g.ptrCall[f] || OnCycle(g, f))
    ensures Bad(g, f)
  {
    ReachesSelf(g, f);
  }

  /** A call to a function that is on the chain of callers closes a cycle. */
  lemma ChainCloses(g: Graph, parents: seq<Fxn>, i: nat)
    requires Path(g, parents) && i < |parents| && Edge(g, parents[|parents| - 1], parents[i])
    ensures OnCycle(g, parents[i])
  {
    var f := parents[i];
    var p := parents[i..] + [f];
    forall k: nat | k < |p| - 1
      ensures Edge(g, p[k], p[k + 1])
    {
      if k < |p| - 2 {
        assert Edge(g, parents[i + k], parents[i + k + 1]);
      }
    }
    assert From(g, p, f) && |p| > 1 && p[|p| - 1] == f;
  }

  // ---------- call lists in another order ----------

  /** The same functions, which call the same functions; only the order of the calls may differ. */
  ghost predicate SameCalls(g: Graph, h: Graph) {
    && |g.calls| == |h.calls| && g.local == h.local && g.ptrCall == h.ptrCall && g.own == h.own
    && forall f, c :: Edge(g, f, c) <==> Edge(h, f, c)
  }

  lemma SamePaths(g: Graph, h: Graph, p: seq<Fxn>)
    requires SameCalls(g, h)
    ensures Path(g, p) <==> Path(h, p)
  {
  }

  lemma {:induction false} SameSums(g: Graph, h: Graph, p: seq<Fxn>)
    requires SameCalls(g, h) && WellFormed(g) && WellFormed(h) && forall i :: 0 <= i < |p| ==> p[i] < |g.calls|
    ensures Sum(g, p) == Sum(h, p)
  {
    if p != [] {
      SameSums(g, h, p[1..]);
    }
  }

  lemma SameReaches(g: Graph, h: Graph, f: Fxn, c: Fxn)
    requires SameCalls(g, h)
    ensures Reaches(g, f, c) <==> Reaches(h, f, c)
    ensures OnCycle(g, f) <==> OnCycle(h, f)
  {
    forall p
      ensures From(g, p, f) <==> From(h, p, f)
    {
      SamePaths(g, h, p);
    }
  }

  lemma SameBad(g: Graph, h: Graph, f: Fxn)
    requires SameCalls(g, h) && WellFormed(g) && WellFormed(h)
    ensures Bad(g, f) <==> Bad(h, f)
  {
    forall c: Fxn
      ensures Reaches(g, f, c) <==> Reaches(h, f, c)
      ensures OnCycle(g, c) <==> OnCycle(h, c)
    {
      SameReaches(g, h, f, c);
      SameReaches(g, h, c, c);
    }
  }
}
