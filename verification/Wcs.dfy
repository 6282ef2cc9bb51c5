/** `calc_all_wcs` of `tools/WCS.py`: depth-first search with the results kept in the functions' dictionaries. */
module Wcs {
  import opened LinkedNodes
  import opened CallGraph

  datatype Stack = Unbounded | Bytes(n: nat)

  function Max(a: nat, b: nat): nat {
    if a < b then b else a
  }

  function Value(wcs: map<Fxn, Stack>, f: Fxn): nat {
    if f in wcs && wcs[f].Bytes? then wcs[f].n else 0
  }

  function Names(unresolved: map<Fxn, set<string>>, f: Fxn): set<string> {
    if f in unresolved then unresolved[f] else {}
  }

  /** The largest result among the calls `cs`. */
  function CallMax(wcs: map<Fxn, Stack>, cs: seq<Fxn>): nat {
    if cs == [] then 0 else Max(CallMax(wcs, cs[..|cs| - 1]), Value(wcs, cs[|cs| - 1]))
  }

  /** The names that f and the functions `cs` leave unresolved. */
  function Gathered(own: set<string>, unresolved: map<Fxn, set<string>>, cs: seq<Fxn>): set<string> {
    if cs == [] then own else Gathered(own, unresolved, cs[..|cs| - 1]) + Names(unresolved, cs[|cs| - 1])
  }

  /** All of `cs` have been given a number of bytes, among the functions of `done`. */
  ghost predicate AllIn(cs: seq<Fxn>, done: seq<Fxn>) {
    forall k :: 0 <= k < |cs| ==> cs[k] in done
  }

  /** done[i] got its result after everything it calls. */
  ghost predicate Settled(g: Graph, wcs: map<Fxn, Stack>, unresolved: map<Fxn, set<string>>, done: seq<Fxn>, i: nat)
    requires WellFormed(g) && i < |done|
  {
    var f := done[i];
    && f < |g.calls| && f in wcs && f in unresolved && !g.ptrCall[f]
    && AllIn(g.calls[f], done[..i])
    && wcs[f] == Bytes(CallMax(wcs, g.calls[f]) + g.local[f])
    && unresolved[f] == Gathered(g.own[f], unresolved, g.calls[f])
  }

  ghost predicate WInv(g: Graph, wcs: map<Fxn, Stack>, unresolved: map<Fxn, set<string>>, done: seq<Fxn>) {
    && WellFormed(g) && NoDup(done)
    && (forall f: Fxn :: f < |g.calls| ==> f in unresolved)
    && (forall i: nat :: i < |done| ==> Settled(g, wcs, unresolved, done, i))
    && (forall f :: f in wcs ==> f < |g.calls| && (wcs[f].Bytes? <==> f in done))
    && (forall f :: f in wcs && wcs[f].Unbounded? ==> Bad(g, f))
  }

  // ---------- what the results mean ----------

  /** Paths from a settled function stay among the functions settled before it. */
  lemma {:induction false} PathSettled(g: Graph, wcs: map<Fxn, Stack>, unresolved: map<Fxn, set<string>>,
      done: seq<Fxn>,
                                      p: seq<Fxn>, i: nat)
    requires WInv(g, wcs, unresolved, done) && i < |done| && From(g, p, done[i])
    ensures p[|p| - 1] in done[..i + 1] && (|p| > 1 ==> p[|p| - 1] in done[..i])
    ensures Sum(g, p) <= Value(wcs, done[i])
    ensures Names(unresolved, p[|p| - 1]) <= Names(unresolved, done[i])
    decreases |p|
  {
    var f := done[i];
    assert Settled(g, wcs, unresolved, done, i);
    if |p| == 1 {
      assert done[..i + 1][i] == f;
      assert p[1..] == [];
    } else {
      var q := p[1..];
      assert Edge(g, p[0], p[1]);
      forall k: nat | k < |q| - 1
        ensures Edge(g, q[k], q[k + 1])
      {
        assert Edge(g, p[k + 1], p[k + 2]);
      }
      var k :| 0 <= k < |g.calls[f]| && g.calls[f][k] == p[1];
      assert g.calls[f][k] in done[..i];
      var j :| 0 <= j < i && done[..i][j] == p[1];
      PathSettled(g, wcs, unresolved, done, q, j);
      assert done[..j + 1] <= done[..i];
      var m :| 0 <= m < |done[..j + 1]| && done[..j + 1][m] == q[|q| - 1];
      assert done[..i][m] == q[|q| - 1] && done[..i + 1][m] == q[|q| - 1];
      CallMaxBounds(wcs, g.calls[f], k);
      GatheredHas(g.own[f], unresolved, g.calls[f], k);
    }
  }

  lemma {:induction false} CallMaxBounds(wcs: map<Fxn, Stack>, cs: seq<Fxn>, k: nat)
    requires k < |cs|
    ensures Value(wcs, cs[k]) <= CallMax(wcs, cs)
  {
    if k < |cs| - 1 {
      CallMaxBounds(wcs, cs[..|cs| - 1], k);
    }
  }

  /** The maximum is 0, or that of some call. */
  lemma {:induction false} CallMaxIs(wcs: map<Fxn, Stack>, cs: seq<Fxn>) returns (k: nat)
    requires cs != []
    ensures k < |cs| && CallMax(wcs, cs) == Value(wcs, cs[k])
  {
    var c := |cs| - 1;
    k := c;
    if |cs| > 1 {
      var j := CallMaxIs(wcs, cs[..c]);
      if Value(wcs, cs[c]) < Value(wcs, cs[j]) {
        k := j;
      }
    }
  }

  lemma {:induction false} GatheredHas(own: set<string>, unresolved: map<Fxn, set<string>>, cs: seq<Fxn>, k: nat)
    requires k < |cs|
    ensures own <= Gathered(own, unresolved, cs) && Names(unresolved, cs[k]) <= Gathered(own, unresolved, cs)
  {
    if k < |cs| - 1 {
      GatheredHas(own, unresolved, cs[..|cs| - 1], k);
    } else {
      GatheredOwn(own, unresolved, cs);
    }
  }

  lemma {:induction false} GatheredOwn(own: set<string>, unresolved: map<Fxn, set<string>>, cs: seq<Fxn>)
    ensures own <= Gathered(own, unresolved, cs)
  {
    if cs != [] {
      GatheredOwn(own, unresolved, cs[..|cs| - 1]);
    }
  }

  lemma {:induction false} GatheredFrom(own: set<string>, unresolved: map<Fxn, set<string>>, cs: seq<Fxn>, name: string)
    returns (k: nat)
    requires name in Gathered(own, unresolved, cs) && name !in own
    ensures k < |cs| && name in Names(unresolved, cs[k])
  {
    var c := cs[|cs| - 1];
    if name in Names(unresolved, c) {
      k := |cs| - 1;
    } else {
      k := GatheredFrom(own, unresolved, cs[..|cs| - 1], name);
    }
  }

  /** Some path attains the result. */
  lemma {:induction false} DeepestPath(g: Graph, wcs: map<Fxn, Stack>, unresolved: map<Fxn, set<string>>,
      done: seq<Fxn>, i: nat)
    returns (p: seq<Fxn>)
    requires WInv(g, wcs, unresolved, done) && i < |done|
    ensures From(g, p, done[i]) && Sum(g, p) == Value(wcs, done[i])
    decreases i
  {
    var f := done[i];
    assert Settled(g, wcs, unresolved, done, i);
    if g.calls[f] == [] {
      p := [f];
      assert p[1..] == [];
    } else {
      var k := CallMaxIs(wcs, g.calls[f]);
      assert g.calls[f][k] in done[..i];
      var j :| 0 <= j < i && done[..i][j] == g.calls[f][k];
      var q := DeepestPath(g, wcs, unresolved, done, j);
      ExtendPath(g, f, q);
      p := [f] + q;
      assert p[1..] == q;
    }
  }

  /** A name that is left unresolved is called by some function on the way. */
  lemma {:induction false} NameFrom(g: Graph, wcs: map<Fxn, Stack>, unresolved: map<Fxn, set<string>>, done: seq<Fxn>,
                                   i: nat, name: string) returns (c: Fxn)
    requires WInv(g, wcs, unresolved, done) && i < |done| && name in Names(unresolved, done[i])
    ensures Reaches(g, done[i], c) && c < |g.calls| && name in g.own[c]
    decreases i
  {
    var f := done[i];
    assert Settled(g, wcs, unresolved, done, i);
    if name in g.own[f] {
      ReachesSelf(g, f);
      c := f;
    } else {
      var k := GatheredFrom(g.own[f], unresolved, g.calls[f], name);
      assert g.calls[f][k] in done[..i];
      var j :| 0 <= j < i && done[..i][j] == g.calls[f][k];
      c := NameFrom(g, wcs, unresolved, done, j, name);
      ReachesThrough(g, f, done[j], c);
    }
  }

  lemma SettledIsGood(g: Graph, wcs: map<Fxn, Stack>, unresolved: map<Fxn, set<string>>, done: seq<Fxn>, i: nat)
    requires WInv(g, wcs, unresolved, done) && i < |done|
    ensures !Bad(g, done[i])
  {
    forall c: Fxn | Reaches(g, done[i], c) && c < |g.calls|
      ensures !g.ptrCall[c] && !OnCycle(g, c)
    {
      var p :| From(g, p, done[i]) && p[|p| - 1] == c;
      PathSettled(g, wcs, unresolved, done, p, i);
      var j :| 0 <= j < |done[..i + 1]| && done[..i + 1][j] == c;
      assert Settled(g, wcs, unresolved, done, j);
      forall q | From(g, q, c) && |q| > 1
        ensures q[|q| - 1] != c
      {
        PathSettled(g, wcs, unresolved, done, q, j);
        assert forall m :: 0 <= m < j ==> done[..j][m] != done[j];
      }
    }
  }

  // ---------- exactness ----------

  ghost predicate Exact(g: Graph, wcs: map<Fxn, Stack>, unresolved: map<Fxn, set<string>>, f: Fxn)
    requires WellFormed(g)
  {
    && f in wcs && f in unresolved
    && (wcs[f].Unbounded? <==> Bad(g, f))
    && (wcs[f].Bytes? ==>
          && (forall p :: From(g, p, f) ==> Sum(g, p) <= wcs[f].n)
          && (exists p :: From(g, p, f) && Sum(g, p) == wcs[f].n)
          && forall name :: name in unresolved[f] <==>
               exists c: Fxn :: c < |g.calls| && Reaches(g, f, c) && name in g.own[c])
  }

  lemma OwnReached(g: Graph, wcs: map<Fxn, Stack>, unresolved: map<Fxn, set<string>>, done: seq<Fxn>, i: nat, c: Fxn)
    requires WInv(g, wcs, unresolved, done) && i < |done| && Reaches(g, done[i], c) && c < |g.calls|
    ensures g.own[c] <= Names(unresolved, done[i])
  {
    var p :| From(g, p, done[i]) && p[|p| - 1] == c;
    PathSettled(g, wcs, unresolved, done, p, i);
    var j :| 0 <= j < |done[..i + 1]| && done[..i + 1][j] == c;
    assert Settled(g, wcs, unresolved, done, j);
    GatheredOwn(g.own[c], unresolved, g.calls[c]);
  }

  /** A function is unbounded exactly when it can reach recursion or a call through a pointer. Otherwise its
      result is the largest sum of local stacks over its call paths, and its unresolved names are those
      of all the functions it can reach. */
  lemma ResultIsExact(g: Graph, wcs: map<Fxn, Stack>, unresolved: map<Fxn, set<string>>, done: seq<Fxn>, f: Fxn)
    requires WInv(g, wcs, unresolved, done) && f in wcs
    ensures Exact(g, wcs, unresolved, f)
  {
    if wcs[f].Bytes? {
      var i :| 0 <= i < |done| && done[i] == f;
      assert Settled(g, wcs, unresolved, done, i);
      SettledIsGood(g, wcs, unresolved, done, i);
      forall p | From(g, p, f)
        ensures Sum(g, p) <= wcs[f].n
      {
        PathSettled(g, wcs, unresolved, done, p, i);
      }
      var p := DeepestPath(g, wcs, unresolved, done, i);
      forall name
        ensures name in unresolved[f] <==> exists c: Fxn :: c < |g.calls| && Reaches(g, f, c) && name in g.own[c]
      {
        if name in unresolved[f] {
          var c := NameFrom(g, wcs, unresolved, done, i, name);
        }
        forall c: Fxn | c < |g.calls| && Reaches(g, f, c) && name in g.own[c]
          ensures name in unresolved[f]
        {
          OwnReached(g, wcs, unresolved, done, i, c);
        }
      }
    }
  }

  /** What is exact for a graph is exact for the same graph with its call lists in another order. */
  lemma ExactForBoth(g: Graph, h: Graph, wcs: map<Fxn, Stack>, unresolved: map<Fxn, set<string>>, f: Fxn)
    requires WellFormed(g) && WellFormed(h) && SameCalls(g, h) && Exact(g, wcs, unresolved, f)
    ensures Exact(h, wcs, unresolved, f)
  {
    SameBad(g, h, f);
    forall p | Path(g, p) || Path(h, p)
      ensures Path(g, p) && Path(h, p) && Sum(g, p) == Sum(h, p)
    {
      SamePaths(g, h, p);
      SameSums(g, h, p);
    }
    forall c
      ensures Reaches(g, f, c) <==> Reaches(h, f, c)
    {
      SameReaches(g, h, f, c);
    }
  }

  /** So the result does not depend on the order in which functions are visited, nor on that of the calls. */
  lemma OrderDoesNotMatter(g: Graph, a: map<Fxn, Stack>, m: map<Fxn, set<string>>,
                           h: Graph, b: map<Fxn, Stack>, n: map<Fxn, set<string>>, f: Fxn)
    requires WellFormed(g) && WellFormed(h) && SameCalls(g, h) && Exact(g, a, m, f) && Exact(h, b, n, f)
    ensures a[f] == b[f] && (a[f].Bytes? ==> m[f] == n[f])
  {
    ExactForBoth(h, g, b, n, f);
    if a[f].Bytes? {
      var p :| From(g, p, f) && Sum(g, p) == a[f].n;
      var q :| From(g, q, f) && Sum(g, q) == b[f].n;
      assert forall name :: name in m[f] <==> name in n[f];
    }
  }

  // ---------- the search ----------

  lemma {:induction false} CallMaxFrame(wcs: map<Fxn, Stack>, after: map<Fxn, Stack>, cs: seq<Fxn>)
    requires forall k :: 0 <= k < |cs| ==> Value(after, cs[k]) == Value(wcs, cs[k])
    ensures CallMax(after, cs) == CallMax(wcs, cs)
  {
    if cs != [] {
      CallMaxFrame(wcs, after, cs[..|cs| - 1]);
    }
  }

  lemma {:induction false} GatheredFrame(own: set<string>, unresolved: map<Fxn, set<string>>,
                                         after: map<Fxn, set<string>>, cs: seq<Fxn>)
    requires forall k :: 0 <= k < |cs| ==> Names(after, cs[k]) == Names(unresolved, cs[k])
    ensures Gathered(own, after, cs) == Gathered(own, unresolved, cs)
  {
    if cs != [] {
      GatheredFrame(own, unresolved, after, cs[..|cs| - 1]);
    }
  }

  /** What has been settled is not touched again. */
  ghost predicate Kept(wcs: map<Fxn, Stack>, unresolved: map<Fxn, set<string>>, newWcs: map<Fxn, Stack>,
                       newUnresolved: map<Fxn, set<string>>, done: seq<Fxn>)
  {
    forall f :: f in done ==> f in wcs && f in newWcs && newWcs[f] == wcs[f]
                              && f in unresolved && f in newUnresolved && newUnresolved[f] == unresolved[f]
  }

  lemma SettledFrame(g: Graph, wcs: map<Fxn, Stack>, unresolved: map<Fxn, set<string>>, newWcs: map<Fxn, Stack>,
                     newUnresolved: map<Fxn, set<string>>, done: seq<Fxn>, i: nat)
    requires WellFormed(g) && i < |done| && Settled(g, wcs, unresolved, done, i)
    requires Kept(wcs, unresolved, newWcs, newUnresolved, done)
    ensures Settled(g, newWcs, newUnresolved, done, i)
  {
    var f := done[i];
    assert f in done;
    forall k | 0 <= k < |g.calls[f]|
      ensures g.calls[f][k] in done
    {
      assert g.calls[f][k] in done[..i];
      var j :| 0 <= j < i && done[..i][j] == g.calls[f][k];
      assert done[j] in done;
    }
    CallMaxFrame(wcs, newWcs, g.calls[f]);
    GatheredFrame(g.own[f], unresolved, newUnresolved, g.calls[f]);
  }

  lemma MarkUnbounded(g: Graph, wcs: map<Fxn, Stack>, unresolved: map<Fxn, set<string>>, done: seq<Fxn>, f: Fxn)
    requires WInv(g, wcs, unresolved, done) && f < |g.calls| && f !in done && Bad(g, f)
    ensures WInv(g, wcs[f := Unbounded], unresolved, done)
  {
    var w := wcs[f := Unbounded];
    AllSettled(g, wcs, unresolved, done);
    forall i: nat | i < |done|
      ensures Settled(g, w, unresolved, done, i)
    {
      SettledFrame(g, wcs, unresolved, w, unresolved, done, i);
    }
  }

  lemma AllSettled(g: Graph, wcs: map<Fxn, Stack>, unresolved: map<Fxn, set<string>>, done: seq<Fxn>)
    requires WInv(g, wcs, unresolved, done)
    ensures forall f :: f in done ==> f in wcs && wcs[f].Bytes? && f in unresolved
  {
    forall f | f in done
      ensures f in wcs && wcs[f].Bytes? && f in unresolved
    {
      var i :| 0 <= i < |done| && done[i] == f;
      assert Settled(g, wcs, unresolved, done, i);
    }
  }

  /** Adding to the names of a function that has no result yet. */
  lemma AddNames(g: Graph, wcs: map<Fxn, Stack>, unresolved: map<Fxn, set<string>>, done: seq<Fxn>, f: Fxn,
                 names: set<string>)
    requires WInv(g, wcs, unresolved, done) && f < |g.calls| && f !in wcs
    ensures WInv(g, wcs, unresolved[f := names], done)
  {
    var u := unresolved[f := names];
    AllSettled(g, wcs, unresolved, done);
    forall i: nat | i < |done|
      ensures Settled(g, wcs, u, done, i)
    {
      SettledFrame(g, wcs, unresolved, wcs, u, done, i);
    }
  }

  lemma Finish(g: Graph, wcs: map<Fxn, Stack>, unresolved: map<Fxn, set<string>>, done: seq<Fxn>, f: Fxn)
    requires WInv(g, wcs, unresolved, done) && f < |g.calls| && f !in wcs && !g.ptrCall[f] && AllIn(g.calls[f], done)
    requires unresolved[f] == Gathered(g.own[f], unresolved, g.calls[f])
    ensures WInv(g, wcs[f := Bytes(CallMax(wcs, g.calls[f]) + g.local[f])], unresolved, done + [f])
  {
    var w, d := wcs[f := Bytes(CallMax(wcs, g.calls[f]) + g.local[f])], done + [f];
    AllSettled(g, wcs, unresolved, done);
    assert forall k :: 0 <= k < |g.calls[f]| ==> g.calls[f][k] in done;
    CallMaxFrame(wcs, w, g.calls[f]);
    forall i: nat | i < |d|
      ensures Settled(g, w, unresolved, d, i)
    {
      if i < |done| {
        SettledFrame(g, wcs, unresolved, w, unresolved, done, i);
        assert d[..i] == done[..i];
      } else {
        assert d[..i] == done;
      }
    }
  }

  lemma ManualSettled(g: Graph, manual: seq<Fxn>)
    requires WellFormed(g) && NoDup(manual)
    requires forall f :: f in manual ==> f < |g.calls| && g.calls[f] == [] && !g.ptrCall[f]
    ensures WInv(g, map f | f in manual :: Bytes(g.local[f]), map f: Fxn | 0 <= f < |g.calls| :: g.own[f], manual)
  {
    var w, u := map f | f in manual :: Bytes(g.local[f]), map f: Fxn | 0 <= f < |g.calls| :: g.own[f];
    forall i: nat | i < |manual|
      ensures Settled(g, w, u, manual, i)
    {
      assert manual[i] in manual;
    }
  }

  /** Results are never changed, and the names of functions in progress are left alone. */
  ghost predicate Grown(wcs: map<Fxn, Stack>, unresolved: map<Fxn, set<string>>, newWcs: map<Fxn, Stack>,
                        newUnresolved: map<Fxn, set<string>>, parents: seq<Fxn>)
  {
    && (forall x :: x in wcs ==> x in newWcs && newWcs[x] == wcs[x])
    && (forall x :: (x in wcs || x in parents) && x in unresolved ==>
          x in newUnresolved && newUnresolved[x] == unresolved[x])
  }

  /** A search that began after the calls `cs` had been dealt with leaves what they add up to. */
  lemma AfterVisit(g: Graph, wcs: map<Fxn, Stack>, unresolved: map<Fxn, set<string>>, done: seq<Fxn>,
                   newWcs: map<Fxn, Stack>, newUnresolved: map<Fxn, set<string>>, newDone: seq<Fxn>,
                   parents: seq<Fxn>, cs: seq<Fxn>, own: set<string>)
    requires WInv(g, wcs, unresolved, done) && WInv(g, newWcs, newUnresolved, newDone) && AllIn(cs, done)
    requires Grown(wcs, unresolved, newWcs, newUnresolved, parents)
    ensures AllIn(cs, newDone) && CallMax(newWcs, cs) == CallMax(wcs, cs)
    ensures Gathered(own, newUnresolved, cs) == Gathered(own, unresolved, cs)
  {
    AllSettled(g, wcs, unresolved, done);
    CallMaxFrame(wcs, newWcs, cs);
    GatheredFrame(own, unresolved, newUnresolved, cs);
  }

  lemma AllExact(g: Graph, wcs: map<Fxn, Stack>, unresolved: map<Fxn, set<string>>, done: seq<Fxn>)
    requires WInv(g, wcs, unresolved, done)
    ensures forall f :: f in wcs ==> Exact(g, wcs, unresolved, f)
  {
    forall f | f in wcs
      ensures Exact(g, wcs, unresolved, f)
    {
      ResultIsExact(g, wcs, unresolved, done, f);
    }
  }

  lemma GrownTrans(a: map<Fxn, Stack>, x: map<Fxn, set<string>>, b: map<Fxn, Stack>, y: map<Fxn, set<string>>,
                   c: map<Fxn, Stack>, z: map<Fxn, set<string>>, parents: seq<Fxn>)
    requires Grown(a, x, b, y, parents) && Grown(b, y, c, z, parents)
    ensures Grown(a, x, c, z, parents)
  {
  }

  class Analysis {
    const g: Graph
    var wcs: map<Fxn, Stack>
    var unresolved: map<Fxn, set<string>>

    /** The functions with a number of bytes, in the order in which they got it. */
    ghost var done: seq<Fxn>

    ghost predicate Valid()
      reads this
    {
      WInv(g, wcs, unresolved, done)
    }

    /** Functions that are not being searched have only their own names. */
    ghost predicate Unstarted(parents: seq<Fxn>)
      requires WellFormed(g)
      reads this
    {
      forall f: Fxn :: f < |g.calls| && f !in wcs && f !in parents ==> f in unresolved && unresolved[f] == g.own[f]
    }

    /** After `resolve_all_calls`; the functions of manual files come with their result. */
    constructor (graph: Graph, manual: seq<Fxn>)
      requires WellFormed(graph) && NoDup(manual)
      requires forall f :: f in manual ==> f < |graph.calls| && graph.calls[f] == [] && !graph.ptrCall[f]
      ensures Valid() && Unstarted([]) && g == graph && done == manual
    {
      g := graph;
      wcs := map f | f in manual :: Bytes(graph.local[f]);
      unresolved := map f: Fxn | 0 <= f < |graph.calls| :: graph.own[f];
      done := manual;
      new;
      ManualSettled(g, manual);
    }

    /** The functions whose searches are in progress call each other in turn, and the last of them calls f. */
    ghost predicate Chained(parents: seq<Fxn>, f: Fxn)
      reads this
    {
      && f < |g.calls| && NoDup(parents) && (forall x :: x in parents ==> x < |g.calls| && x !in wcs)
      && (parents != [] ==> Path(g, parents) && Edge(g, parents[|parents| - 1], f))
    }

    method Mark(f: Fxn)
      requires Valid() && f < |g.calls| && (f in wcs ==> wcs[f].Unbounded?) && Bad(g, f)
      modifies this`wcs
      ensures Valid() && wcs == old(wcs)[f := Unbounded]
    {
      AllSettled(g, wcs, unresolved, done);
      MarkUnbounded(g, wcs, unresolved, done, f);
      wcs := wcs[f := Unbounded];
    }

    method Store(f: Fxn, callMax: nat)
      requires Valid() && f < |g.calls| && f !in wcs && !g.ptrCall[f] && AllIn(g.calls[f], done)
      requires unresolved[f] == Gathered(g.own[f], unresolved, g.calls[f]) && callMax == CallMax(wcs, g.calls[f])
      modifies this`wcs, this`done
      ensures Valid() && wcs == old(wcs)[f := Bytes(callMax + g.local[f])]
    {
      Finish(g, wcs, unresolved, done, f);
      wcs := wcs[f := Bytes(callMax + g.local[f])];
      done := done + [f];
    }

    /** A call from f that turned out bounded: what is known about the first k calls, and this one. */
    method Propagate(f: Fxn, k: nat, callMax: nat) returns (newMax: nat)
      requires Valid() && f < |g.calls| && f !in wcs && k < |g.calls[f]|
      requires g.calls[f][k] in wcs && wcs[g.calls[f][k]].Bytes?
      requires AllIn(g.calls[f][..k], done) && callMax == CallMax(wcs, g.calls[f][..k])
      requires unresolved[f] == Gathered(g.own[f], unresolved, g.calls[f][..k])
      modifies this`unresolved
      ensures Valid() && AllIn(g.calls[f][..k + 1], done) && newMax == CallMax(wcs, g.calls[f][..k + 1])
      ensures unresolved == old(unresolved)[f := unresolved[f]]
      ensures unresolved[f] == Gathered(g.own[f], unresolved, g.calls[f][..k + 1])
    {
      var cs, c := g.calls[f], g.calls[f][k];
      ghost var was := unresolved;
      AllSettled(g, wcs, unresolved, done);
      assert cs[..k + 1][..k] == cs[..k] && cs[..k + 1][k] == c;
      newMax := Max(callMax, wcs[c].n);
      var names := unresolved[f] + unresolved[c];
      AddNames(g, wcs, unresolved, done, f, names);
      unresolved := unresolved[f := names];
      assert forall j :: 0 <= j < k + 1 ==> cs[..k + 1][j] == cs[j] && cs[j] in done && cs[j] != f by {
        assert forall j :: 0 <= j < k ==> cs[..k][j] in done;
      }
      GatheredFrame(g.own[f], was, unresolved, cs[..k + 1]);
    }

    /** One more caller on the chain; the chain has no repetitions, so it cannot grow for ever. */
    lemma ChainGrows(parents: seq<Fxn>, f: Fxn, c: Fxn)
      requires WellFormed(g) && Chained(parents, f) && f !in parents && f !in wcs && c in g.calls[f]
      ensures Chained(parents + [f], c) && |parents| < |g.calls|
    {
      var p := parents + [f];
      forall i: nat | i < |p| - 1
        ensures Edge(g, p[i], p[i + 1])
      {
        if i < |parents| - 1 {
          assert Edge(g, parents[i], parents[i + 1]);
        }
      }
      Pigeonhole(p, |g.calls|);
    }

    /** `calc_wcs`. */
    method CalcWcs(f: Fxn, parents: seq<Fxn>)
      requires Valid() && Chained(parents, f) && Unstarted(parents)
      modifies this
      ensures Valid() && Unstarted(parents) && f in wcs
      ensures Grown(old(wcs), old(unresolved), wcs, unresolved, parents)
      ensures forall x :: x in parents && x in wcs ==> wcs[x].Unbounded? && wcs[f].Unbounded?
      decreases |g.calls| - |parents|, 2
    {
      if f in wcs {
        return;
      }
      if g.ptrCall[f] {
        BadSelf(g, f);
        Mark(f);
        return;
      }
      if f in parents {
        var i :| 0 <= i < |parents| && parents[i] == f;
        ChainCloses(g, parents, i);
        BadSelf(g, f);
        Mark(f);
        return;
      }
      Search(f, parents);
    }

    /** The first k calls of f have been dealt with, and none was unbounded. */
    ghost predicate Searching(f: Fxn, parents: seq<Fxn>, k: nat, callMax: nat)
      reads this
    {
      && Valid() && Chained(parents, f) && Unstarted(parents + [f]) && f !in wcs && f !in parents && !g.ptrCall[f]
      && k <= |g.calls[f]| && AllIn(g.calls[f][..k], done) && callMax == CallMax(wcs, g.calls[f][..k])
      && unresolved[f] == Gathered(g.own[f], unresolved, g.calls[f][..k])
    }

    /** The loop over the calls of f, and what follows it. */
    method Search(f: Fxn, parents: seq<Fxn>)
      requires Valid() && Chained(parents, f) && Unstarted(parents) && f !in wcs && f !in parents && !g.ptrCall[f]
      modifies this
      ensures Valid() && Unstarted(parents) && f in wcs
      ensures Grown(old(wcs), old(unresolved), wcs, unresolved, parents)
      ensures forall x :: x in parents && x in wcs ==> wcs[x].Unbounded? && wcs[f].Unbounded?
      decreases |g.calls| - |parents|, 1
    {
      var callMax, k := 0, 0;
      while k < |g.calls[f]|
        invariant Searching(f, parents, k, callMax)
        invariant Grown(old(wcs), old(unresolved), wcs, unresolved, parents)
      {
        ghost var w, u := wcs, unresolved;
        var bounded, newMax := VisitCall(f, parents, k, callMax);
        GrownTrans(old(wcs), old(unresolved), w, u, wcs, unresolved, parents);
        if !bounded {
          return;
        }
        callMax := newMax;
        k := k + 1;
      }
      assert g.calls[f][..k] == g.calls[f];
      Store(f, callMax);
    }

    method VisitCall(f: Fxn, parents: seq<Fxn>, k: nat, callMax: nat) returns (bounded: bool, newMax: nat)
      requires Searching(f, parents, k, callMax) && k < |g.calls[f]|
      modifies this
      ensures bounded ==> Searching(f, parents, k + 1, newMax)
      ensures !bounded ==> Valid() && Unstarted(parents) && f in wcs && wcs[f].Unbounded?
      ensures forall x :: x in parents && x in wcs ==> wcs[x].Unbounded? && !bounded
      ensures Grown(old(wcs), old(unresolved), wcs, unresolved, parents)
      decreases |g.calls| - |parents|, 0
    {
      var c := g.calls[f][k];
      ChainGrows(parents, f, c);
      CalcWcs(c, parents + [f]);
      if wcs[c].Unbounded? {
        BadThrough(g, f, c);
        Mark(f);
        return false, 0;
      }
      assert f in parents + [f];
      AfterVisit(g, old(wcs), old(unresolved), old(done), wcs, unresolved, done, parents + [f], g.calls[f][..k],
          g.own[f]);
      newMax := Propagate(f, k, callMax);
      bounded := true;
    }

    method SearchFrom(f: Fxn)
      requires Valid() && Unstarted([]) && f < |g.calls|
      modifies this
      ensures Valid() && Unstarted([]) && f in wcs && old(wcs).Keys <= wcs.Keys
    {
      CalcWcs(f, []);
    }

    method SearchAll(order: seq<Fxn>)
      requires Valid() && Unstarted([]) && forall f :: f in order ==> f < |g.calls|
      modifies this
      ensures Valid() && forall f :: f in order ==> f in wcs
    {
      var i := 0;
      while i < |order|
        invariant i <= |order| && Valid() && Unstarted([])
        invariant forall f :: f in order[..i] ==> f in wcs.Keys
      {
        assert order[i] in order && order[..i + 1] == order[..i] + [order[i]];
        SearchFrom(order[i]);
        i := i + 1;
      }
      assert order[..i] == order;
    }

    /** `calc_all_wcs`, over the functions in any order. */
    method CalcAll(order: seq<Fxn>)
      requires Valid() && Unstarted([]) && forall f :: f in order ==> f < |g.calls|
      modifies this
      ensures Valid() && forall f :: f in order ==> Exact(g, wcs, unresolved, f)
    {
      SearchAll(order);
      AllExact(g, wcs, unresolved, done);
    }
  }
}
