/** The page allocator of `slab.c` over whole runs: what has been handed out and what is free share the heap. */
module PageLedger {
  import opened PageRuns

  /** The page list, and the blocks of pages that are handed out: first page and number of pages. */
  datatype Ledger = Ledger(runs: seq<Run>, held: map<nat, nat>)

  predicate Within(held: map<nat, nat>, b: nat, p: nat) {
    b in held && b <= p < b + held[b]
  }

  ghost predicate Covered(held: map<nat, nat>, p: nat) {
    exists b :: Within(held, b, p)
  }

  /** Each page of the heap is free or belongs to one block, never both. */
  ghost predicate Shared(l: Ledger, total: nat) {
    && Canonical(l.runs)
    && (forall b :: b in l.held ==> l.held[b] > 0)
    && (forall p: nat :: Has(l.runs, p) || Covered(l.held, p) ==> p < total)
    && (forall p: nat :: p < total ==> Has(l.runs, p) != Covered(l.held, p))
    && (forall a: nat, b: nat, p: nat :: Within(l.held, a, p) && Within(l.held, b, p) ==> a == b)
  }

  function Take(l: Ledger, n: nat): (Ledger, Address) {
    var (r, a) := Alloc(l.runs, n);
    if a.Page? then (Ledger(r, l.held[a.p := n]), a) else (l, Null)
  }

  function Give(l: Ledger, b: nat): Ledger
    requires b in l.held
  {
    Ledger(Free(l.runs, b, l.held[b]), l.held - {b})
  }

  /** A block of n pages on free pages. */
  lemma CoveredAfter(held: map<nat, nat>, b: nat, n: nat, p: nat)
    requires b !in held
    ensures Covered(held[b := n], p) <==> Covered(held, p) || b <= p < b + n
  {
    var h := held[b := n];
    if Covered(held, p) {
      var a :| Within(held, a, p);
      assert Within(h, a, p);
    }
    if b <= p < b + n {
      assert Within(h, b, p);
    }
    if Covered(h, p) {
      var a :| Within(h, a, p);
      assert a != b ==> Within(held, a, p);
    }
  }

  lemma FreshBlock(l: Ledger, total: nat, b: nat)
    requires Shared(l, total) && Has(l.runs, b)
    ensures b !in l.held
  {
    if b in l.held {
      assert Within(l.held, b, b);
    }
  }

  /** Two blocks share no page. */
  lemma BlocksApart(l: Ledger, total: nat, a: nat, b: nat)
    requires Shared(l, total) && a in l.held && b in l.held && a != b
    ensures a + l.held[a] <= b || b + l.held[b] <= a
  {
    if a <= b {
      assert Within(l.held, b, b);
      assert !Within(l.held, a, b);
    } else {
      assert Within(l.held, a, a);
      assert !Within(l.held, b, a);
    }
  }

  lemma BlockFits(l: Ledger, total: nat, b: nat)
    requires Shared(l, total) && b in l.held
    ensures b + l.held[b] <= total && NoneFree(l.runs, b, l.held[b])
  {
    var last: nat := b + l.held[b] - 1;
    assert Within(l.held, b, last) && Covered(l.held, last);
    forall p: nat | b <= p < b + l.held[b]
      ensures !Has(l.runs, p)
    {
      assert Within(l.held, b, p) && Covered(l.held, p);
    }
  }

  /** `rt_page_alloc` hands out pages that were free. */
  lemma TakeKeeps(l: Ledger, total: nat, n: nat)
    requires Shared(l, total)
    ensures var (m, a) := Take(l, n);
            Shared(m, total) && (a.Page? ==> n > 0 && a.p !in l.held && m.held == l.held[a.p := n])
                && (a.Null? ==> m == l)
  {
    var (m, a) := Take(l, n);
    if a.Page? {
      AllocIsLowest(l.runs, n, 0);
      FreshBlock(l, total, a.p);
      forall p: nat
        ensures Has(m.runs, p) || Covered(m.held, p) ==> p < total
        ensures p < total ==> Has(m.runs, p) != Covered(m.held, p)
      {
        CoveredAfter(l.held, a.p, n, p);
        assert a.p <= p < a.p + n ==> Has(l.runs, p);
      }
      forall b: nat, c: nat, p: nat | Within(m.held, b, p) && Within(m.held, c, p)
        ensures b == c
      {
        if a.p <= p < a.p + n {
          assert Has(l.runs, p) && !Covered(l.held, p);
          assert b != a.p ==> Within(l.held, b, p);
          assert c != a.p ==> Within(l.held, c, p);
        } else {
          assert Within(l.held, b, p) && Within(l.held, c, p);
        }
      }
    }
  }

  lemma CoveredWithout(l: Ledger, total: nat, b: nat, p: nat)
    requires Shared(l, total) && b in l.held
    ensures Covered(l.held - {b}, p) <==> Covered(l.held, p) && !(b <= p < b + l.held[b])
  {
    if Covered(l.held - {b}, p) {
      var a :| Within(l.held - {b}, a, p);
      assert Within(l.held, a, p);
      assert Within(l.held, b, p) ==> a == b;
    }
    if Covered(l.held, p) && !(b <= p < b + l.held[b]) {
      var a :| Within(l.held, a, p);
      assert Within(l.held - {b}, a, p);
    }
  }

  /** `rt_page_free` takes a block back. */
  lemma GiveKeeps(l: Ledger, total: nat, b: nat)
    requires Shared(l, total) && b in l.held
    ensures Shared(Give(l, b), total)
  {
    var m := Give(l, b);
    BlockFits(l, total, b);
    FreeAdds(l.runs, b, l.held[b]);
    forall p: nat
      ensures Covered(m.held, p) <==> Covered(l.held, p) && !(b <= p < b + l.held[b])
      ensures b <= p < b + l.held[b] ==> Covered(l.held, p)
    {
      CoveredWithout(l, total, b, p);
      assert b <= p < b + l.held[b] ==> Within(l.held, b, p);
    }
    forall a: nat, c: nat, p: nat | Within(m.held, a, p) && Within(m.held, c, p)
      ensures a == c
    {
      assert Within(l.held, a, p) && Within(l.held, c, p);
    }
  }

  /** The page list is determined by the blocks that are handed out: neither the order in which they were
      taken nor that in which others were given back has left a trace. */
  lemma HeldDetermines(a: Ledger, b: Ledger, total: nat)
    requires Shared(a, total) && Shared(b, total) && a.held == b.held
    ensures a == b
  {
    forall p: nat
      ensures Has(a.runs, p) <==> Has(b.runs, p)
    {
      assert Has(a.runs, p) ==> p < total;
      assert Has(b.runs, p) ==> p < total;
    }
    SamePagesSameRuns(a.runs, b.runs);
  }

  // ---------- runs ----------

  datatype PageOp = AllocPages(n: nat) | FreePages(b: nat)

  function After(l: Ledger, op: PageOp): Ledger {
    match op
    case AllocPages(n) => Take(l, n).0
    case FreePages(b) => if b in l.held then Give(l, b) else l
  }

  function AfterAll(l: Ledger, ops: seq<PageOp>): Ledger
    decreases |ops|
  {
    if ops == [] then l else After(AfterAll(l, ops[..|ops| - 1]), ops[|ops| - 1])
  }

  /** Every run that only frees what it has been given keeps the heap shared out. */
  lemma {:induction false} RunShares(l: Ledger, total: nat, ops: seq<PageOp>)
    requires Shared(l, total)
    ensures Shared(AfterAll(l, ops), total)
    decreases |ops|
  {
    if ops != [] {
      var m := AfterAll(l, ops[..|ops| - 1]);
      RunShares(l, total, ops[..|ops| - 1]);
      match ops[|ops| - 1]
      case AllocPages(n) => TakeKeeps(m, total, n);
      case FreePages(b) => if b in m.held { GiveKeeps(m, total, b); }
    }
  }

  /** Two runs that leave the same blocks handed out leave the same page list. */
  lemma RunsWithSameBlocks(l: Ledger, total: nat, a: seq<PageOp>, b: seq<PageOp>)
    requires Shared(l, total) && AfterAll(l, a).held == AfterAll(l, b).held
    ensures AfterAll(l, a) == AfterAll(l, b)
  {
    RunShares(l, total, a);
    RunShares(l, total, b);
    HeldDetermines(AfterAll(l, a), AfterAll(l, b), total);
  }

  /** `rt_page_init` frees all pages into an empty list. */
  lemma FreshHeap(total: nat)
    requires total > 0
    ensures Free([], 0, total) == [Run(0, total)] && Shared(Ledger([Run(0, total)], map[]), total)
  {
    var r := [Run(0, total)];
    assert Free([], 0, total) == r;
    forall p: nat
      ensures Has(r, p) <==> p < total
    {
      assert In(r[0], p) <==> p < total;
    }
  }
}
