/** The free pages of `slab.c` as a list of runs: what `rt_page_alloc` and `rt_page_free` do to it. */
module PageRuns {

  /** `len` free pages from page `start` on. */
  datatype Run = Run(start: nat, len: nat) {
    function End(): nat {
      start + len
    }
  }

  predicate In(run: Run, p: nat) {
    run.start <= p < run.End()
  }

  ghost predicate Has(runs: seq<Run>, p: nat) {
    exists i :: 0 <= i < |runs| && In(runs[i], p)
  }

  /** All of the pages from `at` on, `n` of them, are free. */
  ghost predicate HasAll(runs: seq<Run>, at: nat, n: nat) {
    forall p: nat :: at <= p < at + n ==> Has(runs, p)
  }

  /** Sorted by address, disjoint, and coalesced as far as possible: between two runs there is a gap. */
  ghost predicate Canonical(runs: seq<Run>) {
    && (forall i :: 0 <= i < |runs| ==> runs[i].len > 0)
    && (forall i, j :: 0 <= i < j < |runs| ==> runs[i].End() < runs[j].start)
  }

  // ---------- rt_page_alloc ----------

  /** The first run from position i on with room for n pages. */
  function FirstFit(runs: seq<Run>, n: nat, i: nat): (k: nat)
    requires i <= |runs|
    ensures i <= k <= |runs| && (k < |runs| ==> runs[k].len >= n)
    ensures forall j :: i <= j < k ==> runs[j].len < n
    decreases |runs| - i
  {
    if i == |runs| || runs[i].len >= n then i else FirstFit(runs, n, i + 1)
  }

  datatype Address = Null | Page(p: nat)

  function Taken(runs: seq<Run>, k: nat, n: nat): seq<Run>
    requires k < |runs| && runs[k].len >= n
  {
    if runs[k].len > n then runs[k := Run(runs[k].start + n, runs[k].len - n)] else runs[..k] + runs[k + 1..]
  }

  function Alloc(runs: seq<Run>, n: nat): (seq<Run>, Address) {
    var k := FirstFit(runs, n, 0);
    if n == 0 || k == |runs| then (runs, Null) else (Taken(runs, k, n), Page(runs[k].start))
  }

  // ---------- rt_page_free ----------

  /** Where the walk of `rt_page_free` ends: at a run that ends at the freed pages, or begins right after
      them, or lies beyond them. */
  function Slot(runs: seq<Run>, at: nat, n: nat, i: nat): (k: nat)
    requires i <= |runs|
    ensures i <= k <= |runs|
    ensures k < |runs| ==> runs[k].End() == at || runs[k].start >= at + n
    ensures forall j :: i <= j < k ==> runs[j].End() != at && runs[j].start < at + n
    decreases |runs| - i
  {
    if i == |runs| || runs[i].End() == at || runs[i].start >= at + n then i else Slot(runs, at, n, i + 1)
  }

  /** The place of the freed pages: behind every run that ends before them. */
  function Behind(runs: seq<Run>, at: nat, n: nat): (k: nat)
    ensures k <= |runs|
  {
    var k := Slot(runs, at, n, 0);
    if k < |runs| && runs[k].End() == at then k + 1 else k
  }

  /** A run put into a gap. */
  function Inserted(runs: seq<Run>, k: nat, run: Run): seq<Run>
    requires k <= |runs|
  {
    runs[..k] + [run] + runs[k..]
  }

  /** Run k and the run after it made one. */
  function Joined(runs: seq<Run>, k: nat): seq<Run>
    requires k + 1 < |runs|
  {
    runs[..k] + [Run(runs[k].start, runs[k].len + runs[k + 1].len)] + runs[k + 2..]
  }

  predicate Touches(runs: seq<Run>, k: nat) {
    k + 1 < |runs| && runs[k].End() == runs[k + 1].start
  }

  function JoinedAt(runs: seq<Run>, k: nat): seq<Run> {
    if Touches(runs, k) then Joined(runs, k) else runs
  }

  /** The freed pages become a run, which is joined with the run behind it and the run in front of it where
      they touch. */
  function Free(runs: seq<Run>, at: nat, n: nat): seq<Run> {
    var k := Behind(runs, at, n);
    var q := JoinedAt(Inserted(runs, k, Run(at, n)), k);
    if k > 0 then JoinedAt(q, k - 1) else q
  }

  // ---------- the list is determined by the set of free pages ----------

  lemma HasTail(runs: seq<Run>, p: nat)
    requires Canonical(runs) && runs != []
    ensures Has(runs[1..], p) <==> Has(runs, p) && p >= runs[0].End()
  {
    var t := runs[1..];
    if Has(t, p) {
      var i :| 0 <= i < |t| && In(t[i], p);
      assert In(runs[i + 1], p) && runs[0].End() < runs[i + 1].start;
    }
    if Has(runs, p) && p >= runs[0].End() {
      var i :| 0 <= i < |runs| && In(runs[i], p);
      assert i > 0;
      assert In(t[i - 1], p);
    }
  }

  /** The first run begins at the lowest free page, and ends at the first page after it that is not free. */
  lemma FirstRun(runs: seq<Run>, p: nat)
    requires Canonical(runs) && runs != []
    ensures Has(runs, runs[0].start) && !Has(runs, runs[0].End())
    ensures p < runs[0].start ==> !Has(runs, p)
    ensures runs[0].start <= p < runs[0].End() ==> Has(runs, p)
  {
    assert In(runs[0], runs[0].start);
    if runs[0].start <= p < runs[0].End() {
      assert In(runs[0], p);
    }
    assert forall i :: 0 < i < |runs| ==> runs[0].End() < runs[i].start;
  }

  lemma SameFirstRun(a: seq<Run>, b: seq<Run>)
    requires Canonical(a) && Canonical(b) && a != [] && b != [] && forall p: nat :: Has(a, p) <==> Has(b, p)
    ensures a[0] == b[0]
  {
    FirstRun(a, b[0].start);
    FirstRun(b, a[0].start);
    assert a[0].start == b[0].start;
    FirstRun(a, b[0].End());
    FirstRun(b, a[0].End());
  }

  /** Two canonical lists with the same free pages are the same list. */
  lemma {:induction false} SamePagesSameRuns(a: seq<Run>, b: seq<Run>)
    requires Canonical(a) && Canonical(b) && forall p: nat :: Has(a, p) <==> Has(b, p)
    ensures a == b
    decreases |a|
  {
    if a == [] {
      if b != [] {
        FirstRun(b, 0);
      }
    } else {
      FirstRun(a, 0);
      assert b != [];
      SameFirstRun(a, b);
      forall p: nat
        ensures Has(a[1..], p) <==> Has(b[1..], p)
      {
        HasTail(a, p);
        HasTail(b, p);
      }
      SamePagesSameRuns(a[1..], b[1..]);
      assert a == [a[0]] + a[1..] && b == [b[0]] + b[1..];
    }
  }

  // ---------- what the operations do to the free pages ----------

  lemma TakenCanonical(runs: seq<Run>, k: nat, n: nat)
    requires Canonical(runs) && k < |runs| && runs[k].len >= n > 0
    ensures Canonical(Taken(runs, k, n))
  {
  }

  /** No two runs share a page. */
  lemma OneRun(runs: seq<Run>, i: nat, j: nat, p: nat)
    requires Canonical(runs) && i < |runs| && j < |runs| && i != j && In(runs[i], p)
    ensures !In(runs[j], p)
  {
  }

  /** The start of run k is cut off by n pages. */
  lemma CutPages(runs: seq<Run>, k: nat, n: nat, p: nat)
    requires Canonical(runs) && k < |runs| && runs[k].len > n > 0
    ensures Has(runs[k := Run(runs[k].start + n, runs[k].len - n)], p) <==>
            Has(runs, p) && !(runs[k].start <= p < runs[k].start + n)
  {
    var r := runs[k := Run(runs[k].start + n, runs[k].len - n)];
    if Has(runs, p) && !(runs[k].start <= p < runs[k].start + n) {
      var j :| 0 <= j < |runs| && In(runs[j], p);
      assert In(r[j], p);
    }
    if Has(r, p) {
      var j: nat :| j < |r| && In(r[j], p);
      assert In(runs[j], p);
      if j != k {
        OneRun(runs, j, k, p);
      }
    }
  }

  lemma InsertedIndex(runs: seq<Run>, k: nat, run: Run, i: nat)
    requires k <= |runs| && i <= |runs|
    ensures Inserted(runs, k, run)[i] == if i < k then runs[i] else if i == k then run else runs[i - 1]
  {
  }

  lemma InsertedPages(runs: seq<Run>, k: nat, run: Run, p: nat)
    requires k <= |runs|
    ensures Has(Inserted(runs, k, run), p) <==> Has(runs, p) || In(run, p)
  {
    var r := Inserted(runs, k, run);
    assert r[k] == run;
    if Has(runs, p) {
      var i :| 0 <= i < |runs| && In(runs[i], p);
      assert In(r[if i < k then i else i + 1], p);
    }
    if Has(r, p) {
      var j :| 0 <= j < |r| && In(r[j], p);
      if j != k {
        assert In(runs[if j < k then j else j - 1], p);
      }
    }
  }

  /** Run k is taken out. */
  lemma DroppedPages(runs: seq<Run>, k: nat, p: nat)
    requires Canonical(runs) && k < |runs|
    ensures Has(runs[..k] + runs[k + 1..], p) <==> Has(runs, p) && !In(runs[k], p)
  {
    var r := runs[..k] + runs[k + 1..];
    var q := Inserted(r, k, runs[k]);
    InsertedPages(r, k, runs[k], p);
    assert q == runs;
    if Has(r, p) {
      var j: nat :| j < |r| && In(r[j], p);
      var i := if j < k then j else j + 1;
      InsertedIndex(r, k, runs[k], i);
      assert q[i] == r[j];
      OneRun(runs, i, k, p);
    }
  }

  /** Exactly the pages of the allocation are not free any more, and they were. */
  lemma TakenPages(runs: seq<Run>, k: nat, n: nat, p: nat)
    requires Canonical(runs) && k < |runs| && runs[k].len >= n > 0
    ensures Has(Taken(runs, k, n), p) <==> Has(runs, p) && !(runs[k].start <= p < runs[k].start + n)
    ensures runs[k].start <= p < runs[k].start + n ==> Has(runs, p)
  {
    if runs[k].start <= p < runs[k].start + n {
      assert In(runs[k], p);
    }
    if runs[k].len > n {
      CutPages(runs, k, n, p);
    } else {
      DroppedPages(runs, k, p);
    }
  }

  /** The page after a run is not free. */
  lemma GapAfter(runs: seq<Run>, i: nat)
    requires Canonical(runs) && i < |runs|
    ensures !Has(runs, runs[i].End())
  {
    assert forall j :: 0 <= j < i ==> runs[j].End() < runs[i].start;
    assert forall j :: i < j < |runs| ==> runs[i].End() < runs[j].start;
  }

  /** A stretch of free pages lies in one run. */
  lemma InOneRun(runs: seq<Run>, at: nat, n: nat, i: nat)
    requires Canonical(runs) && i < |runs| && In(runs[i], at) && n > 0 && HasAll(runs, at, n)
    ensures at + n <= runs[i].End()
  {
    GapAfter(runs, i);
  }

  /** `rt_page_alloc` takes the lowest stretch of n free pages there is; it fails exactly when there is none. */
  lemma AllocIsLowest(runs: seq<Run>, n: nat, x: nat)
    requires Canonical(runs) && n > 0
    ensures var (r, a) := Alloc(runs, n);
            && Canonical(r)
            && (a.Null? ==> r == runs && !HasAll(runs, x, n))
            && (a.Page? ==>
                  && HasAll(runs, a.p, n) && (HasAll(runs, x, n) ==> a.p <= x)
                  && forall p: nat :: Has(r, p) <==> Has(runs, p) && !(a.p <= p < a.p + n))
  {
    var k := FirstFit(runs, n, 0);
    if HasAll(runs, x, n) {
      assert Has(runs, x);
      var i :| 0 <= i < |runs| && In(runs[i], x);
      InOneRun(runs, x, n, i);
      assert k <= i;
      assert k < i ==> runs[k].End() < runs[i].start;
    }
    if k < |runs| {
      TakenCanonical(runs, k, n);
      forall p: nat
        ensures Has(Taken(runs, k, n), p) <==> Has(runs, p) && !(runs[k].start <= p < runs[k].start + n)
        ensures runs[k].start <= p < runs[k].start + n ==> Has(runs, p)
      {
        TakenPages(runs, k, n, p);
      }
    }
  }

  // ---------- freeing ----------

  /** The pages to be freed are not free. */
  ghost predicate NoneFree(runs: seq<Run>, at: nat, n: nat) {
    forall p: nat :: at <= p < at + n ==> !Has(runs, p)
  }

  /** So every run lies before them or behind them. */
  lemma Aside(runs: seq<Run>, at: nat, n: nat, i: nat)
    requires Canonical(runs) && NoneFree(runs, at, n) && n > 0 && i < |runs|
    ensures runs[i].End() <= at || runs[i].start >= at + n
  {
    HasRun(runs, i, runs[i].start);
    if runs[i].start <= at < runs[i].End() {
      HasRun(runs, i, at);
    }
  }

  lemma HasRun(runs: seq<Run>, i: nat, p: nat)
    requires i < |runs| && In(runs[i], p)
    ensures Has(runs, p)
  {
  }

  /** The runs in front of the slot end before the freed pages, with a gap; those behind it begin after them. */
  lemma SlotSplits(runs: seq<Run>, at: nat, n: nat)
    requires Canonical(runs) && NoneFree(runs, at, n) && n > 0
    ensures var k := Slot(runs, at, n, 0);
            && (forall j :: 0 <= j < k ==> runs[j].End() < at)
            && (forall j :: k < j < |runs| ==> runs[j].start >= at + n)
            && (k < |runs| && runs[k].End() != at ==> runs[k].start >= at + n)
  {
    var k := Slot(runs, at, n, 0);
    forall j: nat | j < |runs|
      ensures j < k ==> runs[j].End() < at
      ensures k < j ==> runs[j].start >= at + n
    {
      Aside(runs, at, n, j);
      if k < j {
        assert runs[k].End() < runs[j].start;
      }
    }
  }

  lemma JoinedPages(runs: seq<Run>, k: nat, p: nat)
    ensures Has(JoinedAt(runs, k), p) <==> Has(runs, p)
  {
    if Touches(runs, k) {
      var a, b := runs[..k], runs[k + 2..];
      var one := Run(runs[k].start, runs[k].len + runs[k + 1].len);
      assert Joined(runs, k) == Inserted(a + b, k, one);
      InsertedPages(a + b, k, one, p);
      assert runs == Inserted(Inserted(a + b, k, runs[k + 1]), k, runs[k]);
      InsertedPages(a + b, k, runs[k + 1], p);
      InsertedPages(Inserted(a + b, k, runs[k + 1]), k, runs[k], p);
    }
  }

  ghost predicate Apart(runs: seq<Run>, i: nat)
    requires i + 1 < |runs|
  {
    runs[i].End() < runs[i + 1].start
  }

  /** Canonical as far as neighbours go, except that the run at position k may touch the run in front of it, if
      `left`, and the run behind it, if `right`. */
  ghost predicate Loose(runs: seq<Run>, k: nat, left: bool, right: bool) {
    && (forall i :: 0 <= i < |runs| ==> runs[i].len > 0)
    && (forall i: nat :: i + 1 < |runs| ==>
          Apart(runs, i) || (runs[i].End() == runs[i + 1].start && ((left && i + 1 == k) || (right && i == k))))
  }

  lemma InsertedLoose(runs: seq<Run>, k: nat, run: Run)
    requires Canonical(runs) && k <= |runs| && run.len > 0
    requires k > 0 ==> runs[k - 1].End() <= run.start
    requires k < |runs| ==> run.End() <= runs[k].start
    ensures Loose(Inserted(runs, k, run), k, true, true)
  {
    var r := Inserted(runs, k, run);
    forall i: nat | i < |r|
      ensures r[i].len > 0
    {
      InsertedIndex(runs, k, run, i);
    }
    forall i: nat | i + 1 < |r|
      ensures Apart(r, i) || (r[i].End() == r[i + 1].start && (i + 1 == k || i == k))
    {
      InsertedIndex(runs, k, run, i);
      InsertedIndex(runs, k, run, i + 1);
    }
  }

  lemma RightLoose(runs: seq<Run>, k: nat)
    requires Loose(runs, k, true, true) && k < |runs|
    ensures var r := JoinedAt(runs, k); k < |r| && Loose(r, k, true, false)
  {
    var r := JoinedAt(runs, k);
    forall i: nat | i + 1 < |r|
      ensures Apart(r, i) || (r[i].End() == r[i + 1].start && i + 1 == k)
    {
      assert Apart(runs, i) || (runs[i].End() == runs[i + 1].start && (i + 1 == k || i == k));
      if Touches(runs, k) && i >= k {
        assert Apart(runs, i + 1);
      }
    }
  }

  lemma LeftLoose(runs: seq<Run>, k: nat)
    requires Loose(runs, k + 1, true, false) && k + 1 < |runs|
    ensures Loose(JoinedAt(runs, k), k, false, false)
  {
    var r := JoinedAt(runs, k);
    forall i: nat | i + 1 < |r|
      ensures Apart(r, i)
    {
      assert Apart(runs, i) || (runs[i].End() == runs[i + 1].start && i == k);
      if Touches(runs, k) && i >= k {
        assert Apart(runs, i + 1);
      }
    }
  }

  lemma {:induction false} LooseOrdered(runs: seq<Run>, k: nat, i: nat, j: nat)
    requires Loose(runs, k, false, false) && i < j < |runs|
    ensures runs[i].End() < runs[j].start
    decreases j
  {
    assert Apart(runs, j - 1);
    if i < j - 1 {
      LooseOrdered(runs, k, i, j - 1);
    }
  }

  lemma LooseCanonical(runs: seq<Run>, k: nat)
    requires Loose(runs, k, false, false)
    ensures Canonical(runs)
  {
    forall i: nat, j: nat | i < j < |runs|
      ensures runs[i].End() < runs[j].start
    {
      LooseOrdered(runs, k, i, j);
    }
  }

  lemma FreeCanonical(runs: seq<Run>, at: nat, n: nat)
    requires Canonical(runs) && NoneFree(runs, at, n) && n > 0
    ensures Canonical(Free(runs, at, n))
  {
    var k := Behind(runs, at, n);
    SlotSplits(runs, at, n);
    InsertedLoose(runs, k, Run(at, n));
    RightLoose(Inserted(runs, k, Run(at, n)), k);
    var q := JoinedAt(Inserted(runs, k, Run(at, n)), k);
    if k > 0 {
      LeftLoose(q, k - 1);
      LooseCanonical(Free(runs, at, n), k - 1);
    } else {
      assert forall i: nat :: i + 1 < |q| ==> Apart(q, i);
      LooseCanonical(q, 0);
    }
  }

  /** `rt_page_free` adds exactly the named pages, and keeps the list canonical. */
  lemma FreeAdds(runs: seq<Run>, at: nat, n: nat)
    requires Canonical(runs) && NoneFree(runs, at, n) && n > 0
    ensures Canonical(Free(runs, at, n))
    ensures forall p: nat :: Has(Free(runs, at, n), p) <==> Has(runs, p) || at <= p < at + n
  {
    var k := Behind(runs, at, n);
    var q := Inserted(runs, k, Run(at, n));
    FreeCanonical(runs, at, n);
    forall p: nat
      ensures Has(Free(runs, at, n), p) <==> Has(runs, p) || at <= p < at + n
    {
      InsertedPages(runs, k, Run(at, n), p);
      JoinedPages(q, k, p);
      if k > 0 {
        JoinedPages(JoinedAt(q, k), k - 1, p);
      }
    }
  }

  /** Freeing what has just been allocated restores the list exactly. */
  lemma AllocFreeRestores(runs: seq<Run>, n: nat)
    requires Canonical(runs) && n > 0 && Alloc(runs, n).1.Page?
    ensures Free(Alloc(runs, n).0, Alloc(runs, n).1.p, n) == runs
  {
    AllocIsLowest(runs, n, 0);
    var (r, a) := Alloc(runs, n);
    FreeAdds(r, a.p, n);
    SamePagesSameRuns(Free(r, a.p, n), runs);
  }

  /** The order in which two stretches are freed makes no difference to the list. */
  lemma FreesCommute(runs: seq<Run>, a: nat, m: nat, b: nat, n: nat)
    requires Canonical(runs) && NoneFree(runs, a, m) && NoneFree(runs, b, n) && m > 0 && n > 0
    requires a + m <= b || b + n <= a
    ensures Free(Free(runs, a, m), b, n) == Free(Free(runs, b, n), a, m)
  {
    FreeAdds(runs, a, m);
    FreeAdds(runs, b, n);
    FreeAdds(Free(runs, a, m), b, n);
    FreeAdds(Free(runs, b, n), a, m);
    SamePagesSameRuns(Free(Free(runs, a, m), b, n), Free(Free(runs, b, n), a, m));
  }
}
