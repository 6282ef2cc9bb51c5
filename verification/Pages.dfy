/** `rt_page_alloc` and `rt_page_free` of `slab.c` over the headers that sit in the free pages themselves. */
module Pages {
  import opened LinkedNodes
  import opened PageRuns

  /** From pointer `from`, the headers spell out `runs`, and the last of them points to `to`. */
  ghost predicate Spells(next: seq<int>, count: seq<nat>, from: int, runs: seq<Run>, to: int)
    decreases |runs|
  {
    if runs == [] then from == to
    else
      && from == runs[0].start && from < |next| == |count| && count[from] == runs[0].len
      && Spells(next, count, next[from], runs[1..], to)
  }

  ghost predicate NotStart(runs: seq<Run>, p: nat) {
    forall i :: 0 <= i < |runs| ==> runs[i].start != p
  }

  /** Headers of pages that start no run do not matter. */
  lemma {:induction false} SpellsFrame(next: seq<int>, count: seq<nat>, from: int, runs: seq<Run>, to: int, p: nat,
      x: int, c: nat)
    requires Spells(next, count, from, runs, to) && p < |next| == |count| && NotStart(runs, p)
    ensures Spells(next[p := x], count[p := c], from, runs, to)
    decreases |runs|
  {
    if runs != [] {
      SpellsFrame(next, count, next[from], runs[1..], to, p, x, c);
    }
  }

  lemma {:induction false} SpellsAppend(next: seq<int>, count: seq<nat>, from: int, a: seq<Run>, mid: int, b: seq<Run>,
      to: int)
    requires Spells(next, count, from, a, mid) && Spells(next, count, mid, b, to)
    ensures Spells(next, count, from, a + b, to)
    decreases |a|
  {
    if a == [] {
      assert a + b == b;
    } else {
      SpellsAppend(next, count, next[from], a[1..], mid, b, to);
      assert (a + b)[1..] == a[1..] + b;
    }
  }

  /** Turning the last link of a stretch to another page. */
  lemma {:induction false} SpellsRelink(next: seq<int>, count: seq<nat>, from: int, runs: seq<Run>, to: int, x: int)
    requires Spells(next, count, from, runs, to) && runs != [] && Canonical(runs)
    ensures runs[|runs| - 1].start < |next| && Spells(next[runs[|runs| - 1].start := x], count, from, runs, x)
    decreases |runs|
  {
    if |runs| == 1 {
      assert runs[1..] == [];
    } else {
      var last := runs[|runs| - 1].start;
      assert runs[1..][|runs[1..]| - 1] == runs[|runs| - 1];
      SpellsRelink(next, count, next[from], runs[1..], to, x);
    }
  }

  /** The last link of `runs[..i]`, or the list head. */
  function LastOf(runs: seq<Run>, i: nat): int
    requires i <= |runs|
  {
    if i == 0 then NIL else runs[i - 1].start
  }

  // ---------- the four outcomes of a free ----------

  lemma JoinedParts(a: seq<Run>, x: Run, y: Run, b: seq<Run>)
    ensures JoinedAt(a + [x, y] + b, |a|) == if x.End() == y.start then a + [Run(x.start, x.len + y.len)] + b
            else a + [x, y] + b
  {
    var q := a + [x, y] + b;
    assert q[|a|] == x && q[|a| + 1] == y && q[..|a|] == a && q[|a| + 2..] == b;
  }

  lemma InsertedAfter(runs: seq<Run>, k: nat, run: Run)
    requires k < |runs|
    ensures Inserted(runs, k + 1, run) == runs[..k] + [runs[k], run] + runs[k + 1..]
  {
  }

  lemma InsertedBetween(runs: seq<Run>, k: nat, run: Run)
    requires k + 1 < |runs|
    ensures Inserted(runs, k + 1, run) == (runs[..k] + [runs[k]]) + [run, runs[k + 1]] + runs[k + 2..]
  {
  }

  lemma Regroup(a: seq<Run>, x: Run, y: Run, b: seq<Run>)
    ensures (a + [x]) + [y] + b == a + [x, y] + b
  {
  }

  lemma NotJoined(runs: seq<Run>, k: nat, run: Run)
    requires k < |runs| && (k + 1 < |runs| ==> runs[k + 1].start != run.End())
    ensures JoinedAt(Inserted(runs, k + 1, run), k + 1) == Inserted(runs, k + 1, run)
  {
    InsertedIndex(runs, k + 1, run, k + 1);
    if k + 1 < |runs| {
      InsertedIndex(runs, k + 1, run, k + 2);
    }
  }

  /** The run in front grows, and does not reach the one behind. */
  lemma FreeExtends(runs: seq<Run>, at: nat, n: nat)
    requires var k := Slot(runs, at, n, 0);
             k < |runs| && runs[k].End() == at && (k + 1 < |runs| ==> runs[k + 1].start != at + n)
    ensures var k := Slot(runs, at, n, 0);
            Free(runs, at, n) == runs[..k] + [Run(runs[k].start, runs[k].len + n)] + runs[k + 1..]
  {
    var k := Slot(runs, at, n, 0);
    InsertedAfter(runs, k, Run(at, n));
    NotJoined(runs, k, Run(at, n));
    JoinedParts(runs[..k], runs[k], Run(at, n), runs[k + 1..]);
  }

  /** The run in front grows, and takes in the one behind. */
  lemma FreeBridges(runs: seq<Run>, at: nat, n: nat)
    requires var k := Slot(runs, at, n, 0);
             k + 1 < |runs| && runs[k].End() == at && runs[k + 1].start == at + n
    ensures var k := Slot(runs, at, n, 0);
            Free(runs, at, n) == runs[..k] + [Run(runs[k].start, runs[k].len + n + runs[k + 1].len)] + runs[k + 2..]
  {
    var k := Slot(runs, at, n, 0);
    var a, x, y, b := runs[..k], runs[k], runs[k + 1], runs[k + 2..];
    JoinedBehind(runs, k, Run(at, n));
    JoinedParts(a, x, Run(at, n + y.len), b);
  }

  lemma JoinedBehind(runs: seq<Run>, k: nat, run: Run)
    requires k + 1 < |runs| && run.End() == runs[k + 1].start
    ensures JoinedAt(Inserted(runs, k + 1, run), k + 1)
            == runs[..k] + [runs[k], Run(run.start, run.len + runs[k + 1].len)] + runs[k + 2..]
  {
    var a, x, y, b := runs[..k], runs[k], runs[k + 1], runs[k + 2..];
    InsertedBetween(runs, k, run);
    assert |a + [x]| == k + 1;
    JoinedParts(a + [x], run, y, b);
    Regroup(a, x, Run(run.start, run.len + y.len), b);
  }

  lemma InsertedBefore(runs: seq<Run>, k: nat, run: Run)
    requires k < |runs|
    ensures Inserted(runs, k, run) == runs[..k] + [run, runs[k]] + runs[k + 1..]
  {
  }

  /** The run behind grows towards the front; the one in front does not touch it. */
  lemma FreePrepends(runs: seq<Run>, at: nat, n: nat)
    requires var k := Slot(runs, at, n, 0); k < |runs| && runs[k].End() != at && runs[k].start == at + n
    ensures var k := Slot(runs, at, n, 0); Free(runs, at, n) == runs[..k] + [Run(at, n + runs[k].len)] + runs[k + 1..]
  {
    var k := Slot(runs, at, n, 0);
    JoinedInFront(runs, k, Run(at, n));
    NotJoinedInFront(runs[..k], Run(at, n + runs[k].len), runs[k + 1..]);
  }

  lemma JoinedInFront(runs: seq<Run>, k: nat, run: Run)
    requires k < |runs| && run.End() == runs[k].start
    ensures JoinedAt(Inserted(runs, k, run), k) == runs[..k] + [Run(run.start, run.len + runs[k].len)] + runs[k + 1..]
  {
    InsertedBefore(runs, k, run);
    JoinedParts(runs[..k], run, runs[k], runs[k + 1..]);
  }

  lemma NotJoinedInFront(a: seq<Run>, run: Run, b: seq<Run>)
    requires a != [] ==> a[|a| - 1].End() != run.start
    ensures a != [] ==> JoinedAt(a + [run] + b, |a| - 1) == a + [run] + b
  {
    var q := a + [run] + b;
    assert a != [] ==> q[|a| - 1] == a[|a| - 1] && q[|a|] == run;
  }

  lemma FreeInserts(runs: seq<Run>, at: nat, n: nat)
    requires var k := Slot(runs, at, n, 0); k == |runs| || (runs[k].End() != at && runs[k].start != at + n)
    ensures var k := Slot(runs, at, n, 0); Free(runs, at, n) == runs[..k] + [Run(at, n)] + runs[k..]
  {
    var k := Slot(runs, at, n, 0);
    var q := Inserted(runs, k, Run(at, n));
    assert q[k] == Run(at, n) && (k < |runs| ==> q[k + 1] == runs[k]) && (k > 0 ==> q[k - 1] == runs[k - 1]);
  }

  lemma TakenPart(runs: seq<Run>, k: nat, n: nat, q: seq<Run>)
    requires Canonical(runs) && k < |runs| && 0 < n < runs[k].len && q == Taken(runs, k, n)
    ensures Replaced(q, runs, k, k + 1, Run(runs[k].start + n, runs[k].len - n))
  {
    TakenCanonical(runs, k, n);
  }

  lemma TakenWhole(runs: seq<Run>, k: nat, q: seq<Run>)
    requires Canonical(runs) && k < |runs| && q == Taken(runs, k, runs[k].len)
    ensures Canonical(q) && k <= |q| && q[..k] == runs[..k] && q[k..] == runs[k + 1..]
  {
    TakenCanonical(runs, k, runs[k].len);
  }

  /** All of `q` is in place, except that the link behind its first i runs still leads to `to` and not to x. */
  ghost predicate Half(next: seq<int>, count: seq<nat>, head: int, q: seq<Run>, i: nat, x: int, to: int) {
    && |next| == |count| && Canonical(q) && Fits(q, |next|) && i <= |q|
    && Spells(next, count, head, q[..i], to) && Spells(next, count, x, q[i..], NIL)
  }

  /** A header is written into page p, for a run between the first i runs and those from position j on. */
  lemma NewHeader(next: seq<int>, count: seq<nat>, head: int, runs: seq<Run>, i: nat, j: nat, to: int, p: nat, x: int,
                  c: nat)
    requires i <= |runs| && j <= |runs| && p < |next| == |count|
    requires Spells(next, count, head, runs[..i], to) && Spells(next, count, x, runs[j..], NIL)
    requires NotStart(runs[..i], p) && NotStart(runs[j..], p)
    ensures Spells(next[p := x], count[p := c], head, runs[..i], to)
    ensures Spells(next[p := x], count[p := c], p, [Run(p, c)] + runs[j..], NIL)
  {
    SpellsFrame(next, count, head, runs[..i], to, p, x, c);
    SpellsFrame(next, count, x, runs[j..], NIL, p, x, c);
    assert ([Run(p, c)] + runs[j..])[1..] == runs[j..];
  }

  lemma Parts(q: seq<Run>, runs: seq<Run>, i: nat, j: nat, run: Run)
    requires i <= |runs| && j <= |runs| && q == runs[..i] + [run] + runs[j..]
    ensures i < |q| && q[..i] == runs[..i] && q[i..] == [run] + runs[j..] && LastOf(q, i) == LastOf(runs, i)
  {
    SameLast(runs, q, i);
  }

  lemma PartsFit(q: seq<Run>, runs: seq<Run>, i: nat, j: nat, run: Run, total: nat)
    requires i <= |runs| && j <= |runs| && q == runs[..i] + [run] + runs[j..] && Fits(runs, total) && run.End() <= total
    ensures Fits(q, total)
  {
    forall k: nat | k < |q|
      ensures q[k].End() <= total
    {
      assert q[k] == if k < i then runs[k] else if k == i then run else runs[j + (k - i - 1)];
    }
  }

  /** One run stands in `q` where `runs` has those from position i up to position j. */
  ghost predicate Replaced(q: seq<Run>, runs: seq<Run>, i: nat, j: nat, run: Run) {
    i <= |runs| && j <= |runs| && q == runs[..i] + [run] + runs[j..] && Canonical(q)
  }

  /** A header with link x and c pages can be written into page p to get `q`. */
  ghost predicate Ready(next: seq<int>, count: seq<nat>, head: int, runs: seq<Run>, i: nat, j: nat, to: int, p: nat,
                        x: int, c: nat, q: seq<Run>) {
    && p < |next| == |count| && Fits(runs, |next|) && p + c <= |next| && Replaced(q, runs, i, j, Run(p, c))
    && Spells(next, count, head, runs[..i], to) && Spells(next, count, x, runs[j..], NIL)
    && NotStart(runs[..i], p) && NotStart(runs[j..], p)
  }

  /** The new header, with its run in place in the list q. */
  lemma HeaderInPlace(next: seq<int>, count: seq<nat>, head: int, runs: seq<Run>, i: nat, j: nat, to: int, p: nat,
                      x: int, c: nat, q: seq<Run>)
    requires Ready(next, count, head, runs, i, j, to, p, x, c, q)
    ensures i <= |q| && LastOf(q, i) == LastOf(runs, i) && Half(next[p := x], count[p := c], head, q, i, p, to)
  {
    NewHeader(next, count, head, runs, i, j, to, p, x, c);
    Parts(q, runs, i, j, Run(p, c));
    PartsFit(q, runs, i, j, Run(p, c), |next|);
  }

  /** The header of what is left of run i is written behind the pages taken from it. */
  lemma SplitReady(next: seq<int>, count: seq<nat>, head: int, runs: seq<Run>, i: nat, n: nat, q: seq<Run>)
    requires Canonical(runs) && Fits(runs, |next|) && i < |runs| && 0 < n < runs[i].len && |next| == |count|
    requires Spells(next, count, head, runs[..i], runs[i].start) && Spells(next, count, runs[i].start, runs[i..], NIL)
    requires Replaced(q, runs, i, i + 1, Run(runs[i].start + n, runs[i].len - n))
    ensures var b, m := runs[i].start, runs[i].start + n;
            b < |next| && count[b] - n >= 0 && Ready(next, count, head, runs, i, i + 1, b, m, next[b], count[b] - n, q)
  {
    assert runs[i..][0] == runs[i] && runs[i..][1..] == runs[i + 1..];
  }

  /** No run ends beyond the heap. */
  ghost predicate Fits(runs: seq<Run>, total: nat) {
    forall i :: 0 <= i < |runs| ==> runs[i].End() <= total
  }

  lemma TakenFits(runs: seq<Run>, k: nat, n: nat, total: nat)
    requires Fits(runs, total) && k < |runs| && n <= runs[k].len
    ensures Fits(Taken(runs, k, n), total)
  {
  }

  lemma SameLast(a: seq<Run>, b: seq<Run>, i: nat)
    requires i <= |a| && i <= |b| && a[..i] == b[..i]
    ensures LastOf(a, i) == LastOf(b, i)
  {
    if i > 0 {
      assert a[..i][i - 1] == a[i - 1] && b[..i][i - 1] == b[i - 1];
    }
  }

  lemma StartsApart(runs: seq<Run>, i: nat, j: nat)
    requires Canonical(runs) && i < j <= |runs|
    ensures NotStart(runs[..i], runs[i].start) && NotStart(runs[j..], runs[i].start)
  {
  }

  lemma FreedApart(runs: seq<Run>, at: nat, n: nat)
    requires Canonical(runs) && NoneFree(runs, at, n) && n > 0
    ensures NotStart(runs, at)
  {
    forall k: nat | k < |runs|
      ensures runs[k].start != at
    {
      Aside(runs, at, n, k);
    }
  }

  lemma NotStartParts(runs: seq<Run>, i: nat, j: nat, p: nat)
    requires NotStart(runs, p) && i <= |runs| && j <= |runs|
    ensures NotStart(runs[..i], p) && NotStart(runs[j..], p)
  {
  }

  // ---------- what a free makes of the list ----------

  /** The freed pages meet run i and the run behind it, or one of them, or neither. */
  ghost predicate Outcome(q: seq<Run>, runs: seq<Run>, i: nat, at: nat, n: nat) {
    if i < |runs| && runs[i].End() == at then
      if i + 1 < |runs| && runs[i + 1].start == at + n
      then Replaced(q, runs, i, i + 2, Run(runs[i].start, runs[i].len + n + runs[i + 1].len))
      else Replaced(q, runs, i, i + 1, Run(runs[i].start, runs[i].len + n))
    else if i < |runs| && runs[i].start == at + n then Replaced(q, runs, i, i + 1, Run(at, n + runs[i].len))
    else Replaced(q, runs, i, i, Run(at, n))
  }

  lemma FreeOutcome(runs: seq<Run>, at: nat, n: nat, i: nat)
    requires Canonical(runs) && NoneFree(runs, at, n) && n > 0 && i == Slot(runs, at, n, 0)
    ensures Outcome(Free(runs, at, n), runs, i, at, n)
  {
    FreeCanonical(runs, at, n);
    if i < |runs| && runs[i].End() == at {
      if i + 1 < |runs| && runs[i + 1].start == at + n {
        FreeBridges(runs, at, n);
      } else {
        FreeExtends(runs, at, n);
      }
    } else if i < |runs| && runs[i].start == at + n {
      FreePrepends(runs, at, n);
    } else {
      FreeInserts(runs, at, n);
    }
  }

  /** The parts of the list on either side of the place where the walk stopped. */
  ghost predicate Parted(next: seq<int>, count: seq<nat>, head: int, runs: seq<Run>, i: nat, b: int) {
    && |next| == |count| && Canonical(runs) && Fits(runs, |next|) && i <= |runs|
    && Spells(next, count, head, runs[..i], b) && Spells(next, count, b, runs[i..], NIL)
  }

  lemma PartedAt(next: seq<int>, count: seq<nat>, head: int, runs: seq<Run>, i: nat, b: int)
    requires Parted(next, count, head, runs, i, b)
    ensures b == NIL <==> i == |runs|
    ensures i < |runs| ==> 0 <= b < |next| && b == runs[i].start && count[b] == runs[i].len
    ensures i + 1 < |runs| ==> next[b] == runs[i + 1].start
    ensures i + 1 == |runs| ==> next[b] == NIL
  {
    if i < |runs| {
      assert runs[i..][0] == runs[i] && runs[i..][1..] == runs[i + 1..];
      assert Spells(next, count, next[b], runs[i + 1..], NIL);
      if i + 1 < |runs| {
        assert runs[i + 1..][0] == runs[i + 1] && runs[i + 1..][1..] == runs[i + 2..];
      }
    }
  }

  lemma ExtendReady(next: seq<int>, count: seq<nat>, head: int, runs: seq<Run>, i: nat, b: nat, n: nat, q: seq<Run>)
    requires Parted(next, count, head, runs, i, b) && i < |runs| && runs[i].End() + n <= |next| && b == runs[i].start
    requires Replaced(q, runs, i, i + 1, Run(runs[i].start, runs[i].len + n))
    ensures b < |next| && Ready(next, count, head, runs, i, i + 1, b, b, next[b], count[b] + n, q)
  {
    assert runs[i..][0] == runs[i] && runs[i..][1..] == runs[i + 1..];
    StartsApart(runs, i, i + 1);
  }

  lemma BridgeReady(next: seq<int>, count: seq<nat>, head: int, runs: seq<Run>, i: nat, b: nat, n: nat, q: seq<Run>)
    requires Parted(next, count, head, runs, i, b) && i + 1 < |runs| && runs[i].End() + n == runs[i + 1].start
             && b == runs[i].start
    requires Replaced(q, runs, i, i + 2, Run(runs[i].start, runs[i].len + n + runs[i + 1].len))
    ensures b < |next| && 0 <= next[b] < |next|
    ensures Ready(next, count, head, runs, i, i + 2, b, b, next[next[b]], count[b] + n + count[next[b]], q)
  {
    assert runs[i..][0] == runs[i] && runs[i..][1..] == runs[i + 1..];
    assert Spells(next, count, next[b], runs[i + 1..], NIL);
    assert runs[i + 1..][0] == runs[i + 1] && runs[i + 1..][1..] == runs[i + 2..];
    StartsApart(runs, i, i + 2);
  }

  lemma PrependReady(next: seq<int>, count: seq<nat>, head: int, runs: seq<Run>, i: nat, b: nat, at: nat, n: nat,
                     q: seq<Run>)
    requires Parted(next, count, head, runs, i, b) && i < |runs| && b == at + n == runs[i].start && NotStart(runs, at)
    requires Replaced(q, runs, i, i + 1, Run(at, n + runs[i].len))
    ensures b < |next| && Ready(next, count, head, runs, i, i + 1, b, at, next[b], n + count[b], q)
  {
    assert runs[i..][0] == runs[i] && runs[i..][1..] == runs[i + 1..];
    NotStartParts(runs, i, i + 1, at);
  }

  lemma InsertReady(next: seq<int>, count: seq<nat>, head: int, runs: seq<Run>, i: nat, b: int, at: nat, n: nat,
                    q: seq<Run>)
    requires Parted(next, count, head, runs, i, b) && 0 < n && at + n <= |next| && NotStart(runs, at)
    requires Replaced(q, runs, i, i, Run(at, n))
    ensures Ready(next, count, head, runs, i, i, b, at, b, n, q)
  {
    NotStartParts(runs, i, i, at);
  }

  class PageAllocator {
    /** The `next` and `page` fields of a header in each page of the heap. */
    const next: array<int>
    const count: array<nat>
    var pageList: int
    ghost var runs: seq<Run>

    ghost predicate Valid()
      reads this, next, count
    {
      && next.Length == count.Length && Canonical(runs) && Spells(next[..], count[..], pageList, runs, NIL)
      && Fits(runs, next.Length)
    }

    /** What the walk knows: it has passed `runs[..i]`, and b is the next header. */
    ghost predicate At(i: nat, prev: int, b: int)
      reads this, next, count
    {
      && i <= |runs| && prev == LastOf(runs, i)
      && Spells(next[..], count[..], pageList, runs[..i], b) && Spells(next[..], count[..], b, runs[i..], NIL)
    }

    /** `rt_page_init`: all pages are freed into an empty list. */
    constructor (total: nat)
      requires total > 0
      ensures Valid() && next.Length == total && runs == [Run(0, total)] && fresh(next) && fresh(count)
    {
      next := new int[total];
      count := new nat[total];
      pageList := NIL;
      runs := [];
      new;
      assert Free([], 0, total) == [Run(0, total)];
      PageFree(0, total);
    }

    lemma Step(i: nat, prev: int, b: int)
      requires Valid() && At(i, prev, b) && b != NIL
      ensures i < |runs| && b == runs[i].start && 0 <= b < next.Length && count[b] == runs[i].len
      ensures At(i + 1, b, next[b])
    {
      var n, c := next[..], count[..];
      assert runs[i..][0] == runs[i] && runs[i..][1..] == runs[i + 1..];
      assert Spells(n, c, b, [runs[i]], n[b]) by {
        assert [runs[i]][1..] == [];
      }
      SpellsAppend(n, c, pageList, runs[..i], b, [runs[i]], n[b]);
      assert runs[..i] + [runs[i]] == runs[..i + 1];
    }

    /** `*prev = x`: what the list head leads to is now `q`, and x leads to its part from position i on. */
    method Relink(prev: int, x: int, ghost q: seq<Run>, ghost i: nat, ghost to: int)
      requires Half(next[..], count[..], pageList, q, i, x, to)
      requires i <= |q| && prev == LastOf(q, i)
      modifies this, next
      ensures Valid() && runs == q
    {
      assert q == q[..i] + q[i..];
      if prev == NIL {
        pageList := x;
        assert q[..0] == [];
      } else {
        ghost var n, c := next[..], count[..];
        SpellsRelink(n, c, pageList, q[..i], to, x);
        SpellsFrame(n, c, x, q[i..], NIL, prev, x, c[prev]);
        next[prev] := x;
        assert next[..] == n[prev := x] && c[prev := c[prev]] == c;
        SpellsAppend(next[..], count[..], pageList, q[..i], x, q[i..], NIL);
      }
      runs := q;
    }

    // ---------- rt_page_alloc ----------

    /** `n = b + npages` takes the place of b. */
    method TakeFront(ghost i: nat, prev: int, b: nat, n: nat)
      requires Valid() && At(i, prev, b) && i < |runs| && b == runs[i].start && 0 < n < runs[i].len
      modifies this, next, count
      ensures Valid() && runs == Taken(old(runs), i, n)
    {
      Step(i, prev, b);
      var m := b + n;
      ghost var q := Taken(runs, i, n);
      TakenPart(runs, i, n, q);
      SplitReady(next[..], count[..], pageList, runs, i, n, q);
      WriteHeader(m, next[b], count[b] - n, i, i + 1, b, q);
      Relink(prev, m, q, i, b);
    }

    /** The header of a run is written. */
    method WriteHeader(p: nat, x: int, c: nat, ghost i: nat, ghost j: nat, ghost to: int, ghost q: seq<Run>)
      requires Ready(next[..], count[..], pageList, runs, i, j, to, p, x, c, q)
      modifies next, count
      ensures i <= |q| && i <= |runs| && LastOf(q, i) == LastOf(runs, i)
      ensures Half(next[..], count[..], pageList, q, i, p, to)
    {
      ghost var n, d := next[..], count[..];
      HeaderInPlace(n, d, pageList, runs, i, j, to, p, x, c, q);
      next[p] := x;
      count[p] := c;
      assert next[..] == n[p := x] && count[..] == d[p := c];
    }

    method Unlink(ghost i: nat, prev: int, b: nat)
      requires Valid() && At(i, prev, b) && i < |runs| && b == runs[i].start
      modifies this, next
      ensures Valid() && runs == Taken(old(runs), i, old(runs)[i].len)
    {
      Step(i, prev, b);
      ghost var q := Taken(runs, i, runs[i].len);
      TakenWhole(runs, i, q);
      TakenFits(runs, i, runs[i].len, next.Length);
      SameLast(runs, q, i);
      Relink(prev, next[b], q, i, b);
    }

    /** `rt_page_alloc`. */
    method PageAlloc(n: nat) returns (r: Address)
      requires Valid()
      modifies this, next, count
      ensures Valid() && (runs, r) == Alloc(old(runs), n)
    {
      if n == 0 {
        return Null;
      }
      var prev, b := NIL, pageList;
      ghost var i: nat := 0;
      assert runs[..0] == [] && runs[0..] == runs;
      while b != NIL
        invariant Valid() && At(i, prev, b) && runs == old(runs)
        invariant FirstFit(runs, n, i) == FirstFit(runs, n, 0)
        decreases |runs| - i
      {
        Step(i, prev, b);
        if count[b] > n {
          TakeFront(i, prev, b, n);
          return Page(b);
        }
        if count[b] == n {
          Unlink(i, prev, b);
          return Page(b);
        }
        prev, b := b, next[b];
        i := i + 1;
      }
      return Null;
    }

    // ---------- rt_page_free ----------

    /** Freed pages belong to the heap, and none of them is free. */
    ghost predicate MayFree(at: nat, n: nat)
      reads this
    {
      n > 0 && at + n <= next.Length && NoneFree(runs, at, n)
    }

    /** No link has to be turned. */
    ghost method Rejoin(q: seq<Run>, i: nat, b: int)
      requires Half(next[..], count[..], pageList, q, i, b, b)
      modifies this`runs
      ensures Valid() && runs == q
    {
      SpellsAppend(next[..], count[..], pageList, q[..i], b, q[i..], NIL);
      assert q == q[..i] + q[i..];
      runs := q;
    }

    /** `b + b->page == n`: run i grows by the freed pages. */
    method Extend(ghost i: nat, b: nat, n: nat, ghost q: seq<Run>)
      requires Parted(next[..], count[..], pageList, runs, i, b) && i < |runs|
               && b == runs[i].start < next.Length == count.Length
      requires runs[i].End() + n <= next.Length && Replaced(q, runs, i, i + 1, Run(runs[i].start, runs[i].len + n))
      modifies this, next, count
      ensures Valid() && runs == q
    {
      ExtendReady(next[..], count[..], pageList, runs, i, b, n, q);
      WriteHeader(b, next[b], count[b] + n, i, i + 1, b, q);
      Rejoin(q, i, b);
    }

    /** Run i has come to reach the one behind it, and takes it in. */
    method Bridge(ghost i: nat, b: nat, n: nat, ghost q: seq<Run>)
      requires Parted(next[..], count[..], pageList, runs, i, b) && i + 1 < |runs|
               && b == runs[i].start < next.Length == count.Length
      requires runs[i].End() + n == runs[i + 1].start
      requires Replaced(q, runs, i, i + 2, Run(runs[i].start, runs[i].len + n + runs[i + 1].len))
      modifies this, next, count
      ensures Valid() && runs == q
    {
      BridgeReady(next[..], count[..], pageList, runs, i, b, n, q);
      var nb := next[b];
      WriteHeader(b, next[nb], count[b] + n + count[nb], i, i + 2, b, q);
      Rejoin(q, i, b);
    }

    /** `b == n + npages`: run i begins earlier. */
    method Prepend(ghost i: nat, prev: int, b: nat, at: nat, n: nat, ghost q: seq<Run>)
      requires Parted(next[..], count[..], pageList, runs, i, b) && i < |runs|
               && b == at + n == runs[i].start < next.Length == count.Length
      requires NotStart(runs, at) && prev == LastOf(runs, i) && Replaced(q, runs, i, i + 1, Run(at, n + runs[i].len))
      modifies this, next, count
      ensures Valid() && runs == q
    {
      PrependReady(next[..], count[..], pageList, runs, i, b, at, n, q);
      WriteHeader(at, next[b], n + count[b], i, i + 1, b, q);
      Relink(prev, at, q, i, b);
    }

    /** The freed pages stand alone. */
    method InsertRun(ghost i: nat, prev: int, b: int, at: nat, n: nat, ghost q: seq<Run>)
      requires Parted(next[..], count[..], pageList, runs, i, b) && 0 < n && at + n <= next.Length
      requires NotStart(runs, at) && prev == LastOf(runs, i) && Replaced(q, runs, i, i, Run(at, n))
      modifies this, next, count
      ensures Valid() && runs == q
    {
      InsertReady(next[..], count[..], pageList, runs, i, b, at, n, q);
      WriteHeader(at, b, n, i, i, b, q);
      Relink(prev, at, q, i, b);
    }

    /** The freed pages get their place in front of b. */
    method Place(ghost i: nat, prev: int, b: int, at: nat, n: nat, ghost q: seq<Run>)
      requires Parted(next[..], count[..], pageList, runs, i, b) && 0 < n && at + n <= next.Length && NotStart(runs, at)
      requires prev == LastOf(runs, i) && Outcome(q, runs, i, at, n)
      modifies this, next, count
      ensures Valid() && runs == q
    {
      PartedAt(next[..], count[..], pageList, runs, i, b);
      if b != NIL && b + count[b] == at {
        if b + (count[b] + n) == next[b] {
          Bridge(i, b, n, q);
        } else {
          Extend(i, b, n, q);
        }
      } else if b != NIL && b == at + n {
        Prepend(i, prev, b, at, n, q);
      } else {
        InsertRun(i, prev, b, at, n, q);
      }
    }

    /** The walk along the list. */
    method FindSlot(at: nat, n: nat) returns (prev: int, b: int, ghost i: nat)
      requires Valid()
      ensures Parted(next[..], count[..], pageList, runs, i, b) && prev == LastOf(runs, i) && i == Slot(runs, at, n, 0)
    {
      prev, b := NIL, pageList;
      i := 0;
      assert runs[..0] == [] && runs[0..] == runs;
      while b != NIL
        invariant At(i, prev, b) && Slot(runs, at, n, i) == Slot(runs, at, n, 0)
        decreases |runs| - i
      {
        Step(i, prev, b);
        if b + count[b] == at || b >= at + n {
          return;
        }
        prev, b := b, next[b];
        i := i + 1;
      }
    }

    /** `rt_page_free`. */
    method PageFree(at: nat, n: nat)
      requires Valid() && MayFree(at, n)
      modifies this, next, count
      ensures Valid() && runs == Free(old(runs), at, n)
    {
      var prev, b, i := FindSlot(at, n);
      FreeOutcome(runs, at, n, i);
      FreedApart(runs, at, n);
      Place(i, prev, b, at, n, Free(runs, at, n));
    }
  }
}
