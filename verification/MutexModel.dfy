/** One priority-ordered mutex of `ipc.c` as a step system, with the priorities of the threads that use
    it. Take, release and timeout each change the state in one interrupt-disabled section: a blocked
    taker finds the mutex already granted when it runs again, so its last section changes nothing. */
module MutexModel {
  import opened LinkedNodes
  import opened WaitList

  const HOLD_MAX: nat := 255
  const VALUE_MAX: nat := 0xFFFF
  const NO_PRIORITY: nat := 0xFF

  datatype Owner = NoOwner | OwnedBy(t: Tid)

  /** A grant of the mutex, or a release by its owner. */
  datatype Event = Granted(t: Tid) | GivenUp(t: Tid)

  datatype MStatus = MDone | MFull | MTimedOut | MError | MBlocked

  /** `waits` is what the blocked takers wait for (-1 is for ever), and `since` numbers their arrivals;
      `contenders` are the threads that have waited while the present owner has had the mutex. */
  datatype MState = MState(
    value: nat, hold: nat, owner: Owner, original: nat,
    list: seq<Tid>, waits: map<Tid, int>, since: map<Tid, nat>, priority: map<Tid, nat>,
    arrivals: nat, contenders: set<Tid>, log: seq<Event>)

  datatype MAction = MTake(t: Tid, time: int) | MRelease(t: Tid) | MExpire(t: Tid)

  function Untaken(base: map<Tid, nat>): MState {
    MState(1, 0, NoOwner, NO_PRIORITY, [], map[], map[], base, 0, {}, [])
  }

  function Acquire(s: MState, t: Tid): MState
    requires s.value > 0 && t in s.priority
  {
    s.(value := s.value - 1, owner := OwnedBy(t), original := s.priority[t], hold := s.hold + 1,
       contenders := {}, log := s.log + [Granted(t)])
  }

  /** Priority inheritance, and the place in the list. */
  function Block(s: MState, t: Tid, time: int): MState
    requires s.owner.OwnedBy? && s.owner.t in s.priority && t in s.priority
  {
    var p := if s.priority[t] < s.priority[s.owner.t] then s.priority[s.owner.t := s.priority[t]] else s.priority;
    s.(priority := p, list := Suspend(s.list, t, Prio, p), waits := s.waits[t := time],
       since := s.since[t := s.arrivals], arrivals := s.arrivals + 1, contenders := s.contenders + {t})
  }

  function TryTake(s: MState, t: Tid, time: int): (MState, MStatus)
    requires t in s.priority && (s.value == 0 ==> s.owner.OwnedBy? && s.owner.t in s.priority)
  {
    if s.owner == OwnedBy(t) then
      if s.hold < HOLD_MAX then (s.(hold := s.hold + 1, log := s.log + [Granted(t)]), MDone) else (s, MFull)
    else if s.value > 0 then (Acquire(s, t), MDone)
    else if time == 0 then (s, MTimedOut)
    else (Block(s, t, time), MBlocked)
  }

  /** The head of the list becomes the owner. */
  function HandOver(s: MState): MState
    requires s.list != [] && s.list[0] in s.priority
  {
    var w := s.list[0];
    s.(owner := OwnedBy(w), original := s.priority[w], hold := 1, list := s.list[1..], waits := s.waits - {w},
       contenders := Members(s.list[1..]), log := s.log + [Granted(w)])
  }

  function Restored(s: MState, t: Tid): map<Tid, nat>
    requires t in s.priority
  {
    if s.original != s.priority[t] then s.priority[t := s.original] else s.priority
  }

  function GiveUp(s: MState, t: Tid): (MState, MStatus)
    requires s.owner == OwnedBy(t) && s.hold > 0 && t in s.priority
    requires s.list != [] ==> s.list[0] in s.priority
  {
    var q := s.(hold := s.hold - 1, log := s.log + [GivenUp(t)]);
    if q.hold > 0 then (q, MDone)
    else
      var r := q.(priority := Restored(s, t));
      if s.list != [] then (HandOver(r), MDone)
      else (r.(value := s.value + 1, owner := NoOwner, original := NO_PRIORITY, contenders := {}), MDone)
  }

  predicate MEnabled(s: MState, a: MAction) {
    match a
    case MTake(t, _) => t in s.priority && t !in s.list
    case MRelease(t) => t in s.priority && t !in s.list
    case MExpire(t) => t in s.list && t in s.waits && s.waits[t] > 0
  }

  function MStep(s: MState, a: MAction): (MState, MStatus)
    requires MEnabled(s, a) && Books(s) && Known(s)
  {
    match a
    case MTake(t, time) => TryTake(s, t, time)
    case MRelease(t) => if s.owner != OwnedBy(t) then (s, MError) else GiveUp(s, t)
    case MExpire(t) => (s.(list := Without(s.list, t), waits := s.waits - {t}), MTimedOut)
  }

  // ---------- the invariant ----------

  /** The three ways the source says "nobody has it" agree, and waiters imply an owner. */
  predicate Books(s: MState) {
    && s.value == (if s.owner.NoOwner? then 1 else 0)
    && (s.owner.NoOwner? <==> s.hold == 0)
    && s.hold <= HOLD_MAX
    && (s.owner.NoOwner? ==> s.list == [] && s.original == NO_PRIORITY)
    && (s.owner.OwnedBy? ==> s.owner.t !in s.list)
  }

  predicate Known(s: MState) {
    && (s.owner.OwnedBy? ==> s.owner.t in s.priority)
    && (forall t :: t in s.list ==> t in s.priority)
  }

  ghost predicate Ordered(base: map<Tid, nat>, s: MState) {
    && NoDup(s.list) && Line(base, s.since, s.list)
    && (forall t :: t in s.list <==> t in s.waits) && (forall t :: t in s.list ==> t in s.since)
    && (forall t :: t in s.since ==> s.since[t] < s.arrivals)
  }

  /** `p` is the least of `own` and the base priorities of `others`. */
  ghost predicate IsLeast(base: map<Tid, nat>, p: nat, own: nat, others: set<Tid>) {
    && p <= own
    && (forall x :: x in others ==> x in base && p <= base[x])
    && (p == own || exists x :: x in others && x in base && base[x] == p)
  }

  /** Only the owner runs above its own priority, and exactly as far as inheritance asks. */
  ghost predicate Inherited(base: map<Tid, nat>, s: MState) {
    && s.priority.Keys == base.Keys
    && (forall t :: t in base && s.owner != OwnedBy(t) ==> s.priority[t] == base[t])
    && (forall t :: t in s.list ==> t in s.contenders)
    && (s.owner.OwnedBy? ==>
          s.owner.t in base && s.original == base[s.owner.t]
          && IsLeast(base, s.priority[s.owner.t], base[s.owner.t], s.contenders))
  }

  function Count(log: seq<Event>, t: Tid): int {
    if log == [] then 0
    else
      var e := log[|log| - 1];
      Count(log[..|log| - 1], t) + if e == Granted(t) then 1 else if e == GivenUp(t) then -1 else 0
  }

  /** `hold` is what the owner has been granted and not yet released; nobody else holds anything. */
  ghost predicate Tallied(s: MState) {
    forall t :: Count(s.log, t) == if s.owner == OwnedBy(t) then s.hold else 0
  }

  ghost predicate MInv(base: map<Tid, nat>, s: MState) {
    Books(s) && Known(s) && Ordered(base, s) && Inherited(base, s) && Tallied(s)
  }

  lemma Logged(log: seq<Event>, e: Event)
    ensures forall t ::
              Count(log + [e], t) == Count(log, t) + if e == Granted(t) then 1 else if e == GivenUp(t) then -1 else 0
  {
    assert (log + [e])[..|log|] == log;
  }

  // ---------- every step keeps the invariant ----------

  lemma BlockOrdered(base: map<Tid, nat>, s: MState, t: Tid, time: int)
    requires Known(s) && Ordered(base, s) && Inherited(base, s)
    requires s.owner.OwnedBy? && s.owner.t !in s.list && s.owner != OwnedBy(t) && t in s.priority && t !in s.list
    ensures Ordered(base, Block(s, t, time))
  {
    var r := Block(s, t, time);
    SuspendMembers(s.list, t, Prio, r.priority);
    assert forall x :: x in r.list <==> x in Members(r.list);
    LineFrame(base, s.since, base, r.since, s.list);
    PlacedInLine(base, r.since, s.list, t, r.priority);
  }

  lemma BlockKeeps(base: map<Tid, nat>, s: MState, t: Tid, time: int)
    requires MInv(base, s) && s.owner.OwnedBy? && s.owner != OwnedBy(t) && t in s.priority && t !in s.list
    ensures MInv(base, Block(s, t, time))
  {
    var r := Block(s, t, time);
    BlockOrdered(base, s, t, time);
    SuspendMembers(s.list, t, Prio, r.priority);
    assert forall x :: x in r.list <==> x in Members(r.list);
    var o := s.owner.t;
    if s.priority[t] < s.priority[o] {
      assert base[t] == r.priority[o];
    } else if s.priority[o] != base[o] {
      var x :| x in s.contenders && x in base && base[x] == s.priority[o];
      assert x in r.contenders;
    }
  }

  lemma TakeKeeps(base: map<Tid, nat>, s: MState, t: Tid, time: int)
    requires MInv(base, s) && MEnabled(s, MTake(t, time))
    ensures MInv(base, TryTake(s, t, time).0)
  {
    Logged(s.log, Granted(t));
    if s.owner != OwnedBy(t) && s.value == 0 && time != 0 {
      BlockKeeps(base, s, t, time);
    }
  }

  lemma HandOverOrdered(base: map<Tid, nat>, s: MState)
    requires Ordered(base, s) && s.list != [] && s.list[0] in s.priority
    ensures Ordered(base, HandOver(s))
    ensures s.list[0] !in HandOver(s).list && forall x :: x in s.list[1..] ==> x in base && base[s.list[0]] <= base[x]
  {
    var w, rest := s.list[0], s.list[1..];
    assert forall i :: 0 <= i < |rest| ==> rest[i] == s.list[i + 1];
    forall i | 0 <= i < |rest|
      ensures rest[i] != w && InFront(base, s.since, w, rest[i])
    {
      assert InFront(base, s.since, s.list[0], s.list[i + 1]);
    }
    assert forall x :: x in s.list <==> x == w || x in rest;
  }

  lemma HandOverKeeps(base: map<Tid, nat>, r: MState)
    requires Ordered(base, r) && Known(r) && r.list != [] && r.value == 0 && r.priority == base
    requires forall t :: Count(r.log, t) == 0
    ensures MInv(base, HandOver(r))
  {
    assert r.list[0] in r.list;
    HandOverOrdered(base, r);
    Logged(r.log, Granted(r.list[0]));
    assert forall x :: x in r.list[1..] ==> x in r.list;
  }

  /** A full release gives the owner the priority it had when it acquired the mutex. */
  lemma RestoredIsBase(base: map<Tid, nat>, s: MState, t: Tid)
    requires Inherited(base, s) && s.owner == OwnedBy(t) && t in s.priority
    ensures Restored(s, t) == base
  {
  }

  lemma GiveUpKeeps(base: map<Tid, nat>, s: MState, t: Tid)
    requires MInv(base, s) && s.owner == OwnedBy(t)
    ensures MInv(base, GiveUp(s, t).0)
  {
    Logged(s.log, GivenUp(t));
    if s.hold == 1 {
      RestoredIsBase(base, s, t);
      if s.list != [] {
        HandOverKeeps(base, s.(hold := 0, log := s.log + [GivenUp(t)], priority := base));
      }
    }
  }

  lemma MExpireKeeps(base: map<Tid, nat>, s: MState, t: Tid)
    requires MInv(base, s) && MEnabled(s, MExpire(t))
    ensures MInv(base, MStep(s, MExpire(t)).0)
  {
    var r := MStep(s, MExpire(t)).0;
    LineWithout(base, s.since, s.list, t);
    WithoutKeeps(s.list, t, base);
    assert forall x :: x in r.list ==> x in s.list && x != t;
  }

  lemma MStepKeeps(base: map<Tid, nat>, s: MState, a: MAction)
    requires MInv(base, s) && MEnabled(s, a)
    ensures MInv(base, MStep(s, a).0)
  {
    match a
    case MTake(t, time) => TakeKeeps(base, s, t, time);
    case MRelease(t) =>
      if s.owner == OwnedBy(t) {
        GiveUpKeeps(base, s, t);
      }
    case MExpire(t) => MExpireKeeps(base, s, t);
  }

  // ---------- whole runs ----------

  /** The state after a run, and whether every step of it was possible when it came. */
  ghost function MRun(base: map<Tid, nat>, run: seq<MAction>): (r: (MState, bool))
    ensures MInv(base, r.0)
  {
    if run == [] then (Untaken(base), true)
    else
      var (s, ok) := MRun(base, run[..|run| - 1]);
      if ok && MEnabled(s, run[|run| - 1]) then
        MStepKeeps(base, s, run[|run| - 1]);
        (MStep(s, run[|run| - 1]).0, true)
      else (s, false)
  }

  /** In every run: `value` is 1 exactly when nobody owns the mutex, exactly when `hold` is 0; waiters imply
      an owner; and `hold` is what the owner has been granted and has not yet released. */
  lemma OwnershipAgrees(base: map<Tid, nat>, run: seq<MAction>)
    ensures var s := MRun(base, run).0;
            && (s.value == 1 <==> s.owner.NoOwner?) && (s.value == 0 <==> s.owner.OwnedBy?)
            && (s.hold == 0 <==> s.owner.NoOwner?) && s.hold <= HOLD_MAX
            && (s.list != [] ==> s.owner.OwnedBy?)
            && forall t :: Count(s.log, t) == if s.owner == OwnedBy(t) then s.hold else 0
  {
  }

  /** In every run the owner's priority is never lower than that of any waiter; and it is exactly the
      highest among its own and those that have waited for it, so no thread is raised without cause. */
  lemma OwnerOutranksWaiters(base: map<Tid, nat>, run: seq<MAction>, w: Tid)
    requires w in MRun(base, run).0.list
    ensures var s := MRun(base, run).0;
            && s.owner.OwnedBy? && s.owner.t in base && s.owner.t in s.priority
            && w in s.priority && s.priority[w] == base[w] && s.priority[s.owner.t] <= s.priority[w]
            && IsLeast(base, s.priority[s.owner.t], base[s.owner.t], s.contenders)
  {
    assert w in MRun(base, run).0.contenders;
  }

  /** In every run, whenever the mutex is owned, also when nobody waits any more: the owner's priority is
      exactly the highest among its own and those of all threads that have waited while it has had the mutex. */
  lemma OwnerIsRaisedByContenders(base: map<Tid, nat>, run: seq<MAction>)
    requires MRun(base, run).0.owner.OwnedBy?
    ensures var s := MRun(base, run).0;
            && s.owner.t in base && s.owner.t in s.priority && Members(s.list) <= s.contenders
            && IsLeast(base, s.priority[s.owner.t], base[s.owner.t], s.contenders)
  {
    var s := MRun(base, run).0;
    forall x | x in Members(s.list)
      ensures x in s.contenders
    {
      assert x in s.list;
    }
  }

  /** When the owner gives up its last hold, every thread is back at the priority it had; the waiter that
      gets the mutex has the highest priority of all, and has waited longest among its equals. */
  lemma ReleaseRestores(base: map<Tid, nat>, s: MState, t: Tid)
    requires MInv(base, s) && s.owner == OwnedBy(t) && s.hold == 1
    ensures var r := GiveUp(s, t).0;
            && r.priority == base
            && (s.list == [] <==> r.owner.NoOwner?)
            && (s.list != [] ==>
                  && r.owner.OwnedBy? && r.owner.t in s.list && r.hold == 1
                  && r.list == Without(s.list, r.owner.t)
                  && forall w :: w in s.list && w != r.owner.t ==> InFront(base, s.since, r.owner.t, w))
  {
    RestoredIsBase(base, s, t);
    if s.list != [] {
      WithoutFirst(s.list);
      forall w | w in s.list && w != s.list[0]
        ensures InFront(base, s.since, s.list[0], w)
      {
        var i :| 0 <= i < |s.list| && s.list[i] == w;
        assert InFront(base, s.since, s.list[0], s.list[i]);
      }
    }
  }

  /** A full release right after an uncontended take leaves the mutex as it was. */
  lemma TakeReleaseRestores(base: map<Tid, nat>, s: MState, t: Tid, time: int)
    requires MInv(base, s) && s.owner.NoOwner? && t in base
    ensures var r := GiveUp(TryTake(s, t, time).0, t).0;
            r.(log := s.log, contenders := s.contenders) == s
  {
    TakeKeeps(base, s, t, time);
    RestoredIsBase(base, TryTake(s, t, time).0, t);
  }

  /** A recursive take is refused exactly at the 255th hold; a take is only ever refused for time
      by a caller that would not wait. */
  lemma TakeOutcome(base: map<Tid, nat>, s: MState, t: Tid, time: int)
    requires MInv(base, s) && MEnabled(s, MTake(t, time))
    ensures var (r, status) := TryTake(s, t, time);
            && (status == MFull <==> s.owner == OwnedBy(t) && s.hold == HOLD_MAX)
            && (status == MTimedOut <==> s.owner.OwnedBy? && s.owner != OwnedBy(t) && time == 0)
            && (status == MBlocked <==> t in r.list)
            && (status == MDone <==>
                  r.owner == OwnedBy(t) && r.hold == (if s.owner == OwnedBy(t) then s.hold else 0) + 1)
  {
    if s.owner.OwnedBy? && s.owner != OwnedBy(t) && time != 0 {
      SuspendMembers(s.list, t, Prio, Block(s, t, time).priority);
      assert t in Members(Block(s, t, time).list);
    }
  }

  /** A take that fails changes nothing; one that waits leaves the mutex with its owner, and is to wait as long as it
      asked for. */
  lemma TakeLeaves(base: map<Tid, nat>, s: MState, t: Tid, time: int)
    requires MInv(base, s) && MEnabled(s, MTake(t, time))
    ensures var (r, status) := TryTake(s, t, time);
            && (status == MFull || status == MTimedOut ==> r == s)
            && (status == MDone ==> r.list == s.list && r.priority == s.priority && r.log == s.log + [Granted(t)])
            && (status == MBlocked ==>
                  && r.owner == s.owner && r.hold == s.hold && r.value == s.value && r.log == s.log
                  && Without(r.list, t) == s.list && r.waits == s.waits[t := time])
  {
    WithoutSuspended(s.list, t, Prio, if s.owner.OwnedBy? then Block(s, t, time).priority else map[]);
  }

  /** Only the owner can release; a release that is not its last takes one hold off and changes nothing else; a waiter
      whose time runs out leaves the list and changes nothing else. */
  lemma ReleaseOutcome(base: map<Tid, nat>, s: MState, t: Tid)
    requires MInv(base, s)
    ensures MEnabled(s, MRelease(t)) ==>
              var (r, status) := MStep(s, MRelease(t));
              && (status == (if s.owner == OwnedBy(t) then MDone else MError))
              && (s.owner != OwnedBy(t) ==> r == s)
              && (s.owner == OwnedBy(t) && s.hold > 1 ==> r == s.(hold := s.hold - 1, log := s.log + [GivenUp(t)]))
    ensures MEnabled(s, MExpire(t)) ==>
              var (r, status) := MStep(s, MExpire(t));
              && status == MTimedOut && t !in r.list
              && r == s.(list := Without(s.list, t), waits := s.waits - {t})
  {
  }

  /** The owner's priority is never lowered before its last release. */
  lemma RaiseLasts(base: map<Tid, nat>, s: MState, a: MAction)
    requires MInv(base, s) && MEnabled(s, a) && s.owner.OwnedBy?
    ensures var r, o := MStep(s, a).0, s.owner.t;
            o in r.priority && (r.owner == s.owner ==> r.priority[o] <= s.priority[o])
  {
    MStepKeeps(base, s, a);
  }

  /** The owner runs at the highest priority among its own and those of the threads that wait now. */
  ghost predicate Tight(base: map<Tid, nat>, s: MState) {
    && s.owner.OwnedBy? && s.owner.t in base && s.owner.t in s.priority
    && IsLeast(base, s.priority[s.owner.t], base[s.owner.t], Members(s.list))
  }

  /** When a waiter gives up, the owner's priority still fits those who wait, exactly if the waiter's priority is
      not above the owner's own, or another waiter's is as high. */
  lemma TimeoutFits(base: map<Tid, nat>, s: MState, w: Tid)
    requires MInv(base, s) && MEnabled(s, MExpire(w)) && Tight(base, s)
    ensures w in base
    ensures Tight(base, MStep(s, MExpire(w)).0)
       <==> base[s.owner.t] <= base[w] || exists x :: x in s.list && x != w && x in base && base[x] <= base[w]
  {
    var r, o := MStep(s, MExpire(w)).0, s.owner.t;
    MExpireKeeps(base, s, w);
    assert w in Members(s.list);
    if base[o] > base[w] {
      if x :| x in s.list && x != w && x in base && base[x] <= base[w] {
        assert x in Members(s.list) && x in Members(r.list);
        if s.priority[o] == base[w] {
          assert base[x] == base[w];
        }
      }
    }
  }

  /** The owner's own priority, or that of a thread that waits now, is as high as that of x. */
  ghost predicate Matched(base: map<Tid, nat>, s: MState, x: Tid)
    requires s.owner.OwnedBy? && s.owner.t in base
  {
    x in base && (base[s.owner.t] <= base[x] || exists y :: y in s.list && y in base && base[y] <= base[x])
  }

  /** At any time the owner's priority fits those who wait, exactly if each thread that has waited is matched by
      the owner's own priority or by a thread that waits now. */
  lemma FitsWhenMatched(base: map<Tid, nat>, s: MState)
    requires MInv(base, s) && s.owner.OwnedBy?
    ensures Tight(base, s) <==> forall x :: x in s.contenders ==> Matched(base, s, x)
  {
    var o, q := s.owner.t, Members(s.list);
    assert forall y :: y in s.list <==> y in q;
    if Tight(base, s) {
      forall x | x in s.contenders
        ensures Matched(base, s, x)
      {
        if s.priority[o] != base[o] {
          var y :| y in q && y in base && base[y] == s.priority[o];
          assert y in s.list;
        }
      }
    }
    if (forall x :: x in s.contenders ==> Matched(base, s, x)) && s.priority[o] != base[o] {
      var x :| x in s.contenders && x in base && base[x] == s.priority[o];
      assert Matched(base, s, x);
      var y :| y in s.list && y in base && base[y] <= base[x];
      assert y in q && y in s.contenders;
    }
  }

  /** What inheritance does not promise: a waiter that gives up leaves its priority with the owner. */
  lemma TimeoutKeepsRaise(base: map<Tid, nat>, s: MState, w: Tid)
    requires MInv(base, s) && s.list == [w] && s.owner.OwnedBy? && base[w] < base[s.owner.t] && MEnabled(s, MExpire(w))
    ensures var r := MStep(s, MExpire(w)).0;
            r.list == [] && r.owner == s.owner && r.priority[s.owner.t] <= base[w] < base[s.owner.t]
  {
    assert Without([w], w) == [] by {
      assert [w][..0] == [];
    }
    assert w in s.contenders;
  }
}
