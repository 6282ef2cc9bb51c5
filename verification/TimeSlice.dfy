/** Time slices and the scheduler: equals share the processor by the lengths of their slices. */
module TimeSlice {
  import opened LinkedNodes
  import opened WaitList
  import opened SchedModel
  import opened Slices
  import Scheduler

  /** The yield at the end of a slice. */
  ghost function YieldNow(s: Sched): Sched {
    if SInv(s) && s.current.Someone? then Yield(s) else s
  }

  function CurrentOf(s: Sched): Tid {
    if s.current.Someone? then s.current.t else 0
  }

  lemma YieldNowIs(s: Sched)
    requires AmongPeers(s)
    ensures YieldNow(s) == Yield(s)
  {
  }

  ghost function Yields(s: Sched, j: nat): Sched {
    if AmongPeers(s) then YieldTimes(s, j) else s
  }

  lemma OneMoreYield(s: Sched, j: nat)
    requires AmongPeers(s)
    ensures Yields(s, j + 1) == YieldNow(Yields(s, j))
  {
    YieldNowIs(YieldTimes(s, j));
  }

  lemma TurnsAreYields(s: Sched, j: nat)
    requires AmongPeers(s)
    ensures Turns(YieldNow, s, j) == YieldTimes(s, j)
  {
    forall i: nat | i < j
      ensures Yields(s, i + 1) == YieldNow(Yields(s, i))
    {
      OneMoreYield(s, i);
    }
    SameTurns(YieldNow, s, i => Yields(s, i), j);
  }

  lemma PeersDiffer(s: Sched)
    requires AmongPeers(s)
    ensures NoDup(Peers(s)) && forall t :: t in Peers(s) ==> t in s.threads
  {
    var p := s.threads[s.current.t].priority;
    assert QueueOk(s, p, {});
    assert !IsReady(s, s.current.t, p);
    assert s.current.t !in s.queues[p];
    assert forall t :: t in s.queues[p] ==> IsReady(s, t, p);
    var ps := Peers(s);
    assert forall i :: 0 < i < |ps| ==> ps[i] == s.queues[p][i - 1] && ps[i] in s.queues[p];
  }

  /** Round robin by time: among peers, the j-th has the processor once those in front of it have used up what was left
      of their slices, to the tick; they then have full slices again. */
  lemma SlicesInTurn(x: Sliced<Sched>, j: nat)
    requires AmongPeers(x.sched) && j <= |Peers(x.sched)|
    requires forall i :: 0 <= i < |Peers(x.sched)| ==> HasSlice(x, Peers(x.sched)[i])
    ensures var ps := Peers(x.sched);
            var r := Ticks(YieldNow, CurrentOf, x, WaitFor(x.rest, ps, j));
            && AmongPeers(r.sched) && Peers(r.sched) == ps[j..] + ps[..j]
            && r.sched.current == Someone(ps[if j < |ps| then j else 0])
            && r.rest == Refilled(x.rest, x.full, ps[..j])
  {
    var s, ps := x.sched, Peers(x.sched);
    PeersDiffer(s);
    forall i: nat | i < j
      ensures HasTurn(YieldNow, CurrentOf, s, ps[i], i)
    {
      TurnsAreYields(s, i);
      RoundRobin(s, i);
    }
    TurnsInOrder(YieldNow, CurrentOf, x, ps, j);
    TurnsAreYields(s, j);
    RoundRobin(s, j);
  }

  lemma SameThreads(s: Sched)
    requires SInv(s) && s.current.Someone?
    ensures Yield(s).threads.Keys == s.threads.Keys
  {
    YieldReady(s);
    if s.group != {} {
      TopIsQueued(s);
    }
  }

  /** The ticks of `rt_thread_t`, beside the scheduler's state. */
  class SlicedScheduler {
    const scheduler: Scheduler.SystemScheduler
    var remainingTick: map<Tid, nat>
    var initTick: map<Tid, nat>

    ghost function State(): Sliced<Sched>
      reads this, scheduler
    {
      Sliced(scheduler.View(), remainingTick, initTick)
    }

    ghost predicate Valid()
      reads this, scheduler
    {
      scheduler.Valid() && (forall t :: t in scheduler.threads ==> t in remainingTick && t in initTick)
    }

    /** `_rt_thread_init` sets both fields; what is left of a slice is one tick at least. */
    constructor (s: Scheduler.SystemScheduler, ticks: map<Tid, nat>)
      requires s.Valid() && forall t :: t in s.threads ==> t in ticks
      ensures Valid() && scheduler == s && State() == Sliced(s.View(), ticks, ticks)
    {
      scheduler, remainingTick, initTick := s, ticks, ticks;
    }

    /** `rt_tick_increase`, up to the check of the timers. */
    method TickIncrease()
      requires Valid() && scheduler.currentThread.Someone?
      modifies this, scheduler
      ensures Valid() && State() == TickSlice(YieldNow, CurrentOf(old(scheduler.View())), old(State()))
    {
      var t := scheduler.currentThread.t;
      var left := if remainingTick[t] == 0 then WORD - 1 else remainingTick[t] - 1;
      remainingTick := remainingTick[t := left];
      if remainingTick[t] == 0 {
        remainingTick := remainingTick[t := initTick[t]];
        SameThreads(scheduler.View());
        scheduler.YieldNow();
      }
    }

    /** `rt_thread_yield`: a thread that yields starts its next turn with a full slice. */
    method YieldTurn()
      requires Valid() && scheduler.currentThread.Someone?
      modifies this, scheduler
      ensures Valid() && scheduler.View() == Yield(old(scheduler.View())) && initTick == old(initTick)
      ensures var t := old(scheduler.currentThread.t); remainingTick == old(remainingTick)[t := initTick[t]]
    {
      var t := scheduler.currentThread.t;
      remainingTick := remainingTick[t := initTick[t]];
      SameThreads(scheduler.View());
      scheduler.YieldNow();
    }
  }
}
