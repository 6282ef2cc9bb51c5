/** The scheduler's global state. Each method is the body of one function of `scheduler.c` or `thread.c`, and
    is proved to do what `SchedModel` says. */
module Scheduler {
  import opened LinkedNodes
  import opened WaitList
  import opened SchedModel

  class SystemScheduler {
    var priorityTable: seq<seq<Tid>>
    var readyGroup: set<nat>
    var threads: map<Tid, Thread>
    var currentThread: Current
    var lockNest: nat

    ghost function View(): Sched
      reads this
    {
      Sched(priorityTable, readyGroup, threads, currentThread, lockNest)
    }

    ghost predicate Valid()
      reads this
    {
      SInv(View())
    }

    /** `rt_system_scheduler_init`, with threads that `_rt_thread_init` has initialised. */
    constructor (initialised: map<Tid, Thread>)
      requires AllInit(initialised)
      ensures Valid() && View() == NoneReady(initialised)
    {
      priorityTable := seq(PRIORITIES, _ => []);
      readyGroup, threads, currentThread, lockNest := {}, initialised, NoThread, 0;
      NoneReadyInv(initialised);
    }

    method InsertThread(t: Tid)
      requires Known(View(), t)
      modifies this`priorityTable, this`readyGroup, this`threads
      ensures View() == Insert(old(View()), t)
    {
      var thread := threads[t];
      if currentThread == Someone(t) {
        threads := threads[t := thread.(phase := Running)];
        return;
      }
      threads := threads[t := thread.(phase := Ready)];
      var p := thread.priority;
      priorityTable := priorityTable[p := priorityTable[p] + [t]];
      readyGroup := readyGroup + {p};
    }

    method RemoveThread(t: Tid)
      requires Known(View(), t)
      modifies this`priorityTable, this`readyGroup
      ensures View() == Remove(old(View()), t)
    {
      var p := threads[t].priority;
      priorityTable := priorityTable[p := Without(priorityTable[p], t)];
      if priorityTable[p] == [] {
        readyGroup := readyGroup - {p};
      }
    }

    /** `_get_highest_priority_thread`. */
    method GetHighestPriorityThread() returns (t: Tid, highest: nat)
      requires Valid() && readyGroup != {}
      ensures highest == FirstBit(readyGroup, 0) && highest < PRIORITIES && priorityTable[highest] != []
      ensures t == priorityTable[highest][0] && Known(View(), t)
    {
      TopIsQueued(View());
      highest := 0;
      while highest !in readyGroup
        invariant highest <= FirstBit(readyGroup, 0) == FirstBit(readyGroup, highest) < PRIORITIES
        decreases PRIORITIES - highest
      {
        highest := highest + 1;
      }
      t := priorityTable[highest][0];
    }

    method SwitchTo(to: Tid, insertFrom: bool)
      requires currentThread.Someone? && Known(View(), to) && Known(View(), currentThread.t)
      modifies this
      ensures View() == Switch(old(View()), to, insertFrom)
    {
      var fromThread := currentThread.t;
      currentThread := Someone(to);
      if insertFrom {
        InsertThread(fromThread);
      }
      RemoveThread(to);
      threads := threads[to := threads[to].(phase := Running)];
    }

    method ClearYield(t: Tid)
      requires t in threads
      modifies this`threads
      ensures threads == old(threads)[t := old(threads)[t].(gaveUp := false)]
    {
      threads := threads[t := threads[t].(gaveUp := false)];
    }

    /** `rt_schedule`. */
    method DoSchedule()
      requires Valid() && currentThread.Someone?
      modifies this
      ensures Valid() && View() == Schedule(old(View()))
    {
      ScheduleKeeps(View());
      if lockNest == 0 && readyGroup != {} {
        var insertFrom := false;
        var to, highest := GetHighestPriorityThread();
        var me := currentThread.t;
        var c := threads[me];
        if c.phase == Running {
          if c.priority < highest {
            to := me;
          } else if c.priority == highest && !c.gaveUp {
            to := me;
          } else {
            insertFrom := true;
          }
          ClearYield(me);
        }
        TopIsQueued(old(View()));
        if to != me {
          SwitchTo(to, insertFrom);
        } else {
          RemoveThread(me);
          threads := threads[me := threads[me].(phase := Running)];
        }
      }
    }

    /** `rt_thread_suspend`. */
    method SuspendThread(t: Tid) returns (ok: bool)
      requires Valid() && t in threads
      modifies this
      ensures Valid() && (View(), ok) == SchedModel.Suspend(old(View()), t)
    {
      SuspendKeeps(View(), t);
      if threads[t].phase != Ready && threads[t].phase != Running {
        return false;
      }
      RemoveThread(t);
      threads := threads[t := threads[t].(phase := Suspended)];
      return true;
    }

    /** `rt_thread_resume`. */
    method ResumeThread(t: Tid) returns (ok: bool)
      requires Valid() && t in threads
      modifies this
      ensures Valid() && (View(), ok) == Resume(old(View()), t)
    {
      ResumeKeeps(View(), t);
      if threads[t].phase != Suspended {
        return false;
      }
      InsertThread(t);
      return true;
    }

    /** `rt_thread_timeout`. */
    method ThreadTimeout(t: Tid)
      requires Valid() && SEnabled(View(), STimeout(t))
      modifies this
      ensures Valid() && View() == SStep(old(View()), STimeout(t))
    {
      ResumeKeeps(View(), t);
      InsertThread(t);
      DoSchedule();
    }

    /** `rt_thread_yield`. */
    method YieldNow()
      requires Valid() && currentThread.Someone?
      modifies this
      ensures Valid() && View() == Yield(old(View()))
    {
      YieldReady(View());
      var me := currentThread.t;
      threads := threads[me := threads[me].(gaveUp := true)];
      DoSchedule();
    }

    /** RT_THREAD_CTRL_CHANGE_PRIORITY. */
    method ChangePriority(t: Tid, priority: nat)
      requires Valid() && t in threads && priority < PRIORITIES
      modifies this
      ensures Valid() && View() == SetPriority(old(View()), t, priority)
    {
      SetPriorityKeeps(View(), t, priority);
      if threads[t].phase == Ready {
        RemoveThread(t);
        threads := threads[t := threads[t].(priority := priority)];
        InsertThread(t);
      } else {
        threads := threads[t := threads[t].(priority := priority)];
      }
    }

    /** `rt_thread_startup`. */
    method Startup(t: Tid)
      requires Valid() && SEnabled(View(), SStartup(t))
      modifies this
      ensures Valid() && View() == SStep(old(View()), SStartup(t))
    {
      LaunchKeeps(View(), t);
      var thread := threads[t];
      threads := threads[t := thread.(priority := thread.initPriority, phase := Suspended, gaveUp := false)];
      InsertThread(t);
      if currentThread.Someone? {
        DoSchedule();
      }
    }

    /** `rt_thread_delete` and `rt_thread_detach`. */
    method DeleteThread(t: Tid)
      requires Valid() && t in threads
      modifies this
      ensures Valid() && View() == Delete(old(View()), t)
    {
      DeleteKeeps(View(), t);
      if threads[t].phase == Closed {
        return;
      }
      if threads[t].phase != Init {
        RemoveThread(t);
      }
      threads := threads[t := threads[t].(phase := Closed, gaveUp := false)];
    }

    /** `rt_thread_exit`. */
    method ExitThread()
      requires Valid() && currentThread.Someone?
      modifies this
      ensures Valid() && View() == SStep(old(View()), SExit)
    {
      DeleteThread(currentThread.t);
      DoSchedule();
    }

    /** `rt_system_scheduler_start`. */
    method Start()
      requires Valid() && SEnabled(View(), SBegin)
      modifies this
      ensures Valid() && View() == SStep(old(View()), SBegin)
    {
      SStepKeeps(View(), SBegin);
      var to, highest := GetHighestPriorityThread();
      currentThread := Someone(to);
      RemoveThread(to);
      threads := threads[to := threads[to].(phase := Running)];
    }

    /** `rt_enter_critical` and `rt_exit_critical`. */
    method EnterCritical()
      requires Valid()
      modifies this
      ensures Valid() && View() == SStep(old(View()), SEnter)
    {
      SStepKeeps(View(), SEnter);
      lockNest := lockNest + 1;
    }

    method ExitCritical()
      requires Valid()
      modifies this
      ensures Valid() && View() == SStep(old(View()), SLeave)
    {
      SStepKeeps(View(), SLeave);
      var nest: int := lockNest - 1;
      if nest <= 0 {
        SameQueues(View(), View().(locks := 0), {});
        lockNest := 0;
        if currentThread.Someone? {
          DoSchedule();
        }
      } else {
        lockNest := nest;
      }
    }
  }
}
