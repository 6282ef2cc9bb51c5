/** `struct rt_mutex`. Each method is the interrupt-disabled section of `rt_mutex_take`,
    `rt_mutex_release` or `rt_thread_timeout`, and is proved to be a step of `MutexModel`. */
module Mutex {
  import opened WaitList
  import opened MutexModel

  class PriorityMutex {
    /** The priorities the threads have while they own nothing. */
    ghost const base: map<Tid, nat>

    var value: nat
    var hold: nat
    var owner: Owner
    var originalPriority: nat
    var suspendThread: seq<Tid>
    var waits: map<Tid, int>

    /** `current_priority` of every thread. */
    var currentPriority: map<Tid, nat>

    ghost var since: map<Tid, nat>
    ghost var arrivals: nat
    ghost var contenders: set<Tid>
    ghost var log: seq<Event>

    ghost function View(): MState
      reads this
    {
      MState(value, hold, owner, originalPriority, suspendThread, waits, since, currentPriority, arrivals, contenders,
          log)
    }

    ghost predicate Valid()
      reads this
    {
      MInv(base, View())
    }

    /** `rt_mutex_init` with RT_IPC_FLAG_PRIO, among threads with the given priorities. */
    constructor (priorities: map<Tid, nat>)
      ensures Valid() && base == priorities && View() == Untaken(priorities)
    {
      base := priorities;
      value, hold, owner, originalPriority := 1, 0, NoOwner, NO_PRIORITY;
      suspendThread, waits, since, currentPriority, arrivals := [], map[], map[], priorities, 0;
      contenders, log := {}, [];
    }

    /** `rt_thread_control` with RT_THREAD_CTRL_CHANGE_PRIORITY, as far as the mutex sees it. */
    method ChangePriority(t: Tid, priority: nat)
      modifies this`currentPriority
      ensures currentPriority == old(currentPriority)[t := priority]
    {
      currentPriority := currentPriority[t := priority];
    }

    method RaiseOwner(t: Tid)
      requires owner.OwnedBy? && owner.t in currentPriority && t in currentPriority
      modifies this`currentPriority
      ensures t in currentPriority && owner.t in currentPriority
      ensures var p, o := old(currentPriority), owner.t; currentPriority == if p[t] < p[o] then p[o := p[t]] else p
    {
      if currentPriority[t] < currentPriority[owner.t] {
        ChangePriority(owner.t, currentPriority[t]);
      }
    }

    method Suspend(t: Tid, time: int)
      requires owner.OwnedBy? && owner.t in currentPriority && t in currentPriority
      modifies this
      ensures View() == Block(old(View()), t, time)
    {
      RaiseOwner(t);
      Enqueue(t, time);
    }

    method Enqueue(t: Tid, time: int)
      modifies this`suspendThread, this`waits, this`since, this`arrivals, this`contenders
      ensures suspendThread == WaitList.Suspend(old(suspendThread), t, Prio, currentPriority)
      ensures waits == old(waits)[t := time] && since == old(since)[t := old(arrivals)]
      ensures arrivals == old(arrivals) + 1 && contenders == old(contenders) + {t}
    {
      suspendThread := SuspendOn(suspendThread, t, Prio, currentPriority);
      waits, since := waits[t := time], since[t := arrivals];
      arrivals := arrivals + 1;
      contenders := contenders + {t};
    }

    method Acquire(t: Tid)
      requires value > 0 && hold == 0 && t in currentPriority
      modifies this
      ensures View() == MutexModel.Acquire(old(View()), t)
    {
      value := value - 1;
      owner := OwnedBy(t);
      originalPriority := currentPriority[t];
      if hold < HOLD_MAX {
        hold := hold + 1;
      } else {
        assert false;
      }
      contenders := {};
      log := log + [Granted(t)];
    }

    /** From the first test to the point where interrupts are enabled again. */
    method TakeSection(t: Tid, time: int) returns (status: MStatus)
      requires Books(View()) && Known(View()) && t in currentPriority
      modifies this
      ensures (View(), status) == TryTake(old(View()), t, time)
    {
      if owner == OwnedBy(t) {
        if hold < HOLD_MAX {
          hold := hold + 1;
          log := log + [Granted(t)];
        } else {
          return MFull;
        }
      } else if value > 0 {
        Acquire(t);
      } else {
        if time == 0 {
          return MTimedOut;
        }
        Suspend(t, time);
        return MBlocked;
      }
      return MDone;
    }

    method Take(t: Tid, time: int) returns (status: MStatus)
      requires Valid() && MEnabled(View(), MTake(t, time))
      modifies this
      ensures Valid() && (View(), status) == MStep(old(View()), MTake(t, time))
    {
      MStepKeeps(base, View(), MTake(t, time));
      status := TakeSection(t, time);
    }

    method GrantToFirst()
      requires suspendThread != [] && suspendThread[0] in currentPriority && hold == 0
      modifies this
      ensures View() == HandOver(old(View()))
    {
      var thread := suspendThread[0];
      owner := OwnedBy(thread);
      originalPriority := currentPriority[thread];
      if hold < HOLD_MAX {
        hold := hold + 1;
      } else {
        assert false;
      }
      suspendThread := suspendThread[1..];
      waits := waits - {thread};
      contenders := Members(suspendThread);
      log := log + [Granted(thread)];
    }

    method ReleaseByOwner(t: Tid)
      requires Books(View()) && Known(View()) && owner == OwnedBy(t)
      modifies this
      ensures View() == GiveUp(old(View()), t).0
    {
      hold := hold - 1;
      log := log + [GivenUp(t)];
      if hold == 0 {
        if originalPriority != currentPriority[t] {
          ChangePriority(t, originalPriority);
        }
        if suspendThread != [] {
          assert suspendThread[0] in suspendThread;
          GrantToFirst();
        } else {
          if value < VALUE_MAX {
            value := value + 1;
          } else {
            assert false;
          }
          owner := NoOwner;
          originalPriority := NO_PRIORITY;
          contenders := {};
        }
      }
    }

    method Release(t: Tid) returns (status: MStatus)
      requires Valid() && MEnabled(View(), MRelease(t))
      modifies this
      ensures Valid() && (View(), status) == MStep(old(View()), MRelease(t))
    {
      MStepKeeps(base, View(), MRelease(t));
      if owner != OwnedBy(t) {
        return MError;
      }
      ReleaseByOwner(t);
      return MDone;
    }

    /** rt_thread_timeout for a thread suspended here. */
    method TimeoutOf(t: Tid) returns (status: MStatus)
      requires Valid() && MEnabled(View(), MExpire(t))
      modifies this
      ensures Valid() && (View(), status) == MStep(old(View()), MExpire(t))
    {
      MStepKeeps(base, View(), MExpire(t));
      suspendThread := Without(suspendThread, t);
      waits := waits - {t};
      return MTimedOut;
    }
  }
}
