/** `struct rt_event`. Each method is one interrupt-disabled section of `rt_event_send`, `rt_event_recv`,
    `rt_event_control` or `rt_thread_timeout`, and is proved to be a step of `EventModel`. */
module Event {
  import opened LinkedNodes
  import opened WaitList
  import opened EventModel

  class EventSet {
    const config: EConfig

    /** The event set itself (`set` in the source). */
    var bits: Events
    var suspendThread: seq<Tid>

    /** What each thread asked for, and the `event_set` a woken thread has been left. */
    var calls: map<Tid, Want>
    var got: map<Tid, Events>

    ghost function View(): EState
      reads this
    {
      EState(bits, suspendThread, calls, got)
    }

    ghost predicate Valid()
      reads this
    {
      EInv(config, View())
    }

    /** `rt_event_init`. */
    constructor (c: EConfig)
      ensures Valid() && View() == NoEvents && config == c
    {
      config := c;
      bits, suspendThread, calls, got := {}, [], map[], map[];
    }

    /** The walk along the waiters: `n` is the one looked at. */
    method Serve()
      requires NoDup(suspendThread) && Asks(calls, suspendThread)
      modifies this`bits, this`suspendThread, this`got
      ensures bits == Scan(old(suspendThread), calls, old(bits)).left
      ensures suspendThread == Scan(old(suspendThread), calls, old(bits)).rest
      ensures got == Handed(old(got), Scan(old(suspendThread), calls, old(bits)).given)
    {
      ghost var whole, before := Scan(suspendThread, calls, bits), got;
      var n := 0;
      while n < |suspendThread|
        invariant n <= |suspendThread| && NoDup(suspendThread) && Asks(calls, suspendThread)
        invariant forall t :: t in suspendThread[n..] ==> t in calls
        invariant Continues(whole, suspendThread[..n], Scan(suspendThread[n..], calls, bits), before, got)
        decreases |suspendThread| - n
      {
        var thread := suspendThread[n];
        var w := calls[thread];
        ghost var behind := suspendThread[n..];
        assert behind[0] == thread && behind[1..] == suspendThread[n + 1..];
        ScanTurn(whole, suspendThread[..n], behind, calls, bits, before, got);
        if w.flags.conj || w.flags.any {
          if Met(w, bits) {
            var received := Taken(w, bits);
            if w.flags.clear {
              bits := bits - received;
            }
            got := got[thread := received];
            Drop(n);
          } else {
            assert suspendThread[..n] + [thread] == suspendThread[..n + 1];
            n := n + 1;
          }
        } else {
          assert false;
        }
      }
    }

    /** rt_thread_resume takes the thread out of the list. */
    method Drop(n: nat)
      requires n < |suspendThread| && NoDup(suspendThread) && Asks(calls, suspendThread)
      modifies this`suspendThread
      ensures suspendThread == old(suspendThread[..n] + suspendThread[n + 1..])
      ensures suspendThread[n..] == old(suspendThread[n + 1..]) && suspendThread[..n] == old(suspendThread[..n])
      ensures NoDup(suspendThread) && Asks(calls, suspendThread)
    {
      ghost var q := suspendThread;
      suspendThread := suspendThread[..n] + suspendThread[n + 1..];
      assert forall i :: 0 <= i < |suspendThread| ==> suspendThread[i] == q[if i < n then i else i + 1];
      assert forall t :: t in suspendThread ==> t in q;
    }

    method Send(events: Events) returns (status: EStatus)
      requires Valid()
      modifies this
      ensures Valid() && (View(), status) == EStep(config, old(View()), ESend(events))
    {
      EStepKeeps(config, View(), ESend(events));
      if events == {} {
        return EError;
      }
      bits := bits + events;
      if suspendThread != [] {
        Serve();
      }
      return EDone;
    }

    method Recv(t: Tid, w: Want) returns (status: EStatus)
      requires Valid() && EEnabled(config, View(), ERecv(t, w))
      modifies this
      ensures Valid() && (View(), status) == EStep(config, old(View()), ERecv(t, w))
    {
      EStepKeeps(config, View(), ERecv(t, w));
      if w.mask == {} {
        return EError;
      }
      var met := false;
      if w.flags.conj {
        if w.mask <= bits {
          met := true;
        }
      } else if w.flags.any {
        if bits * w.mask != {} {
          met := true;
        }
      } else {
        assert false;
      }
      if met {
        status := EGot(bits * w.mask);
        if w.flags.clear {
          bits := bits - w.mask;
        }
      } else if w.time == 0 {
        status := ETimedOut;
      } else {
        suspendThread := SuspendOn(suspendThread, t, config.order, config.priority);
        calls := calls[t := w];
        status := EBlocked;
      }
    }

    /** The last section of a receive that had to wait. */
    method RecvAgain(t: Tid) returns (status: EStatus)
      requires Valid() && EEnabled(config, View(), ERerun(t))
      modifies this
      ensures Valid() && (View(), status) == EStep(config, old(View()), ERerun(t))
    {
      EStepKeeps(config, View(), ERerun(t));
      status := EGot(got[t]);
      calls := calls - {t};
      got := got - {t};
    }

    method TimeoutOf(t: Tid) returns (status: EStatus)
      requires Valid() && EEnabled(config, View(), EExpire(t))
      modifies this
      ensures Valid() && (View(), status) == EStep(config, old(View()), EExpire(t))
    {
      EStepKeeps(config, View(), EExpire(t));
      suspendThread := Without(suspendThread, t);
      calls := calls - {t};
      return ETimedOut;
    }

    /** rt_event_control with RT_IPC_CMD_RESET. */
    method ResetSet() returns (status: EStatus)
      requires Valid()
      modifies this
      ensures Valid() && (View(), status) == EStep(config, old(View()), EReset)
    {
      EStepKeeps(config, View(), EReset);
      calls := ResumeAll(suspendThread, calls);
      suspendThread := [];
      bits := {};
      return EDone;
    }
  }
}
