/** `struct rt_mailbox` over its ring buffer. Each method is one interrupt-disabled section, and is
    proved to be the step of `MailboxModel` it stands for. */
module Mailbox {
  import opened WaitList
  import opened MailboxModel

  const ENTRY_MAX: nat := 0xFFFF

  class MessageBox {
    const config: Config
    const msgPool: array<Mail>
    var entry: nat
    var inOffset: nat
    var outOffset: nat
    var suspendThread: seq<Tid>
    var suspendSenderThread: seq<Tid>

    /** The threads inside a call: what they remember, and which of them have been resumed. */
    var calls: map<Tid, Phase>
    var wokenReceivers: set<Tid>
    var wokenSenders: set<Tid>

    ghost var mails: seq<Mail>
    ghost var accepted: seq<Mail>
    ghost var left: seq<Exit>

    /** Where the i-th stored mail is. */
    function Slot(i: nat): nat
      reads this`outOffset
    {
      if outOffset + i < config.size || config.size == 0 then outOffset + i else outOffset + i - config.size
    }

    ghost predicate Ring()
      reads this, msgPool
    {
      && msgPool.Length == config.size <= ENTRY_MAX
      && |mails| == entry <= config.size
      && (if config.size == 0 then outOffset == 0 else outOffset < config.size)
      && inOffset == Slot(entry)
      && forall i :: 0 <= i < entry ==> msgPool[Slot(i)] == mails[i]
    }

    ghost function View(): State
      reads this
    {
      State(mails, Waiters(suspendThread, wokenReceivers), Waiters(suspendSenderThread, wokenSenders), calls, accepted,
          left)
    }

    /** `rt_mb_init`. */
    constructor (c: Config)
      requires c.size <= ENTRY_MAX
      ensures Ring() && View() == Empty && config == c && fresh(msgPool)
    {
      config := c;
      msgPool := new Mail[c.size];
      entry, inOffset, outOffset := 0, 0, 0;
      suspendThread, suspendSenderThread := [], [];
      calls, wokenReceivers, wokenSenders := map[], {}, {};
      mails, accepted, left := [], [], [];
    }

    // ---------- the ring ----------

    method Put(value: Mail)
      requires Ring() && entry < config.size
      modifies this`entry, this`inOffset, this`mails, msgPool
      ensures Ring() && mails == old(mails) + [value]
    {
      msgPool[inOffset] := value;
      inOffset := inOffset + 1;
      if inOffset >= config.size {
        inOffset := 0;
      }
      if entry < ENTRY_MAX {
        entry := entry + 1;
      } else {
        assert false;
      }
      mails := mails + [value];
    }

    method Get() returns (value: Mail)
      requires Ring() && entry > 0
      modifies this`entry, this`outOffset, this`mails
      ensures Ring() && value == old(mails)[0] && mails == old(mails)[1..]
    {
      assert Slot(0) == outOffset;
      value := msgPool[outOffset];
      outOffset := outOffset + 1;
      if outOffset >= config.size {
        outOffset := 0;
      }
      if entry > 0 {
        entry := entry - 1;
      }
      mails := mails[1..];
    }

    // ---------- sections of rt_mb_send_wait ----------

    method StoreMail(t: Tid, value: Mail)
      requires Ring() && entry < config.size
      modifies this, msgPool
      ensures Ring() && View() == Store(old(View()), t, value)
    {
      Put(value);
      accepted := accepted + [value];
      calls := calls - {t};
      if suspendThread != [] {
        wokenReceivers := wokenReceivers + {suspendThread[0]};
        suspendThread := suspendThread[1..];
      }
    }

    method SuspendSender(t: Tid, value: Mail, timeout: int)
      requires Ring()
      modifies this`suspendSenderThread, this`calls
      ensures Ring() && View() == ParkSender(config, old(View()), t, value, timeout)
    {
      suspendSenderThread := SuspendOn(suspendSenderThread, t, config.order, config.priority);
      calls := calls[t := Sending(value, timeout)];
    }

    /** From the loop test to the point where interrupts are enabled again. */
    method SendSection(t: Tid, value: Mail, timeout: int) returns (status: Status)
      requires Ring()
      modifies this, msgPool
      ensures Ring() && (View(), status) == TrySend(config, old(View()), t, value, timeout)
    {
      if entry == config.size {
        if timeout == 0 {
          calls := calls - {t};
          return Full;
        }
        SuspendSender(t, value, timeout);
        return Blocked;
      }
      StoreMail(t, value);
      return Done;
    }

    method SendWait(t: Tid, value: Mail, timeout: int) returns (status: Status)
      requires Ring() && Enabled(View(), Send(t, value, timeout))
      modifies this, msgPool
      ensures Ring() && (View(), status) == Step(config, old(View()), Send(t, value, timeout))
    {
      status := SendSection(t, value, timeout);
    }

    method SendAgain(t: Tid, elapsed: nat) returns (status: Status)
      requires Ring() && Enabled(View(), ResumeSend(t, elapsed))
      modifies this, msgPool
      ensures Ring() && (View(), status) == Step(config, old(View()), ResumeSend(t, elapsed))
    {
      var phase := calls[t];
      wokenSenders := wokenSenders - {t};
      status := SendSection(t, phase.mail, Remaining(phase.timeout, elapsed));
    }

    // ---------- sections of rt_mb_recv ----------

    method TakeMail(t: Tid) returns (value: Mail)
      requires Ring() && entry > 0
      modifies this
      ensures Ring() && View() == Take(old(View()), t) && value == old(mails)[0]
    {
      value := Get();
      left := left + [Exit(value, true)];
      calls := calls - {t};
      if suspendSenderThread != [] {
        wokenSenders := wokenSenders + {suspendSenderThread[0]};
        suspendSenderThread := suspendSenderThread[1..];
      }
    }

    method SuspendReceiver(t: Tid, timeout: int)
      requires Ring()
      modifies this`suspendThread, this`calls
      ensures Ring() && View() == ParkReceiver(config, old(View()), t, timeout)
    {
      suspendThread := SuspendOn(suspendThread, t, config.order, config.priority);
      calls := calls[t := Receiving(timeout)];
    }

    method RecvSection(t: Tid, timeout: int) returns (status: Status)
      requires Ring()
      modifies this
      ensures Ring() && (View(), status) == TryRecv(config, old(View()), t, timeout)
    {
      if entry == 0 {
        if timeout == 0 {
          calls := calls - {t};
          return TimedOut;
        }
        SuspendReceiver(t, timeout);
        return Blocked;
      }
      var value := TakeMail(t);
      return Got(value);
    }

    method RecvWait(t: Tid, timeout: int) returns (status: Status)
      requires Ring() && Enabled(View(), Recv(t, timeout))
      modifies this
      ensures Ring() && (View(), status) == Step(config, old(View()), Recv(t, timeout))
    {
      status := RecvSection(t, timeout);
    }

    method RecvAgain(t: Tid, elapsed: nat) returns (status: Status)
      requires Ring() && Enabled(View(), ResumeRecv(t, elapsed))
      modifies this
      ensures Ring() && (View(), status) == Step(config, old(View()), ResumeRecv(t, elapsed))
    {
      var phase := calls[t];
      wokenReceivers := wokenReceivers - {t};
      status := RecvSection(t, Remaining(phase.timeout, elapsed));
    }

    // ---------- the others ----------

    /** rt_thread_timeout for a thread suspended here; its call returns without a further look. */
    method TimeoutOf(t: Tid) returns (status: Status)
      requires Ring() && Enabled(View(), Expire(t))
      modifies this
      ensures Ring() && (View(), status) == Step(config, old(View()), Expire(t))
    {
      suspendSenderThread := Without(suspendSenderThread, t);
      suspendThread := Without(suspendThread, t);
      calls := calls - {t};
      status := TimedOut;
    }

    method ResumeEveryone()
      requires Ring()
      modifies this`calls, this`suspendThread, this`suspendSenderThread
      ensures Ring()
      ensures suspendThread == [] && suspendSenderThread == []
      ensures calls == old(calls) - Members(old(suspendThread)) - Members(old(suspendSenderThread))
    {
      calls := ResumeAll(suspendThread, calls);
      suspendThread := [];
      calls := ResumeAll(suspendSenderThread, calls);
      suspendSenderThread := [];
    }

    /** rt_mb_control with RT_IPC_CMD_RESET. */
    method ResetBox() returns (status: Status)
      requires Ring()
      modifies this
      ensures Ring() && (View(), status) == Step(config, old(View()), Reset)
    {
      ResumeEveryone();
      left, mails := left + Dropped(mails), [];
      entry, inOffset, outOffset := 0, 0, 0;
      status := Done;
    }
  }
}
