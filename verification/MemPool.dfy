/** `struct rt_mempool`: the blocks' headers, threaded into a free list. Each method is one
    interrupt-disabled section, and is proved to be the step of `PoolModel` it stands for. */
module MemPool {
  import opened LinkedNodes
  import opened WaitList
  import opened MailboxModel
  import opened PoolModel

  class MemoryPool {
    /** The first word of each block: the next free block, or `OWNED` for the pool's own address. */
    const header: array<int>
    var blockList: int
    var freeCount: nat
    var suspendThread: seq<Tid>
    var calls: map<Tid, int>
    var woken: set<Tid>

    ghost var free: seq<BlockId>
    ghost var live: set<BlockId>

    static const OWNED: int := -2

    ghost function View(): Pool
      reads this
    {
      Pool(free, live, Waiters(suspendThread, woken), calls)
    }

    ghost predicate Shape()
      reads this, header
    {
      && Chain(header[..], blockList, free) && freeCount == |free|
      && forall b :: b in live ==> b < header.Length && header[b] == OWNED
    }

    ghost predicate Valid()
      reads this, header
    {
      Shape() && PInv(header.Length, View())
    }

    /** `rt_mp_init`; the source needs room for one block at least. */
    constructor (total: nat)
      requires total > 0
      ensures Valid() && View() == FullPool(total) && header.Length == total && fresh(header)
    {
      header := new int[total];
      blockList, freeCount := 0, total;
      suspendThread, calls, woken := [], map[], {};
      free, live := Numbers(total), {};
      new;
      Thread();
      FullPoolInv(total);
    }

    /** The loop of `rt_mp_init`, and the end of the list. */
    method Thread()
      requires header.Length > 0
      modifies header
      ensures Chain(header[..], 0, Numbers(header.Length))
    {
      var offset := 0;
      while offset < header.Length
        invariant offset <= header.Length
        invariant forall i :: 0 <= i < offset ==> header[i] == i + 1
      {
        header[offset] := offset + 1;
        offset := offset + 1;
      }
      header[offset - 1] := NIL;
      CountingChain(header[..], 0);
      assert Numbers(header.Length)[0..] == Numbers(header.Length);
    }

    static lemma {:induction false} CountingChain(next: seq<int>, from: nat)
      requires from < |next| && next[|next| - 1] == NIL && forall i :: 0 <= i < |next| - 1 ==> next[i] == i + 1
      ensures Chain(next, from, Numbers(|next|)[from..])
      decreases |next| - from
    {
      var q := Numbers(|next|)[from..];
      assert q[1..] == Numbers(|next|)[from + 1..];
      if from + 1 < |next| {
        CountingChain(next, from + 1);
      }
    }

    method TakeBlock() returns (b: BlockId)
      requires Shape() && free != [] && free[0] !in free[1..]
      modifies this`blockList, this`freeCount, this`free, this`live, header
      ensures Shape() && b == old(free)[0] && free == old(free)[1..] && live == old(live) + {b}
    {
      freeCount := freeCount - 1;
      b := blockList;
      blockList := header[b];
      ghost var was := header[..];
      header[b] := OWNED;
      assert header[..] == was[b := OWNED];
      ChainFrame(was, blockList, free[1..], b, OWNED);
      free := free[1..];
      live := live + {b};
    }

    method Suspend(t: Tid, time: int)
      requires Shape()
      modifies this`suspendThread, this`calls
      ensures Shape() && suspendThread == [t] + old(suspendThread) && calls == old(calls)[t := time]
    {
      suspendThread := [t] + suspendThread;
      calls := calls[t := time];
    }

    /** From the loop test to the point where interrupts are enabled again. */
    method AllocSection(t: Tid, time: int) returns (status: PStatus)
      requires Shape() && (free != [] ==> free[0] !in free[1..])
      modifies this, header
      ensures Shape() && (View(), status) == TryAlloc(old(View()), t, time)
    {
      if freeCount == 0 {
        if time == 0 {
          calls := calls - {t};
          return PTimedOut;
        }
        Suspend(t, time);
        return PBlocked;
      }
      var b := TakeBlock();
      calls := calls - {t};
      return PGot(b);
    }

    lemma FirstOnce()
      requires NoDup(free)
      ensures free != [] ==> free[0] !in free[1..]
    {
    }

    method Alloc(t: Tid, time: int) returns (status: PStatus)
      requires Valid() && PEnabled(View(), PAlloc(t, time))
      modifies this, header
      ensures Valid() && (View(), status) == PStep(old(View()), PAlloc(t, time))
    {
      PStepKeeps(header.Length, View(), PAlloc(t, time));
      FirstOnce();
      status := AllocSection(t, time);
    }

    method AllocAgain(t: Tid, elapsed: nat) returns (status: PStatus)
      requires Valid() && PEnabled(View(), PResume(t, elapsed))
      modifies this, header
      ensures Valid() && (View(), status) == PStep(old(View()), PResume(t, elapsed))
    {
      PStepKeeps(header.Length, View(), PResume(t, elapsed));
      FirstOnce();
      var time := calls[t];
      woken := woken - {t};
      status := AllocSection(t, Remaining(time, elapsed));
    }

    method GiveBlock(b: BlockId)
      requires Shape() && b in live && b !in free
      modifies this`blockList, this`freeCount, this`free, this`live, header
      ensures Shape() && free == [b] + old(free) && live == old(live) - {b}
    {
      freeCount := freeCount + 1;
      ghost var was := header[..];
      header[b] := blockList;
      assert header[..] == was[b := blockList];
      ChainFrame(was, blockList, free, b, blockList);
      blockList := b;
      free := [b] + free;
      assert free[1..] == old(free);
      live := live - {b};
    }

    method Free(b: BlockId) returns (status: PStatus)
      requires Valid() && PEnabled(View(), PFree(b))
      modifies this, header
      ensures Valid() && (View(), status) == PStep(old(View()), PFree(b))
    {
      PStepKeeps(header.Length, View(), PFree(b));
      GiveBlock(b);
      if suspendThread != [] {
        woken := woken + {suspendThread[0]};
        suspendThread := suspendThread[1..];
      }
      return PDone;
    }

    method TimeoutOf(t: Tid) returns (status: PStatus)
      requires Valid() && PEnabled(View(), PExpire(t))
      modifies this
      ensures Valid() && (View(), status) == PStep(old(View()), PExpire(t))
    {
      PStepKeeps(header.Length, View(), PExpire(t));
      suspendThread := Without(suspendThread, t);
      calls := calls - {t};
      return PTimedOut;
    }
  }
}
