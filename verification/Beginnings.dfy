/** What a newly initialised object answers to the first call. */
module Beginnings {
  import E = EventModel
  import MailboxModel
  import MemHeapModel
  import P = PoolModel
  import Q = QueueModel
  import S = SlabModel
  import SchedModel
  import ZoneModel

  /** A mailbox starts without mails: there is nothing to receive, and a mail can be sent if there are slots at all. */
  lemma MailboxIsEmpty(c: MailboxModel.Config, t: nat, mail: nat)
    ensures var s := MailboxModel.Run(c, []).0;
            && s.calls == map[]
            && MailboxModel.Step(c, s, MailboxModel.Recv(t, 0)) == (s, MailboxModel.TimedOut)
            && (MailboxModel.Step(c, s, MailboxModel.Send(t, mail, 0)).1 == MailboxModel.Done <==> c.size > 0)
  {
    assert MailboxModel.Empty.calls - {t} == map[];
  }

  /** A queue starts without messages, with every node to be had. */
  lemma QueueIsEmpty(c: Q.QConfig, data: map<Q.Node, Q.Bytes>, t: nat, msg: Q.Bytes)
    requires Q.PoolOk(c, data) && |msg| <= c.msgSize
    ensures var s := Q.QRun(c, data, []).0;
            && |s.free| == c.maxMsgs && s.calls == map[]
            && Q.QStep(c, s, Q.QRecv(t, c.msgSize, 0)) == (s, Q.QTimedOut)
            && Q.QStep(c, s, Q.QSend(t, msg, 0)).1 == if c.maxMsgs > 0 then Q.Going else Q.QFull
  {
    assert Q.FreshQueue(c, data).calls - {t} == map[];
  }

  /** A pool starts with every block free, and hands out block 0 first. */
  lemma PoolIsFull(total: nat, t: nat)
    ensures var s := P.PRun(total, []).0;
            && |s.free| == total && s.live == {} && s.calls == map[]
            && P.PStep(s, P.PAlloc(t, 0)).1 == if total > 0 then P.PGot(0) else P.PTimedOut
  {
  }

  /** An event set starts with no event set: no receive is met. */
  lemma NoEventIsSet(c: E.EConfig, t: nat, w: E.Want)
    requires E.EEnabled(c, E.ERun(c, []).0, E.ERecv(t, w)) && w.mask != {} && w.time == 0
    ensures var s := E.ERun(c, []).0;
            s.bits == {} && s.calls == map[] && E.EStep(c, s, E.ERecv(t, w)) == (s, E.ETimedOut)
  {
  }

  /** The scheduler starts with no thread ready and none current; the first that is started is ready and alone. */
  lemma NobodyIsReady(threads: map<nat, SchedModel.Thread>, t: nat)
    requires SchedModel.AllInit(threads) && t in threads
    ensures var s := SchedModel.SRun(threads, []).0;
            && s.current.NoThread? && s.locks == 0 && s.threads == threads
            && SchedModel.SEnabled(s, SchedModel.SStartup(t))
            && SchedModel.SStep(s, SchedModel.SStartup(t)).queues[threads[t].initPriority] == [t]
  {
  }

  /** A memory heap starts with all but two headers available, and serves every smaller request. */
  lemma HeapServes(size: nat, n: nat)
    requires 2 * MemHeapModel.HDR <= size < MemHeapModel.WORD && size % 4 == 0
    ensures var s := MemHeapModel.Fresh(size);
            s.avail == size - 2 * MemHeapModel.HDR && (n < s.avail <==> MemHeapModel.Alloc(s, size, n).1.At?)
  {
    var s := MemHeapModel.Fresh(size);
    assert s.free == [0];
  }

  /** The slab heap starts with nothing in use but the pages of its page map. */
  lemma SlabIsUnused(usage: seq<S.Usage>)
    requires 0 < |usage| <= 0x10_0000
    ensures var s := S.FreshSlab(usage);
            && s.used == 0 && s.live == map[] && s.zones == map[] && s.spare == []
            && s.ledger.held == map[0 := S.PagesFor(4 * |usage|)]
  {
    S.PageMapFits(|usage|);
  }
}
