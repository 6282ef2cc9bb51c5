/** The hard timer list of `timer.c`, and the tick of `clock.c`: 32-bit tick counts, a skip list, and the
    temporary list of `rt_timer_check`. Every method is proved to do what `TimerModel` does in unbounded time. */
module SysTimer {
  import opened LinkedNodes
  import opened WaitList
  import opened SkipList
  import opened TimerModel

  const WORD: nat := 0x1_0000_0000

  /** The low 32 bits. */
  function Low32(n: nat): (r: nat)
    ensures r < WORD
  {
    n % WORD
  }

  /** Addition and subtraction of `rt_tick_t`. */
  function Add32(a: nat, b: nat): (d: nat)
    ensures d < WORD
  {
    (a + b) % WORD
  }

  function Sub32(a: nat, b: nat): (d: nat)
    ensures d < WORD
  {
    (a - b) % WORD
  }

  lemma AddOfLow(a: nat, b: nat)
    ensures Add32(Low32(a), b) == Low32(a + b)
  {
  }

  lemma SubOfLow(a: nat, b: nat)
    ensures Sub32(Low32(a), Low32(b)) == (a - b) % WORD
  {
    ShiftMod(a % WORD - b % WORD, a / WORD - b / WORD);
    assert a - b == a % WORD - b % WORD + WORD * (a / WORD - b / WORD);
  }

  lemma ShiftMod(x: int, k: int)
    ensures (x + WORD * k) % WORD == x % WORD
  {
  }

  /** The comparison in `rt_timer_start` orders ticks that are near each other as unbounded time does. */
  lemma LaterTick(a: nat, b: nat)
    requires a < b + HALF && b < a + HALF
    ensures Sub32(Low32(a), Low32(b)) == 0 <==> a == b
    ensures Sub32(Low32(a), Low32(b)) != 0 && Sub32(Low32(a), Low32(b)) < HALF <==> a > b
  {
    SubOfLow(a, b);
  }

  /** And so does the one in `rt_timer_check`. */
  lemma TickReached(now: nat, due: nat)
    requires now <= due < now + HALF
    ensures Sub32(Low32(now), Low32(due)) < HALF <==> due <= now
  {
    SubOfLow(now, due);
  }

  /** Positions before `from` hold nothing later than t, so the search may begin there. */
  lemma {:induction false} PlaceSkips(q: seq<TimerId>, t: TimerId, rank: map<TimerId, nat>, from: nat)
    requires from <= |q| && AllAtMost(q[..from], t, rank)
    ensures PlaceFrom(q, t, rank, from) == PlaceFrom(q, t, rank, 0)
  {
    if from > 0 {
      assert q[..from][from - 1] == q[from - 1] && q[from - 1] in q[..from];
      assert forall x :: x in q[..from - 1] ==> x in q[..from];
      PlaceSkips(q, t, rank, from - 1);
    }
  }

  /** The tick counts of the timers in a row stand for deadlines that are near that of u. */
  ghost predicate Near(row: seq<TimerId>, timeoutTick: map<TimerId, nat>, due: map<TimerId, nat>, u: TimerId) {
    && u in due && u in timeoutTick && timeoutTick[u] == Low32(due[u])
    && forall x :: x in row ==>
         x in due && x in timeoutTick && timeoutTick[x] == Low32(due[x])
         && due[x] < due[u] + HALF && due[u] < due[x] + HALF
  }

  /** The 32-bit tick counts of the deadlines. */
  ghost predicate Wrapped(q: seq<TimerId>, timeoutTick: map<TimerId, nat>, due: map<TimerId, nat>) {
    forall u :: u in q ==> u in timeoutTick && u in due && timeoutTick[u] == Low32(due[u])
  }

  /** With u taken out and given its new deadline, the others are sorted and near it. */
  ghost predicate Ready(q: seq<TimerId>, ticks: map<TimerId, nat>, was: map<TimerId, nat>, u: TimerId, deadline: nat) {
    Insertable(Without(q, u), ticks[u := Low32(deadline)], was[u := deadline], u)
  }

  ghost predicate Insertable(q: seq<TimerId>, ticks: map<TimerId, nat>, due: map<TimerId, nat>, u: TimerId) {
    Near(q, ticks, due, u) && Sorted(q, due)
  }

  lemma ReadyToInsert(s: Timers, u: TimerId, ticks: map<TimerId, nat>)
    requires Timed(s) && InDueOrder(s) && u in s.init && Wrapped(s.queue, ticks, s.due)
    ensures Ready(s.queue, ticks, s.due, u, s.now + s.init[u])
  {
    var q, due := Without(s.queue, u), s.due[u := s.now + s.init[u]];
    LineWithout(s.due, s.since, s.queue, u);
    assert forall i :: 0 <= i < |q| ==> q[i] in q;
    forall i, j | 0 <= i < j < |q|
      ensures q[i] in due && q[j] in due && due[q[i]] <= due[q[j]]
    {
      assert InFront(s.due, s.since, q[i], q[j]);
    }
  }

  lemma WrappedAfter(q: seq<TimerId>, ticks: map<TimerId, nat>, due: map<TimerId, nat>, u: TimerId)
    requires Near(q, ticks, due, u)
    ensures Wrapped(Suspend(q, u, Prio, due), ticks, due)
  {
    var r := Suspend(q, u, Prio, due);
    SuspendMembers(q, u, Prio, due);
    assert forall x :: x in r <==> x in Members(r);
  }

  /** The search for the place of u in a row may begin at position `from`. */
  ghost predicate MayStart(row: seq<TimerId>, from: nat, u: TimerId, due: map<TimerId, nat>) {
    from <= |row| && AllAtMost(row[..from], u, due)
  }

  ghost predicate PlacesOk(rows: seq<seq<TimerId>>, places: seq<nat>, u: TimerId, due: map<TimerId, nat>) {
    |places| <= |rows| && forall l :: 0 <= l < |places| ==> places[l] == Place(rows[l], u, Prio, due)
  }

  class TimerList {
    const levels: nat

    /** RT_TIMER_SKIP_LIST_MASK + 1: the mask is 1 or 3. Testing the mask bits is `% base`, and shifting them
        out is `/ base`. */
    const base: nat

    /** `rt_tick` */
    var tick: nat
    var rows: seq<seq<TimerId>>
    var timeoutTick: map<TimerId, nat>
    var initTick: map<TimerId, nat>
    var activated: set<TimerId>
    var periodic: set<TimerId>

    /** The list on the stack of `rt_timer_check`. */
    var tempList: seq<TimerId>
    var randomNr: nat

    ghost var now: nat
    ghost var due: map<TimerId, nat>
    ghost var since: map<TimerId, nat>
    ghost var starts: nat
    ghost var log: seq<Entry>

    ghost predicate Shape()
      reads this
    {
      && |rows| == levels && levels >= 1 && (base == 2 || base == 4) && Stacked(rows)
      && tick == Low32(now) && Wrapped(Bottom(rows), timeoutTick, due)
    }

    ghost function View(): Timers
      requires rows != []
      reads this
    {
      Timers(now, Bottom(rows), due, since, starts, initTick, periodic, activated, tempList, log)
    }

    ghost predicate Valid()
      reads this
    {
      Shape() && TInv(View())
    }

    /** `rt_system_timer_init`, with the timers that `rt_timer_init` has initialised. */
    constructor (rowCount: nat, mask: nat, init: map<TimerId, nat>, periodics: set<TimerId>)
      requires rowCount >= 1 && (mask == 1 || mask == 3) && DelaysOk(init)
      ensures Valid() && View() == NoneStarted(init, periodics)
    {
      levels, base := rowCount, mask + 1;
      tick, randomNr := 0, 0;
      rows := seq(rowCount, _ => []);
      timeoutTick, initTick, activated, periodic, tempList := map[], init, {}, periodics, [];
      now, due, since, starts, log := 0, map[], map[], 0, [];
    }

    // ---------- rt_timer_start ----------

    /** `_rt_timer_remove`: the node may also be in the temporary list. */
    method RemoveNode(u: TimerId)
      modifies this`rows, this`tempList
      ensures rows == RemoveRows(old(rows), u) && tempList == Without(old(tempList), u)
    {
      var i: nat := 0;
      while i < |rows|
        invariant i <= |rows| == |old(rows)| && tempList == old(tempList)
        invariant forall l :: 0 <= l < |rows| ==> rows[l] == if l < i then Without(old(rows)[l], u) else old(rows)[l]
      {
        rows := rows[i := Without(rows[i], u)];
        i := i + 1;
      }
      assert rows == RemoveRows(old(rows), u);
      tempList := Without(tempList, u);
    }

    /** The walk along one row, from a node that does not come after u. */
    method Walk(row: seq<TimerId>, from: nat, u: TimerId) returns (n: nat)
      requires from <= |row| && Near(row, timeoutTick, due, u)
      requires PlaceFrom(row, u, due, from) == PlaceFrom(row, u, due, 0)
      ensures n == Place(row, u, Prio, due)
    {
      n := from;
      while n < |row|
        invariant n <= |row| && PlaceFrom(row, u, due, n) == PlaceFrom(row, u, due, 0)
      {
        var t := row[n];
        assert t in row;
        LaterTick(due[t], due[u]);
        var d := Sub32(timeoutTick[t], timeoutTick[u]);
        if d != 0 && d < HALF {
          break;
        }
        n := n + 1;
      }
    }

    /** `row_head[lvl] + 1`: the node of the same timer in the next row. */
    static method NodeBelow(row: seq<TimerId>, t: TimerId) returns (k: nat)
      requires t in row
      ensures 0 < k <= |row| && row[k - 1] == t
    {
      k := 1;
      while row[k - 1] != t
        invariant 0 < k <= |row| && t in row[k - 1..]
        decreases |row| - k
      {
        assert row[k - 1..][1..] == row[k..];
        k := k + 1;
      }
    }

    /** The nodes in front of which u goes, one for each row. */
    method FindPlaces(u: TimerId) returns (places: seq<nat>)
      requires rows != [] && Stacked(rows) && Sorted(Bottom(rows), due) && u in due
      requires Near(Bottom(rows), timeoutTick, due, u)
      ensures |places| == |rows| && PlacesOk(rows, places, u, due)
    {
      places := [];
      var from: nat := 0;
      while |places| < |rows|
        invariant |places| <= |rows| && PlacesOk(rows, places, u, due)
        invariant |places| < |rows| ==> MayStart(rows[|places|], from, u, due)
      {
        var lvl: nat := |places|;
        var n := PlaceIn(lvl, from, u);
        if lvl < |rows| - 1 {
          from := StartBelow(lvl, n, u);
        }
        places := places + [n];
      }
    }

    method PlaceIn(lvl: nat, from: nat, u: TimerId) returns (n: nat)
      requires lvl < |rows| && Stacked(rows) && Sorted(Bottom(rows), due)
      requires Near(Bottom(rows), timeoutTick, due, u)
      requires MayStart(rows[lvl], from, u, due)
      ensures n == Place(rows[lvl], u, Prio, due)
    {
      RowsSorted(rows, due, lvl);
      PlaceSkips(rows[lvl], u, due, from);
      n := Walk(rows[lvl], from, u);
    }

    method StartBelow(lvl: nat, n: nat, u: TimerId) returns (from: nat)
      requires lvl < |rows| - 1 && Stacked(rows) && Sorted(Bottom(rows), due)
      requires n == Place(rows[lvl], u, Prio, due)
      ensures MayStart(rows[lvl + 1], from, u, due)
    {
      from := 0;
      if n > 0 {
        var t, below := rows[lvl][n - 1], rows[lvl + 1];
        assert ThinnedAt(rows, lvl) && t in rows[lvl];
        RowsSorted(rows, due, lvl + 1);
        from := NodeBelow(below, t);
        assert Rank(t, due) <= Rank(u, due);
        forall x | x in below[..from]
          ensures Rank(x, due) <= Rank(u, due)
        {
          var i :| 0 <= i < from && below[..from][i] == x;
          assert below[i] == x && below[from - 1] == t;
        }
      }
    }

    /** `rt_list_insert_after` in the bottom row and, as the counter says, in some rows above it. */
    method InsertNodes(u: TimerId, places: seq<nat>)
      requires rows != [] && base > 1 && |places| == |rows|
      requires PlacesOk(rows, places, u, due)
      modifies this`rows, this`randomNr
      ensures |rows| == |old(rows)| && randomNr == Add32(old(randomNr), 1)
      ensures rows == InsertRows(old(rows), u, due, |rows| - 1 - Extra(randomNr, base, |rows| - 1))
    {
      ghost var was := rows;
      randomNr := Add32(randomNr, 1);
      var tst: nat := randomNr;
      var top: nat := |rows| - 1;
      assert rows == InsertRows(was, u, due, top + 1);
      InsertInto(was, top, u, places);
      while top > 0 && Divides(base, tst)
        invariant top < |rows| == |was| && randomNr == Add32(old(randomNr), 1)
        invariant rows == InsertRows(was, u, due, top)
        invariant Extra(randomNr, base, |rows| - 1) == |rows| - 1 - top + Extra(tst, base, top)
      {
        top := top - 1;
        InsertInto(was, top, u, places);
        tst := ShiftOut(tst, base);
      }
    }

    method InsertInto(ghost was: seq<seq<TimerId>>, l: nat, u: TimerId, places: seq<nat>)
      requires l < |rows| == |was| == |places| && PlacesOk(was, places, u, due)
      requires rows == InsertRows(was, u, due, l + 1)
      modifies this`rows
      ensures rows == InsertRows(was, u, due, l)
    {
      InsertOneMore(was, u, due, l);
      assert rows[l] == was[l];
      rows := rows[l := rows[l][..places[l]] + [u] + rows[l][places[l]..]];
    }

    method LinkNodes(u: TimerId, places: seq<nat>)
      requires rows != [] && base > 1 && Stacked(rows) && Sorted(Bottom(rows), due) && u in due
      requires |places| == |rows| && PlacesOk(rows, places, u, due) && u !in Bottom(rows)
      modifies this`rows, this`randomNr
      ensures |rows| == |old(rows)| && Stacked(rows)
      ensures Bottom(rows) == Suspend(Bottom(old(rows)), u, Prio, due)
    {
      ghost var was := rows;
      InsertNodes(u, places);
      InsertStacked(was, u, due, |rows| - 1 - Extra(randomNr, base, |rows| - 1));
    }

    method InsertTimer(u: TimerId)
      requires rows != [] && base > 1 && Stacked(rows) && u !in Bottom(rows)
      requires Insertable(Bottom(rows), timeoutTick, due, u)
      modifies this`rows, this`randomNr, this`activated
      ensures |rows| == |old(rows)| && Stacked(rows)
      ensures Bottom(rows) == Suspend(Bottom(old(rows)), u, Prio, due)
      ensures Wrapped(Bottom(rows), timeoutTick, due) && activated == old(activated) + {u}
    {
      var places := FindPlaces(u);
      LinkNodes(u, places);
      activated := activated + {u};
      WrappedAfter(Bottom(old(rows)), timeoutTick, due, u);
    }

    method RemoveTimer(u: TimerId)
      requires Shape()
      modifies this`rows, this`tempList, this`activated
      ensures Shape() && View() == Unqueue(old(View()), u)
    {
      RemoveStacked(rows, u);
      RemoveNode(u);
      activated := activated - {u};
    }

    method AddTimer(u: TimerId)
      requires Shape() && u in initTick && u !in Bottom(rows)
      requires Insertable(Bottom(rows), timeoutTick[u := Low32(now + initTick[u])], due[u := now + initTick[u]], u)
      modifies this`timeoutTick, this`due, this`since, this`starts, this`log, this`rows, this`randomNr, this`activated
      ensures Shape() && Bottom(rows) == Suspend(Bottom(old(rows)), u, Prio, due)
      ensures due == old(due)[u := now + initTick[u]] && since == old(since)[u := old(starts)]
      ensures starts == old(starts) + 1 && activated == old(activated) + {u}
      ensures log == old(log) + [Started(u, now + initTick[u])]
    {
      AddOfLow(now, initTick[u]);
      timeoutTick := timeoutTick[u := Add32(tick, initTick[u])];
      due, since, starts := due[u := now + initTick[u]], since[u := starts], starts + 1;
      log := log + [Started(u, now + initTick[u])];
      InsertTimer(u);
    }

    ghost predicate CanRestart(u: TimerId)
      reads this
    {
      Shape() && u in initTick && Ready(Bottom(rows), timeoutTick, due, u, now + initTick[u])
    }

    lemma ReadyNow(u: TimerId)
      requires Shape() && Timed(View()) && InDueOrder(View()) && u in initTick
      ensures CanRestart(u)
    {
      ReadyToInsert(View(), u, timeoutTick);
    }

    /** From the removal of the node to its insertion. */
    method Restart(u: TimerId)
      requires CanRestart(u)
      modifies this`timeoutTick, this`due, this`since, this`starts, this`log, this`rows, this`randomNr, this`activated
      modifies this`tempList
      ensures Shape() && View() == StartTimer(old(View()), u)
    {
      RemoveTimer(u);
      AddTimer(u);
    }

    /** `rt_timer_start`. */
    method Start(u: TimerId)
      requires Valid() && u in initTick
      modifies this
      ensures Valid() && View() == StartTimer(old(View()), u)
    {
      StartKeeps(View(), u);
      ReadyNow(u);
      Restart(u);
    }

    /** `rt_timer_stop`. */
    method Stop(u: TimerId) returns (ok: bool)
      requires Valid()
      modifies this
      ensures Valid() && View() == StopTimer(old(View()), u) && ok == (u in old(activated))
    {
      StopKeeps(View(), u);
      if u !in activated {
        return false;
      }
      RemoveTimer(u);
      log := log + [Stopped(u)];
      return true;
    }

    /** A call of `rt_timer_start`, `rt_timer_stop` or `rt_timer_control`. */
    method Call(op: Op)
      requires Valid() && OpOk(initTick.Keys, op)
      modifies this
      ensures Valid() && View() == Apply(old(View()), op)
    {
      ApplyKeeps(View(), op);
      match op
      case Start(u) => Start(u);
      case Stop(u) => var _ := Stop(u);
      case SetTime(u, ticks) => initTick := initTick[u := ticks];
      case SetOneshot(u) => periodic := periodic - {u};
      case SetPeriodic(u) => periodic := periodic + {u};
    }

    /** A timeout function. */
    method CallAll(ops: seq<Op>)
      requires Valid() && OpsOk(initTick.Keys, ops)
      modifies this
      ensures Valid() && View() == Perform(old(View()), ops)
      decreases |ops|
    {
      if ops != [] {
        assert OpOk(initTick.Keys, ops[0]);
        Call(ops[0]);
        CallAll(ops[1..]);
      }
    }

    // ---------- rt_timer_check ----------

    method Detach(t: TimerId)
      requires Shape() && Bottom(rows) != [] && t == Bottom(rows)[0] && NoDup(Bottom(rows))
      requires t in due && t in since
      modifies this
      ensures Shape() && View() == Pop(old(View()))
    {
      WithoutFirst(Bottom(rows));
      RemoveStacked(rows, t);
      RemoveNode(t);
      if t !in periodic {
        activated := activated - {t};
      }
      tempList := [t];
      log := log + [Fired(t, due[t], since[t], now)];
    }

    method BeginFiring(t: TimerId)
      requires Valid() && FirstDue(View()) && t == View().queue[0]
      modifies this
      ensures Valid() && View() == Pop(old(View()))
    {
      PopKeeps(View());
      Detach(t);
    }

    /** Whether the timer has been detached or started again shows in the temporary list. */
    method Rearmed(t: TimerId)
      requires CanRestart(t)
      modifies this
      ensures Shape() && View() == Rearm(old(View()), t)
    {
      if tempList == [] {
        return;
      }
      tempList := [];
      if t in periodic && t in activated {
        StartAgain(t);
      }
    }

    method StartAgain(t: TimerId)
      requires CanRestart(t)
      modifies this
      ensures Shape() && View() == StartTimer(old(View()), t)
    {
      activated := activated - {t};
      Restart(t);
      assert old(activated) - {t} - {t} == old(activated) - {t};
    }

    method EndFiring(t: TimerId)
      requires Valid() && t in initTick
      modifies this
      ensures Valid() && View() == Rearm(old(View()), t)
    {
      RearmKeeps(View(), t);
      ReadyNow(t);
      Rearmed(t);
    }

    method FireFirst(t: TimerId, ops: seq<Op>)
      requires Valid() && FirstDue(View()) && t == View().queue[0] && OpsOk(initTick.Keys, ops)
      modifies this
      ensures Valid() && View() == Fire(old(View()), ops)
    {
      FireKeeps(View(), ops);
      BeginFiring(t);
      CallAll(ops);
      EndFiring(t);
    }

    /** `rt_timer_check`; the i-th timeout function it calls does `script(i)`. */
    method TimerCheck(script: nat -> seq<Op>)
      requires Valid() && tempList == [] && ScriptOk(initTick.Keys, script)
      modifies this
      ensures Valid() && View() == Check(old(View()), script, 0)
    {
      var i: nat := 0;
      while Bottom(rows) != []
        invariant Valid() && initTick.Keys == old(initTick.Keys)
        invariant Check(View(), script, i) == Check(old(View()), script, 0)
        decreases Due(View())
      {
        var t := Bottom(rows)[0];
        assert t in Bottom(rows);
        TickReached(now, due[t]);
        if Sub32(tick, timeoutTick[t]) < HALF {
          FireKeeps(View(), script(i));
          FireLeavesFewer(View(), script(i));
          FireFirst(t, script(i));
          i := i + 1;
        } else {
          break;
        }
      }
    }

    method NextTick()
      requires Shape()
      modifies this`tick, this`now
      ensures Shape() && View() == old(View()).(now := old(now) + 1)
    {
      AddOfLow(now, 1);
      tick := Add32(tick, 1);
      now := now + 1;
    }

    /** `rt_tick_increase`, as far as timers go. */
    method TickIncrease(script: nat -> seq<Op>)
      requires Valid() && Quiet(View()) && tempList == [] && ScriptOk(initTick.Keys, script)
      modifies this
      ensures Valid() && View() == TStep(old(View()), Tick(script))
    {
      TimePasses(View());
      NextTick();
      TimerCheck(script);
    }
  }
}
