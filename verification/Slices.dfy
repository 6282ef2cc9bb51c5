/** Time slices: each tick takes one from what the current thread has left of its slice, and when nothing is left the
    slice is filled up again and the thread yields. How a yield chooses the next thread does not matter here. */
module Slices {
  import opened LinkedNodes
  import opened WaitList

  const WORD: nat := 0x1_0000_0000

  /** `rest` is `remaining_tick`, and `full` is `init_tick`, of each thread. */
  datatype Sliced<!K> = Sliced(sched: K, rest: map<Tid, nat>, full: map<Tid, nat>)

  /** The part of `rt_tick_increase` before the timers. */
  function TickSlice<K>(turn: K -> K, t: Tid, x: Sliced<K>): Sliced<K>
    requires t in x.rest && t in x.full
  {
    var left := if x.rest[t] == 0 then WORD - 1 else x.rest[t] - 1;
    if left == 0 then Sliced(turn(x.sched), x.rest[t := x.full[t]], x.full) else x.(rest := x.rest[t := left])
  }

  ghost function Ticks<K>(turn: K -> K, current: K -> Tid, x: Sliced<K>, n: nat): Sliced<K> {
    if n == 0 then x else
      var r := Ticks(turn, current, x, n - 1);
      var t := current(r.sched);
      if t in r.rest && t in r.full then TickSlice(turn, t, r) else r
  }

  lemma {:induction false} TicksAdd<K>(turn: K -> K, current: K -> Tid, x: Sliced<K>, m: nat, n: nat)
    ensures Ticks(turn, current, Ticks(turn, current, x, m), n) == Ticks(turn, current, x, m + n)
  {
    if n > 0 {
      TicksAdd(turn, current, x, m, n - 1);
    }
  }

  ghost predicate HasSlice<K>(x: Sliced<K>, t: Tid) {
    t in x.rest && t in x.full && 0 < x.rest[t] < WORD
  }

  /** For all but the last tick of its slice the current thread goes on. */
  lemma {:induction false} WithinSlice<K>(turn: K -> K, current: K -> Tid, x: Sliced<K>, n: nat)
    requires HasSlice(x, current(x.sched)) && n < x.rest[current(x.sched)]
    ensures var t := current(x.sched); Ticks(turn, current, x, n) == x.(rest := x.rest[t := x.rest[t] - n])
  {
    var t := current(x.sched);
    if n == 0 {
      assert x.rest[t := x.rest[t]] == x.rest;
    } else {
      WithinSlice(turn, current, x, n - 1);
      assert x.rest[t := x.rest[t] - (n - 1)][t := x.rest[t] - n] == x.rest[t := x.rest[t] - n];
    }
  }

  lemma OneMoreTick<K>(turn: K -> K, current: K -> Tid, x: Sliced<K>, n: nat, m: nat, t: Tid, r: Sliced<K>)
    requires Ticks(turn, current, x, n) == r && m == n + 1 && current(r.sched) == t && t in r.rest && t in r.full
    ensures Ticks(turn, current, x, m) == TickSlice(turn, t, r)
  {
  }

  lemma ToLastTick<K>(turn: K -> K, current: K -> Tid, x: Sliced<K>, t: Tid)
    requires HasSlice(x, t) && t == current(x.sched)
    ensures Ticks(turn, current, x, x.rest[t] - 1) == x.(rest := x.rest[t := 1])
  {
    WithinSlice(turn, current, x, x.rest[t] - 1);
  }

  /** With the last one it yields, and has a full slice for its next turn. */
  lemma EndOfSlice<K>(turn: K -> K, current: K -> Tid, x: Sliced<K>)
    requires HasSlice(x, current(x.sched))
    ensures var t := current(x.sched);
            Ticks(turn, current, x, x.rest[t]) == Sliced(turn(x.sched), x.rest[t := x.full[t]], x.full)
  {
    var t := current(x.sched);
    ToLastTick(turn, current, x, t);
    LastTick(turn, t, x);
    OneMoreTick(turn, current, x, x.rest[t] - 1, x.rest[t], t, x.(rest := x.rest[t := 1]));
  }

  lemma LastTick<K>(turn: K -> K, t: Tid, x: Sliced<K>)
    requires HasSlice(x, t)
    ensures TickSlice(turn, t, x.(rest := x.rest[t := 1])) == Sliced(turn(x.sched), x.rest[t := x.full[t]], x.full)
  {
    assert x.rest[t := 1][t := x.full[t]] == x.rest[t := x.full[t]];
  }

  ghost function Turns<K>(turn: K -> K, s: K, j: nat): K {
    if j == 0 then s else turn(Turns(turn, s, j - 1))
  }

  /** What the first j of `ps` have left of their slices, together. */
  function WaitFor(rest: map<Tid, nat>, ps: seq<Tid>, j: nat): nat
    requires j <= |ps|
  {
    if j == 0 then 0 else WaitFor(rest, ps, j - 1) + if ps[j - 1] in rest then rest[ps[j - 1]] else 0
  }

  /** The threads of `ps` have full slices, and the others what they had. */
  function Refilled(rest: map<Tid, nat>, full: map<Tid, nat>, ps: seq<Tid>): map<Tid, nat> {
    if ps == [] then rest
    else
      var t, r := ps[|ps| - 1], Refilled(rest, full, ps[..|ps| - 1]);
      if t in full then r[t := full[t]] else r
  }

  lemma {:induction false} RefilledIs(rest: map<Tid, nat>, full: map<Tid, nat>, ps: seq<Tid>, t: Tid)
    requires t in rest && t in full
    ensures t in Refilled(rest, full, ps) && Refilled(rest, full, ps)[t] == if t in ps then full[t] else rest[t]
  {
    if ps != [] {
      RefilledIs(rest, full, ps[..|ps| - 1], t);
    }
  }

  lemma RefilledLater(rest: map<Tid, nat>, full: map<Tid, nat>, ps: seq<Tid>, j: nat)
    requires NoDup(ps) && 0 < j <= |ps| && ps[j - 1] in rest && ps[j - 1] in full
    ensures var r, t := Refilled(rest, full, ps[..j - 1]), ps[j - 1];
            t in r && r[t] == rest[t] && Refilled(rest, full, ps[..j]) == r[t := full[t]]
  {
    var t := ps[j - 1];
    assert t !in ps[..j - 1];
    RefilledIs(rest, full, ps[..j - 1], t);
    assert ps[..j][..j - 1] == ps[..j - 1];
  }

  /** After i turns it is the turn of t. */
  ghost predicate HasTurn<K>(turn: K -> K, current: K -> Tid, s: K, t: Tid, i: nat) {
    current(Turns(turn, s, i)) == t
  }

  ghost predicate InTurn<K>(turn: K -> K, current: K -> Tid, x: Sliced<K>, ps: seq<Tid>, j: nat)
    requires j <= |ps|
  {
    Ticks(turn, current, x, WaitFor(x.rest, ps, j)) ==
    Sliced(Turns(turn, x.sched, j), Refilled(x.rest, x.full, ps[..j]), x.full)
  }

  lemma NextTurn<K>(turn: K -> K, current: K -> Tid, x: Sliced<K>, ps: seq<Tid>, i: nat, j: nat)
    requires NoDup(ps) && j == i + 1 <= |ps| && HasSlice(x, ps[i]) && HasTurn(turn, current, x.sched, ps[i], i)
    requires InTurn(turn, current, x, ps, i)
    ensures InTurn(turn, current, x, ps, j)
  {
    var n, t := WaitFor(x.rest, ps, i), ps[i];
    var y := Ticks(turn, current, x, n);
    RefilledLater(x.rest, x.full, ps, j);
    EndOfSlice(turn, current, y);
    TicksAdd(turn, current, x, n, x.rest[t]);
    assert WaitFor(x.rest, ps, j) == n + x.rest[t];
    assert Turns(turn, x.sched, j) == turn(Turns(turn, x.sched, i));
  }

  lemma BeforeTurns<K>(turn: K -> K, current: K -> Tid, x: Sliced<K>, ps: seq<Tid>)
    ensures InTurn(turn, current, x, ps, 0)
  {
  }

  /** The threads of `ps` have their turns one after the other, each for exactly what is left of its slice. */
  lemma TurnsInOrder<K>(turn: K -> K, current: K -> Tid, x: Sliced<K>, ps: seq<Tid>, j: nat)
    requires NoDup(ps) && j <= |ps| && (forall i :: 0 <= i < |ps| ==> HasSlice(x, ps[i]))
    requires forall i: nat :: i < j ==> HasTurn(turn, current, x.sched, ps[i], i)
    ensures InTurn(turn, current, x, ps, j)
  {
    BeforeTurns(turn, current, x, ps);
    var i := 0;
    while i < j
      invariant i <= j && InTurn(turn, current, x, ps, i)
    {
      NextTurn(turn, current, x, ps, i, i + 1);
      i := i + 1;
    }
  }

  /** Whatever takes a turn at each place is what the turns lead to. */
  lemma {:induction false} SameTurns<K>(turn: K -> K, s: K, f: nat -> K, j: nat)
    requires f(0) == s && forall i: nat :: i < j ==> f(i + 1) == turn(f(i))
    ensures Turns(turn, s, j) == f(j)
  {
    if j > 0 {
      SameTurns(turn, s, f, j - 1);
      assert f(j - 1 + 1) == turn(f(j - 1));
    }
  }
}
