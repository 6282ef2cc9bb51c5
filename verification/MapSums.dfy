/** The sum of the values of a map: what is accounted for under each key. */
module MapSums {

  ghost function Total(m: map<nat, nat>): nat {
    if m == map[] then 0 else
      var x :| x in m;
      m[x] + Total(m - {x})
  }

  lemma {:induction false} TotalWithout(m: map<nat, nat>, x: nat)
    requires x in m
    ensures Total(m) == m[x] + Total(m - {x})
    decreases |m|
  {
    var y :| y in m && Total(m) == m[y] + Total(m - {y});
    if y != x {
      TotalWithout(m - {y}, x);
      TotalWithout(m - {x}, y);
      assert m - {y} - {x} == m - {x} - {y};
    }
  }

  lemma TotalWith(m: map<nat, nat>, x: nat, n: nat)
    requires x !in m
    ensures Total(m[x := n]) == Total(m) + n
  {
    TotalWithout(m[x := n], x);
    assert m[x := n] - {x} == m;
  }
}
