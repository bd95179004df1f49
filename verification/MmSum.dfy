// Sums of the values of a finite map.
module MmSum {

  ghost function Sum(m: map<nat, nat>): nat
    decreases |m.Keys|
  {
    if m.Keys == {} then 0
    else
      var k :| k in m.Keys;
      Less(m, k);
      m[k] + Sum(m - {k})
  }

  lemma {:induction false} Less(m: map<nat, nat>, k: nat)
    requires k in m.Keys
    ensures |(m - {k}).Keys| < |m.Keys|
  {
    assert (m - {k}).Keys == m.Keys - {k};
  }

  lemma {:induction false} SumWithout(m: map<nat, nat>, k: nat)
    requires k in m
    ensures Sum(m) == m[k] + Sum(m - {k})
    decreases |m.Keys|
  {
    var c :| c in m.Keys && Sum(m) == m[c] + Sum(m - {c});
    if c != k {
      Less(m, c);
      SumWithout(m - {c}, k);
      Less(m, k);
      SumWithout(m - {k}, c);
      assert m - {c} - {k} == m - {k} - {c};
    }
  }

  lemma {:induction false} SumWith(m: map<nat, nat>, k: nat, v: nat)
    requires k !in m
    ensures Sum(m[k := v]) == Sum(m) + v
  {
    SumWithout(m[k := v], k);
    assert m[k := v] - {k} == m;
  }

  lemma {:induction false} SumUpdate(m: map<nat, nat>, k: nat, v: nat)
    requires k in m
    ensures Sum(m[k := v]) == Sum(m) - m[k] + v
  {
    SumWithout(m, k);
    SumWithout(m[k := v], k);
    assert m[k := v] - {k} == m - {k};
  }

  lemma {:induction false} SumAtLeast(m: map<nat, nat>, k: nat)
    requires k in m
    ensures m[k] <= Sum(m)
  {
    SumWithout(m, k);
  }

  lemma {:induction false} SumEmpty()
    ensures Sum(map[]) == 0
  {
  }
}
