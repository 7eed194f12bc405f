/** Sums over finite tables. */
module Sums {

  function WeightAt(w: map<string, int>, k: string): int {
    if k in w then w[k] else 0
  }

  ghost function SumOver(w: map<string, int>, keys: set<string>): int {
    if keys == {} then 0
    else
      var k :| k in keys;
      WeightAt(w, k) + SumOver(w, keys - {k})
  }

  ghost function Sum(w: map<string, int>): int {
    SumOver(w, w.Keys)
  }

  /** Any key may be taken out first. */
  lemma {:induction false} SumSplit(w: map<string, int>, keys: set<string>, k: string)
    requires k in keys
    ensures SumOver(w, keys) == WeightAt(w, k) + SumOver(w, keys - {k})
    decreases keys
  {
    var j :| j in keys && SumOver(w, keys) == WeightAt(w, j) + SumOver(w, keys - {j});
    if j != k {
      SumSplit(w, keys - {j}, k);
      SumSplit(w, keys - {k}, j);
      assert keys - {k} - {j} == keys - {j} - {k};
    }
  }

  lemma {:induction false} SumSame(w: map<string, int>, w': map<string, int>, keys: set<string>)
    requires forall k | k in keys :: WeightAt(w, k) == WeightAt(w', k)
    ensures SumOver(w, keys) == SumOver(w', keys)
    decreases keys
  {
    if keys != {} {
      var k :| k in keys;
      SumSplit(w, keys, k);
      SumSplit(w', keys, k);
      SumSame(w, w', keys - {k});
    }
  }

  /** Writing one entry changes the sum by the difference. */
  lemma SumUpdate(w: map<string, int>, k: string, v: int)
    ensures Sum(w[k := v]) == Sum(w) - WeightAt(w, k) + v
  {
    var w' := w[k := v];
    var rest := w.Keys - {k};
    assert w'.Keys - {k} == rest;
    SumSplit(w', w'.Keys, k);
    SumSame(w, w', rest);
    if k in w {
      SumSplit(w, w.Keys, k);
    } else {
      assert w.Keys == rest;
    }
  }

  ghost predicate NoNegatives(w: map<string, int>) {
    forall k | k in w :: w[k] >= 0
  }

  lemma {:induction false} SumNonNegative(w: map<string, int>, keys: set<string>)
    requires NoNegatives(w)
    ensures SumOver(w, keys) >= 0
    decreases keys
  {
    if keys != {} {
      var k :| k in keys;
      SumSplit(w, keys, k);
      SumNonNegative(w, keys - {k});
    }
  }

  /** Without negative entries, no entry and no two different entries together exceed the sum. */
  lemma SumBounds(w: map<string, int>, j: string, k: string)
    requires NoNegatives(w)
    ensures 0 <= WeightAt(w, k) <= Sum(w)
    ensures j != k ==> WeightAt(w, j) + WeightAt(w, k) <= Sum(w)
  {
    var without := w.Keys - {k};
    SumNonNegative(w, w.Keys);
    SumNonNegative(w, without);
    SumNonNegative(w, without - {j});
    if k in w {
      SumSplit(w, w.Keys, k);
    } else {
      assert without == w.Keys;
    }
    if j in without {
      SumSplit(w, without, j);
    }
  }
}
