/** Filtering a slice in place: the kept elements move to the front of the same array. */
module Compaction {
  import opened Text

  /** The elements that are kept, in order. */
  function Filter<T>(s: seq<T>, keep: T -> bool): seq<T> {
    if s == [] then []
    else
      var init, last := Filter(s[..|s| - 1], keep), s[|s| - 1];
      if keep(last) then init + [last] else init
  }

  lemma FilterNext<T>(s: seq<T>, keep: T -> bool, k: nat)
    requires k < |s|
    ensures Filter(s[..k + 1], keep) == Filter(s[..k], keep) + (if keep(s[k]) then [s[k]] else [])
  {
    assert s[..k + 1][..k] == s[..k];
  }

  lemma {:induction false} FilterLength<T>(s: seq<T>, keep: T -> bool)
    ensures |Filter(s, keep)| <= |s|
    decreases |s|
  {
    if s != [] {
      FilterLength(s[..|s| - 1], keep);
    }
  }

  /** An element is in the result exactly when it was there and is kept. */
  lemma {:induction false} FilterMembers<T>(s: seq<T>, keep: T -> bool, x: T)
    ensures x in Filter(s, keep) <==> x in s && keep(x)
    decreases |s|
  {
    if s != [] {
      FilterMembers(s[..|s| - 1], keep, x);
      assert s == s[..|s| - 1] + [s[|s| - 1]];
    }
  }

  /** Filtering keeps any order between elements. */
  lemma {:induction false} FilterOrder<T>(s: seq<T>, keep: T -> bool, before: (T, T) -> bool)
    requires forall i, j | 0 <= i < j < |s| :: before(s[i], s[j])
    ensures forall i, j | 0 <= i < j < |Filter(s, keep)| :: before(Filter(s, keep)[i], Filter(s, keep)[j])
    decreases |s|
  {
    if s != [] {
      var init, last := s[..|s| - 1], s[|s| - 1];
      FilterOrder(init, keep, before);
      forall x | x in Filter(init, keep) ensures before(x, last) {
        FilterMembers(init, keep, x);
        var i :| 0 <= i < |init| && init[i] == x;
        assert s[i] == x;
      }
    }
  }

  lemma {:induction false} FilterDistinct<T(!new)>(s: seq<T>, keep: T -> bool)
    requires Distinct(s)
    ensures Distinct(Filter(s, keep))
    decreases |s|
  {
    if s != [] {
      var init, last := s[..|s| - 1], s[|s| - 1];
      FilterDistinct(init, keep);
      FilterMembers(init, keep, last);
      assert last !in init;
    }
  }

  lemma {:induction false} FilterConcat<T>(a: seq<T>, b: seq<T>, keep: T -> bool)
    ensures Filter(a + b, keep) == Filter(a, keep) + Filter(b, keep)
    decreases |b|
  {
    if b == [] {
      assert a + b == a;
    } else {
      var n := |b| - 1;
      assert (a + b)[..|a + b| - 1] == a + b[..n];
      FilterConcat(a, b[..n], keep);
    }
  }

  lemma OneFilter<T>(t: T, keep: T -> bool)
    ensures Filter([t], keep) == if keep(t) then [t] else []
  {
    assert [t][..0] == [];
  }

  lemma FilterBack<T>(s: seq<T>, t: T, keep: T -> bool)
    ensures Filter(s + [t], keep) == Filter(s, keep) + (if keep(t) then [t] else [])
  {
    FilterConcat(s, [t], keep);
    OneFilter(t, keep);
  }

  /** A coarser filter applied first makes no difference. */
  lemma {:induction false} FilterTwice<T(!new)>(s: seq<T>, p: T -> bool, q: T -> bool)
    requires forall t | q(t) :: p(t)
    ensures Filter(Filter(s, p), q) == Filter(s, q)
    decreases |s|
  {
    if s != [] {
      var init, last := s[..|s| - 1], s[|s| - 1];
      FilterTwice(init, p, q);
      FilterBack(Filter(init, p), last, q);
    }
  }

  lemma {:induction false} SameFilter<T>(s: seq<T>, p: T -> bool, q: T -> bool)
    requires forall t | t in s :: p(t) == q(t)
    ensures Filter(s, p) == Filter(s, q)
    decreases |s|
  {
    if s != [] {
      SameFilter(s[..|s| - 1], p, q);
    }
  }

  /** A finer filter keeps no more. */
  lemma {:induction false} FilterFewer<T>(s: seq<T>, p: T -> bool, q: T -> bool)
    requires forall t | t in s && p(t) :: q(t)
    ensures |Filter(s, p)| <= |Filter(s, q)|
    decreases |s|
  {
    if s != [] {
      FilterFewer(s[..|s| - 1], p, q);
    }
  }

  /** The loop `out := s[:0]; for v in s { if keep(v) { out = append(out, v) } }`: it overwrites the front
      of the array it reads from, and never an element it has not read yet. */
  method Compact<T>(a: array<T>, n: nat, keep: T -> bool) returns (m: nat)
    requires n <= a.Length
    modifies a
    ensures m <= n && a[..m] == Filter(old(a[..n]), keep)
    ensures a[m..] == old(a[m..])
  {
    ghost var s := a[..n];
    m := 0;
    var i := 0;
    while i < n
      invariant 0 <= m <= i <= n
      invariant a[..m] == Filter(s[..i], keep)
      invariant forall k | m <= k < a.Length :: a[k] == old(a[k])
    {
      FilterNext(s, keep, i);
      if keep(a[i]) {
        a[m] := a[i];
        m := m + 1;
      }
      i := i + 1;
    }
    assert s[..n] == s;
  }

  /** The same on a slice held by value. */
  method CompactSlice<T(0)>(s: seq<T>, keep: T -> bool) returns (r: seq<T>)
    ensures r == Filter(s, keep)
  {
    var a := new T[|s|](i requires 0 <= i < |s| => s[i]);
    assert a[..|s|] == s;
    var m := Compact(a, |s|, keep);
    r := a[..m];
  }
}
