/** `sort.Strings` on distinct strings, as an insertion sort proved to give the canonical listing. */
module Sorting {
  import opened Text

  function Inserted(s: seq<string>, p: nat, x: string): seq<string>
    requires p <= |s|
  {
    s[..p] + [x] + s[p..]
  }

  lemma InsertedElements(s: seq<string>, p: nat, x: string)
    requires p <= |s|
    ensures Elements(Inserted(s, p, x)) == Elements(s) + {x}
  {
    var r := Inserted(s, p, x);
    forall y | y in s ensures y in r {
      var i :| 0 <= i < |s| && s[i] == y;
      assert y == (if i < p then r[i] else r[i + 1]);
    }
    assert r[p] == x;
  }

  lemma InsertedIsSorted(s: seq<string>, p: nat, x: string)
    requires StrictlySorted(s) && p <= |s|
    requires (forall i | 0 <= i < p :: Less(s[i], x)) && (forall i | p <= i < |s| :: Less(x, s[i]))
    ensures StrictlySorted(Inserted(s, p, x))
  {
    var r := Inserted(s, p, x);
    forall i, j | 0 <= i < j < |r| ensures Less(r[i], r[j]) {
      if i < p && p < j {
        assert r[i] == s[i] && r[j] == s[j - 1];
      }
    }
  }

  method Insert(s: seq<string>, x: string) returns (r: seq<string>)
    requires StrictlySorted(s) && x !in s
    ensures StrictlySorted(r) && Elements(r) == Elements(s) + {x}
  {
    var p := 0;
    while p < |s| && Less(s[p], x)
      invariant 0 <= p <= |s|
      invariant forall i | 0 <= i < p :: Less(s[i], x)
    {
      p := p + 1;
    }
    if p < |s| {
      LessTotal(s[p], x);
      forall i | p <= i < |s| ensures Less(x, s[i]) {
        if i > p {
          LessTransitive(x, s[p], s[i]);
        }
      }
    }
    InsertedIsSorted(s, p, x);
    InsertedElements(s, p, x);
    r := Inserted(s, p, x);
  }

  /** Any order of the same strings is sorted into the same list. */
  method SortStrings(xs: seq<string>) returns (r: seq<string>)
    requires Distinct(xs)
    ensures r == Listing(Elements(xs))
  {
    r := [];
    var i := 0;
    while i < |xs|
      invariant 0 <= i <= |xs|
      invariant StrictlySorted(r) && Elements(r) == Elements(xs[..i])
    {
      assert xs[i] !in Elements(xs[..i]);
      assert Elements(xs[..i + 1]) == Elements(xs[..i]) + {xs[i]};
      r := Insert(r, xs[i]);
      i := i + 1;
    }
    assert xs[..i] == xs;
    SortedUnique(r, Listing(Elements(xs)));
  }

  /** Some listing of a set, in the arbitrary order a Go map is walked in. */
  method AnyOrder(s: set<string>) returns (xs: seq<string>)
    ensures Distinct(xs) && Elements(xs) == s
  {
    xs := [];
    var left := s;
    while left != {}
      invariant left <= s && Distinct(xs) && Elements(xs) == s - left
      decreases left
    {
      var x :| x in left;
      assert x !in Elements(xs);
      assert Elements(xs + [x]) == Elements(xs) + {x};
      xs, left := xs + [x], left - {x};
    }
  }
}
