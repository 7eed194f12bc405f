/**
 Two ways to run a list of partial steps: skip what fails, or stop at the first failure. And invariants:
 what holds at the start and is kept by every step holds in every state of a run.
 */
module Folds {
  import opened Text

  /** The state reached when failing steps are skipped. */
  ghost function Lenient<S, T>(step: (S, T) -> Option<S>, s: S, xs: seq<T>): S {
    if xs == [] then s
    else
      var n := |xs| - 1;
      var s1 := Lenient(step, s, xs[..n]);
      var s2 := step(s1, xs[n]);
      if s2.Some? then s2.value else s1
  }

  /** The steps that did not fail, in order. */
  ghost function Passed<S, T>(step: (S, T) -> Option<S>, s: S, xs: seq<T>): seq<T> {
    if xs == [] then []
    else
      var n := |xs| - 1;
      var before := Passed(step, s, xs[..n]);
      if step(Lenient(step, s, xs[..n]), xs[n]).Some? then before + [xs[n]] else before
  }

  /** The state reached when the first failure stops everything, and whether there was none. */
  ghost function Strict<S, T>(step: (S, T) -> Option<S>, s: S, xs: seq<T>): (S, bool) {
    if xs == [] then (s, true)
    else
      var n := |xs| - 1;
      var (s1, ok) := Strict(step, s, xs[..n]);
      if !ok then (s1, false)
      else
        var s2 := step(s1, xs[n]);
        if s2.Some? then (s2.value, true) else (s1, false)
  }

  lemma StrictBack<S, T>(step: (S, T) -> Option<S>, s: S, xs: seq<T>, x: T)
    requires Strict(step, s, xs).1
    ensures var next := step(Strict(step, s, xs).0, x);
            Strict(step, s, xs + [x]) == if next.Some? then (next.value, true) else (Strict(step, s, xs).0, false)
  {
    assert (xs + [x])[..|xs|] == xs;
  }

  lemma LenientBack<S, T>(step: (S, T) -> Option<S>, s: S, xs: seq<T>, k: nat)
    requires k < |xs|
    ensures var s1 := Lenient(step, s, xs[..k]);
            var next := step(s1, xs[k]);
            && Lenient(step, s, xs[..k + 1]) == (if next.Some? then next.value else s1)
            && Passed(step, s, xs[..k + 1]) == Passed(step, s, xs[..k]) + (if next.Some? then [xs[k]] else [])
  {
    assert xs[..k + 1][..k] == xs[..k];
  }

  /** Replaying strictly what a lenient pass kept never fails and ends in the same state. */
  lemma {:induction false} ReplayPassed<S, T>(step: (S, T) -> Option<S>, s: S, xs: seq<T>)
    ensures Strict(step, s, Passed(step, s, xs)) == (Lenient(step, s, xs), true)
    decreases |xs|
  {
    if xs != [] {
      var n := |xs| - 1;
      ReplayPassed(step, s, xs[..n]);
      StrictBack(step, s, Passed(step, s, xs[..n]), xs[n]);
    }
  }

  /** A failure in a prefix decides the whole. */
  lemma {:induction false} StrictStops<S, T>(step: (S, T) -> Option<S>, s: S, xs: seq<T>, k: nat)
    requires k <= |xs| && !Strict(step, s, xs[..k]).1
    ensures Strict(step, s, xs) == Strict(step, s, xs[..k])
    decreases |xs| - k
  {
    if k == |xs| {
      assert xs[..k] == xs;
    } else {
      assert xs[..k + 1][..k] == xs[..k];
      StrictStops(step, s, xs, k + 1);
    }
  }

  /** One more step of a pass that has not failed yet; a failure decides the whole. */
  lemma StrictNext<S, T>(step: (S, T) -> Option<S>, s: S, xs: seq<T>, k: nat)
    requires k < |xs| && Strict(step, s, xs[..k]).1
    ensures var s1 := Strict(step, s, xs[..k]).0;
            var next := step(s1, xs[k]);
            && (next.Some? ==> Strict(step, s, xs[..k + 1]) == (next.value, true))
            && (next.None? ==> Strict(step, s, xs) == (s1, false))
  {
    assert xs[..k + 1] == xs[..k] + [xs[k]];
    StrictBack(step, s, xs[..k], xs[k]);
    if !Strict(step, s, xs[..k + 1]).1 {
      StrictStops(step, s, xs, k + 1);
    }
  }

  /** Taking the first step off the front. */
  lemma {:induction false} StrictFront<S, T>(step: (S, T) -> Option<S>, s: S, x: T, xs: seq<T>)
    ensures Strict(step, s, [x] + xs) == if step(s, x).None? then (s, false) else Strict(step, step(s, x).value, xs)
    decreases |xs|
  {
    var all := [x] + xs;
    if xs == [] {
      assert all[..0] == [];
    } else {
      var n := |xs| - 1;
      assert all[..|all| - 1] == [x] + xs[..n] && all[|all| - 1] == xs[n];
      StrictFront(step, s, x, xs[..n]);
    }
  }

  // ---------------------------------------------------------------- state by state

  /** The states gone through when every step succeeds. */
  ghost predicate InTurn<S, T>(step: (S, T) -> Option<S>, s: S, xs: seq<T>, states: seq<S>) {
    && |states| == |xs| + 1 && states[0] == s
    && forall i | 0 <= i < |xs| :: step(states[i], xs[i]) == Some(states[i + 1])
  }

  /** The states gone through when failing steps are skipped. */
  ghost predicate Skipping<S, T>(step: (S, T) -> Option<S>, s: S, xs: seq<T>, states: seq<S>) {
    && |states| == |xs| + 1 && states[0] == s
    && forall i | 0 <= i < |xs| :: states[i + 1] == OrSame(step(states[i], xs[i]), states[i])
  }

  function OrSame<S>(next: Option<S>, s: S): S {
    if next.Some? then next.value else s
  }

  /** The kept ones are the ones that succeed where they stand, in order, each once. */
  ghost predicate Picks<S, T>(step: (S, T) -> Option<S>, xs: seq<T>, states: seq<S>, kept: seq<T>, at: seq<nat>)
    requires |states| == |xs| + 1
  {
    && |at| == |kept|
    && (forall j | 0 <= j < |at| :: at[j] < |xs| && kept[j] == xs[at[j]])
    && (forall i, j | 0 <= i < j < |at| :: at[i] < at[j])
    && (forall i: nat | i < |xs| :: i in at <==> step(states[i], xs[i]).Some?)
  }

  lemma {:induction false} StrictIsInTurn<S, T>(step: (S, T) -> Option<S>, s: S, xs: seq<T>, states: seq<S>)
    requires InTurn(step, s, xs, states)
    ensures Strict(step, s, xs) == (states[|xs|], true)
    decreases |xs|
  {
    if xs != [] {
      var n := |xs| - 1;
      StrictIsInTurn(step, s, xs[..n], states[..n + 1]);
      assert step(states[n], xs[n]) == Some(states[n + 1]);
    }
  }

  lemma {:induction false} InTurnStates<S, T>(step: (S, T) -> Option<S>, s: S, xs: seq<T>) returns (states: seq<S>)
    requires Strict(step, s, xs).1
    ensures InTurn(step, s, xs, states) && states[|xs|] == Strict(step, s, xs).0
    decreases |xs|
  {
    if xs == [] {
      states := [s];
    } else {
      var n := |xs| - 1;
      var before := InTurnStates(step, s, xs[..n]);
      states := before + [Strict(step, s, xs).0];
      forall i | 0 <= i < |xs| ensures step(states[i], xs[i]) == Some(states[i + 1]) {
        if i < n {
          assert step(before[i], xs[..n][i]) == Some(before[i + 1]);
        }
      }
    }
  }

  /** A strict pass that stops has taken every step before the first one that fails. */
  lemma {:induction false} StoppedAt<S, T>(step: (S, T) -> Option<S>, s: S, xs: seq<T>) returns (k: nat)
    requires !Strict(step, s, xs).1
    ensures k < |xs| && Strict(step, s, xs[..k]) == (Strict(step, s, xs).0, true)
    ensures step(Strict(step, s, xs).0, xs[k]).None?
    decreases |xs|
  {
    var n := |xs| - 1;
    if Strict(step, s, xs[..n]).1 {
      k := n;
    } else {
      k := StoppedAt(step, s, xs[..n]);
      assert xs[..n][..k] == xs[..k];
    }
  }

  lemma {:induction false} SkippingStates<S, T>(step: (S, T) -> Option<S>, s: S, xs: seq<T>)
    returns (states: seq<S>, at: seq<nat>)
    ensures Skipping(step, s, xs, states) && states[|xs|] == Lenient(step, s, xs)
    ensures Picks(step, xs, states, Passed(step, s, xs), at)
    decreases |xs|
  {
    if xs == [] {
      states, at := [s], [];
    } else {
      var n := |xs| - 1;
      var before, at0 := SkippingStates(step, s, xs[..n]);
      states := before + [Lenient(step, s, xs)];
      at := if step(before[n], xs[n]).Some? then at0 + [n] else at0;
      SkippingNext(step, s, xs, before, states);
      PicksNext(step, xs, before, states, Passed(step, s, xs[..n]), at0);
    }
  }

  lemma SkippingNext<S, T>(step: (S, T) -> Option<S>, s: S, xs: seq<T>, before: seq<S>, states: seq<S>)
    requires xs != [] && Skipping(step, s, xs[..|xs| - 1], before)
    requires states == before + [OrSame(step(before[|xs| - 1], xs[|xs| - 1]), before[|xs| - 1])]
    ensures Skipping(step, s, xs, states)
  {
    var n := |xs| - 1;
    forall i | 0 <= i < |xs| ensures states[i + 1] == OrSame(step(states[i], xs[i]), states[i]) {
      if i < n {
        assert xs[..n][i] == xs[i] && before[i + 1] == states[i + 1] && before[i] == states[i];
      }
    }
  }

  lemma PicksNext<S, T>(step: (S, T) -> Option<S>, xs: seq<T>, before: seq<S>, states: seq<S>, kept: seq<T>,
      at: seq<nat>)
    requires xs != [] && |before| == |xs| && |states| == |xs| + 1 && states[..|xs|] == before
    requires Picks(step, xs[..|xs| - 1], before, kept, at)
    ensures var n := |xs| - 1;
            if step(before[n], xs[n]).Some? then Picks(step, xs, states, kept + [xs[n]], at + [n])
            else Picks(step, xs, states, kept, at)
  {
    var n := |xs| - 1;
    var took := step(before[n], xs[n]).Some?;
    var at' := if took then at + [n] else at;
    forall i: nat | i < |xs| ensures i in at' <==> step(states[i], xs[i]).Some? {
      assert states[i] == states[..|xs|][i] == before[i];
      if i < n {
        assert xs[..n][i] == xs[i];
        assert i in at' <==> i in at;
      } else {
        assert n !in at;
      }
    }
  }

  // ---------------------------------------------------------------- invariants

  /** Consecutive states are joined by the actions between them. */
  ghost predicate Connected<S, A>(joins: (S, A, S) -> bool, states: seq<S>, actions: seq<A>) {
    |states| == |actions| + 1 && forall i | 0 <= i < |actions| :: joins(states[i], actions[i], states[i + 1])
  }

  ghost predicate Preserves<S(!new), A(!new)>(joins: (S, A, S) -> bool, inv: S -> bool) {
    forall s, a, s' | inv(s) && joins(s, a, s') :: inv(s')
  }

  /** Induction over the places of a run. */
  lemma {:induction false} Climb(holds: nat -> bool, k: nat)
    requires holds(0) && forall i: nat | i < k :: holds(i) ==> holds(i + 1)
    ensures holds(k)
  {
    if k > 0 {
      Climb(holds, k - 1);
    }
  }

  lemma {:induction false} Invariance<S(!new), A(!new)>(joins: (S, A, S) -> bool, inv: S -> bool, states: seq<S>,
      actions: seq<A>, i: nat)
    requires Connected(joins, states, actions) && Preserves(joins, inv) && inv(states[0]) && i < |states|
    ensures inv(states[i])
  {
    if i > 0 {
      Invariance(joins, inv, states, actions, i - 1);
      assert joins(states[i - 1], actions[i - 1], states[i - 1 + 1]);
    }
  }

  /** The state ends some run from a start. */
  ghost predicate Reached<S(!new), A(!new)>(joins: (S, A, S) -> bool, start: S -> bool, s: S) {
    exists states, actions :: Connected<S, A>(joins, states, actions) && start(states[0]) && states[|actions|] == s
  }

  lemma ReachedAtStart<S(!new), A(!new)>(joins: (S, A, S) -> bool, start: S -> bool, s: S)
    requires start(s)
    ensures Reached(joins, start, s)
  {
    assert Connected<S, A>(joins, [s], []) && [s][0] == s;
  }

  lemma ReachedIsClosed<S(!new), A(!new)>(joins: (S, A, S) -> bool, start: S -> bool)
    ensures Preserves(joins, s => Reached(joins, start, s))
  {
    forall s, a, s' | Reached(joins, start, s) && joins(s, a, s') ensures Reached(joins, start, s') {
      var states, actions :| Connected<S, A>(joins, states, actions) && start(states[0]) && states[|actions|] == s;
      assert Connected(joins, states + [s'], actions + [a]);
    }
  }
}
