/**
 What the int32 round counter running over leads to. Handlers take over a higher round before they look
 at who is voting, so one vote of an outsider takes an engine to round 2147483647, and three time-outs
 from there to round -2147483648. The networks here run without the assumption that this does not
 happen.
 */
module WrapRun {
  import opened Text
  import opened Votes
  import opened BlockHash
  import opened Engine
  import opened EngineSafety
  import opened Folds
  import opened Network
  import opened RunSteps

  // ---------------------------------------------------------------- runs without the assumption

  ghost predicate FreelyActs(n: Setup, s: Net, a: Action, s': Net) {
    Authorised(n, s, a.who, a.event) && s' == Next(n, s, a.who, a.event)
  }

  ghost function FreelyActing(n: Setup): (Net, Action, Net) -> bool {
    (s: Net, a: Action, s': Net) => FreelyActs(n, s, a, s')
  }

  /** Any interleaving of authentic deliveries and time-outs. */
  ghost predicate FreeRun(n: Setup, states: seq<Net>, actions: seq<Action>) {
    Connected(FreelyActing(n), states, actions) && Start(n, states[0])
  }

  /** No action moves any engine back in (height, round, step). */
  ghost predicate NeverBack(states: seq<Net>) {
    forall i, p | 0 <= i < |states| - 1 && p in states[i].engines ::
      p in states[i + 1].engines && Progress(states[i].engines[p], states[i + 1].engines[p])
  }

  lemma FreeStep(n: Setup, states: seq<Net>, actions: seq<Action>, i: nat)
    requires FreeRun(n, states, actions) && i < |actions|
    ensures Authorised(n, states[i], actions[i].who, actions[i].event)
    ensures states[i + 1] == Next(n, states[i], actions[i].who, actions[i].event)
  {
    assert FreelyActing(n)(states[i], actions[i], states[i + 1]);
  }

  lemma NotBackIffNoOverrun(n: Setup, s: Net, a: Action)
    requires Authorised(n, s, a.who, a.event)
    ensures Progress(s.engines[a.who], Next(n, s, a.who, a.event).engines[a.who]) <==> !Overruns(n, s, a.who, a.event)
  {
    ProgressUnlessRoundWraps(ConfigOf(n, a.who), s.engines[a.who], a.event);
  }

  /** POSITIONS, exactly. Of all interleavings, the runs are the ones in which no engine ever goes back: an
      engine goes back if and only if its round counter runs over. */
  lemma RunIffNeverBack(n: Setup, states: seq<Net>, actions: seq<Action>)
    requires FreeRun(n, states, actions)
    ensures Run(n, states, actions) <==> NeverBack(states)
  {
    if Run(n, states, actions) {
      forall i, p | 0 <= i < |states| - 1 && p in states[i].engines
        ensures p in states[i + 1].engines && Progress(states[i].engines[p], states[i + 1].engines[p])
      {
        StepAdvances(n, states, actions, i, p);
      }
    }
    if NeverBack(states) {
      forall i | 0 <= i < |actions| ensures Acting(n)(states[i], actions[i], states[i + 1]) {
        FreeStep(n, states, actions, i);
        NotBackIffNoOverrun(n, states[i], actions[i]);
      }
    }
  }

  // ---------------------------------------------------------------- the chain

  /** A signer outside the roster. */
  predicate Outsider(n: Setup, x: string) {
    Lower(x) !in n.validators
  }

  lemma OutsiderIsUnknown(n: Setup, p: string, x: string)
    requires FourHonest(n) && Outsider(n, x)
    ensures !Known(ConfigOf(n, p), x)
  {
    forall a | a in n.validators ensures Lower(a) != Lower(x) {
      Member(n, a);
    }
  }

  /** A vote of an outsider moves the round and does nothing else. */
  lemma OutsiderMovesRound(n: Setup, p: string, x: string, e: State, r: Int32)
    requires FourHonest(n) && Outsider(n, x) && e.height == 1 && r > e.round && e.jailed == {}
    ensures Step(ConfigOf(n, p), e, DeliverVote(V(Prevote, r, "", x), true, false)) == Idle(JumpRound(e, r))
  {
    OutsiderIsUnknown(n, p, x);
  }

  /** The engine in the last round, and after each of its time-outs. */
  function Last(p: string): State {
    JumpRound(NilPrevoted(p), MAX_INT32)
  }

  function LastPrevoted(p: string): State {
    Last(p).(step := StepPrevote, prevotes := map[p := V(Prevote, MAX_INT32, "", p)])
  }

  function LastPrecommitted(p: string): State {
    LastPrevoted(p).(step := StepPrecommit, precommits := map[p := V(Precommit, MAX_INT32, "", p)])
  }

  function Overrun(p: string): State {
    AdvanceRound(LastPrecommitted(p))
  }

  /** Back in round 0, in the propose step. */
  function Again(p: string): State {
    JumpRound(Overrun(p), 0)
  }

  lemma LastTimeouts(n: Setup, p: string)
    requires FourHonest(n) && p in n.validators
    ensures Step(ConfigOf(n, p), Last(p), ProposeTimeout)
      == Outcome(LastPrevoted(p), Some(V(Prevote, MAX_INT32, "", p)), None)
    ensures Step(ConfigOf(n, p), LastPrevoted(p), PrevoteTimeout)
      == Outcome(LastPrecommitted(p), Some(V(Precommit, MAX_INT32, "", p)), None)
    ensures Step(ConfigOf(n, p), LastPrecommitted(p), PrecommitTimeout) == Idle(Overrun(p))
    ensures Overrun(p).round == MIN_INT32
  {
    Member(n, p);
  }

  /** A proposal of b for round 0. */
  function Mine0(n: Setup, b: string): Proposal {
    OwnProposal(ConfigOf(n, b), 1, 0, "GENESIS", "root", 7)
  }

  lemma ProposalInAgain(n: Setup, b: string, p: string)
    requires FourHonest(n) && b in n.validators && p in n.validators
    ensures var o := Step(ConfigOf(n, p), Again(p), DeliverProposal(Mine0(n, b), true, b, Some(Tip(0, ""))));
            o.sent == Some(V(Prevote, 0, Mine0(n, b).hash, p))
  {
    Member(n, p);
  }

  // ---------------------------------------------------------------- the run

  ghost predicate FreelyClosed(n: Setup, reach: Net -> bool) {
    Preserves(FreelyActing(n), reach)
  }

  lemma FreelyClosedIsClosed(n: Setup, reach: Net -> bool)
    requires FreelyClosed(n, reach)
    ensures Closed(n, reach)
  {
    forall s, a, s' | reach(s) && Acting(n)(s, a, s') ensures reach(s') {
      assert FreelyActing(n)(s, a, s');
    }
  }

  lemma FreelyBy(n: Setup, reach: Net -> bool, s: Net, p: string, ev: Event, o: Outcome) returns (s': Net)
    requires FreelyClosed(n, reach) && reach(s) && p in s.engines
    requires Step(ConfigOf(n, p), s.engines[p], ev) == o
    requires ev.DeliverVote? && ev.sigOk ==> Authentic(n, s, ev.v)
    ensures reach(s') && Moved(s, s', p, o.state, SignedBy(o))
  {
    s' := After(s, p, o);
    assert FreelyActing(n)(s, Action(p, ev), s');
  }

  lemma OutsiderIsAuthentic(n: Setup, s: Net, x: string, r: Int32)
    requires FourHonest(n) && Outsider(n, x)
    ensures Authentic(n, s, V(Prevote, r, "", x))
  {
  }

  lemma ToLastRound(n: Setup, reach: Net -> bool, s: Net, p: string, x: string) returns (s': Net)
    requires FourHonest(n) && FreelyClosed(n, reach) && reach(s) && Outsider(n, x)
    requires p in s.engines && s.engines[p] == NilPrevoted(p)
    ensures reach(s') && Moved(s, s', p, Last(p), {})
  {
    OutsiderMovesRound(n, p, x, NilPrevoted(p), MAX_INT32);
    OutsiderIsAuthentic(n, s, x, MAX_INT32);
    s' := FreelyBy(n, reach, s, p, DeliverVote(V(Prevote, MAX_INT32, "", x), true, false), Idle(Last(p)));
  }

  lemma LastTimeout1(n: Setup, reach: Net -> bool, s: Net, p: string) returns (s': Net)
    requires FourHonest(n) && FreelyClosed(n, reach) && reach(s) && p in n.validators && p in s.engines
      && s.engines[p] == Last(p)
    ensures reach(s') && Moved(s, s', p, LastPrevoted(p), {V(Prevote, MAX_INT32, "", p)})
  {
    LastTimeouts(n, p);
    s' := FreelyBy(n, reach, s, p, ProposeTimeout, Outcome(LastPrevoted(p), Some(V(Prevote, MAX_INT32, "", p)), None));
  }

  lemma LastTimeout2(n: Setup, reach: Net -> bool, s: Net, p: string) returns (s': Net)
    requires FourHonest(n) && FreelyClosed(n, reach) && reach(s) && p in n.validators && p in s.engines
      && s.engines[p] == LastPrevoted(p)
    ensures reach(s') && Moved(s, s', p, LastPrecommitted(p), {V(Precommit, MAX_INT32, "", p)})
  {
    LastTimeouts(n, p);
    s' := FreelyBy(n, reach, s, p, PrevoteTimeout,
      Outcome(LastPrecommitted(p), Some(V(Precommit, MAX_INT32, "", p)), None));
  }

  lemma LastTimeout3(n: Setup, reach: Net -> bool, s: Net, p: string) returns (s': Net)
    requires FourHonest(n) && FreelyClosed(n, reach) && reach(s) && p in n.validators && p in s.engines
      && s.engines[p] == LastPrecommitted(p)
    ensures reach(s') && Moved(s, s', p, Overrun(p), {})
  {
    LastTimeouts(n, p);
    s' := FreelyBy(n, reach, s, p, PrecommitTimeout, Idle(Overrun(p)));
  }

  lemma BackToZero(n: Setup, reach: Net -> bool, s: Net, p: string, x: string) returns (s': Net)
    requires FourHonest(n) && FreelyClosed(n, reach) && reach(s) && Outsider(n, x)
    requires p in s.engines && s.engines[p] == Overrun(p)
    ensures reach(s') && Moved(s, s', p, Again(p), {})
  {
    OutsiderMovesRound(n, p, x, Overrun(p), 0);
    OutsiderIsAuthentic(n, s, x, 0);
    s' := FreelyBy(n, reach, s, p, DeliverVote(V(Prevote, 0, "", x), true, false), Idle(Again(p)));
  }

  lemma VotesAgain(n: Setup, reach: Net -> bool, s: Net, b: string, p: string) returns (s': Net)
    requires FourHonest(n) && FreelyClosed(n, reach) && reach(s) && b in n.validators && p in n.validators
    requires p in s.engines && s.engines[p] == Again(p)
    ensures reach(s') && s.sent <= s'.sent && V(Prevote, 0, Mine0(n, b).hash, p) in s'.sent
  {
    var ev := DeliverProposal(Mine0(n, b), true, b, Some(Tip(0, "")));
    ProposalInAgain(n, b, p);
    s' := FreelyBy(n, reach, s, p, ev, Step(ConfigOf(n, p), Again(p), ev));
  }

  /** From the first nil prevote to round -2147483648. */
  lemma RunsOver(n: Setup, reach: Net -> bool, s: Net, p: string, x: string) returns (s': Net)
    requires FourHonest(n) && FreelyClosed(n, reach) && reach(s) && Outsider(n, x) && p in n.validators
    requires p in s.engines && s.engines[p] == NilPrevoted(p)
    ensures reach(s') && s.sent <= s'.sent && p in s'.engines && s'.engines[p] == Overrun(p)
  {
    var s1 := ToLastRound(n, reach, s, p, x);
    var s2 := LastTimeout1(n, reach, s1, p);
    var s3 := LastTimeout2(n, reach, s2, p);
    s' := LastTimeout3(n, reach, s3, p);
  }

  lemma VotesTwice(n: Setup, reach: Net -> bool, p: string, b: string, x: string) returns (s': Net, s1: Net)
    requires FourHonest(n) && FreelyClosed(n, reach) && reach(Begin(n)) && Outsider(n, x) && p in n.validators
      && b in n.validators
    ensures reach(s') && V(Prevote, 0, "", p) in s'.sent && V(Prevote, 0, Mine0(n, b).hash, p) in s'.sent
    ensures reach(s1) && p in s1.engines && s1.engines[p].round == MIN_INT32
  {
    FreelyClosedIsClosed(n, reach);
    var s2 := Begins(n, reach, Begin(n), p);
    var s3 := PrevotesNil(n, reach, s2, p);
    s1 := RunsOver(n, reach, s3, p, x);
    LastTimeouts(n, p);
    var s4 := BackToZero(n, reach, s1, p, x);
    s' := VotesAgain(n, reach, s4, b, p);
  }

  ghost function InFreeRun(n: Setup): Net -> bool {
    (s: Net) => Reached(FreelyActing(n), Starting(n), s)
  }

  lemma FreeRunTo(n: Setup, s: Net) returns (states: seq<Net>, actions: seq<Action>)
    requires InFreeRun(n)(s)
    ensures FreeRun(n, states, actions) && states[|actions|] == s
  {
    states, actions :| Connected(FreelyActing(n), states, actions) && Starting(n)(states[0]) && states[|actions|] == s;
  }

  lemma FreeRunsAreClosed(n: Setup)
    requires FourHonest(n)
    ensures FreelyClosed(n, InFreeRun(n)) && InFreeRun(n)(Begin(n))
  {
    assert Starting(n)(Begin(n));
    ReachedAtStart(FreelyActing(n), Starting(n), Begin(n));
    ReachedIsClosed(FreelyActing(n), Starting(n));
  }

  /** SINGLE VOTING NEEDS THE ROUND COUNTER. For any four validators, all of them honest, and any outsider there
      is an interleaving in which an honest engine signs two different prevotes for round 0 of one height. */
  lemma OverrunEquivocates(n: Setup, p: string, b: string, x: string) returns (states: seq<Net>,
      actions: seq<Action>, u: Vote, v: Vote)
    requires FourHonest(n) && p in n.validators && b in n.validators && Outsider(n, x)
    ensures FreeRun(n, states, actions) && u in states[|actions|].sent && v in states[|actions|].sent
    ensures u.voter == p && SamePlace(u, v) && u != v
  {
    FreeRunsAreClosed(n);
    var s, s1 := VotesTwice(n, InFreeRun(n), p, b, x);
    states, actions := FreeRunTo(n, s);
    u, v := V(Prevote, 0, "", p), V(Prevote, 0, Mine0(n, b).hash, p);
  }

  /** One vote of an outsider and three time-outs take an engine to round -2147483648. */
  lemma OverrunReached(n: Setup, p: string, b: string, x: string) returns (states: seq<Net>, actions: seq<Action>)
    requires FourHonest(n) && p in n.validators && b in n.validators && Outsider(n, x)
    ensures FreeRun(n, states, actions) && p in states[|actions|].engines
      && states[|actions|].engines[p].round == MIN_INT32
  {
    FreeRunsAreClosed(n);
    var s, s1 := VotesTwice(n, InFreeRun(n), p, b, x);
    states, actions := FreeRunTo(n, s1);
  }
}
