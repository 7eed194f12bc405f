/**
 Building blocks for complete runs of four honest engines: time-outs to nil, a proposal, prevotes, locks.
 Each lemma leads from one network to the next within any set of networks that actions do not leave.
 */
module RunSteps {
  import opened Text
  import opened Votes
  import opened BlockHash
  import opened Engine
  import opened EngineSafety
  import opened Folds
  import opened Network
  import opened NilVotes
  import opened Decisions

  /** A set of networks that no permitted action leaves. The steps below are about any such set, and
      at last about the networks that some run reaches. */
  ghost predicate Closed(n: Setup, reach: Net -> bool) {
    Preserves(Acting(n), reach)
  }

  // ---------------------------------------------------------------- single sections

  /** From s to s', engine p moved to e and signed what is in signed; nothing else changed but decisions. */
  ghost predicate Moved(s: Net, s': Net, p: string, e: State, signed: set<Vote>) {
    && p in s.engines && s'.engines == s.engines[p := e]
    && s'.sent == s.sent + signed && s.decisions <= s'.decisions
  }

  function SignedBy(o: Outcome): set<Vote> {
    if o.sent.Some? then {o.sent.value} else {}
  }

  /** One section of engine p that is not about to run its round counter over. */
  lemma ReachBy(n: Setup, reach: Net -> bool, s: Net, p: string, ev: Event, o: Outcome) returns (s': Net)
    requires Closed(n, reach) && reach(s) && p in s.engines && s.engines[p].round < MAX_INT32
    requires Step(ConfigOf(n, p), s.engines[p], ev) == o
    requires ev.DeliverVote? && ev.sigOk ==> Authentic(n, s, ev.v)
    ensures reach(s') && Moved(s, s', p, o.state, SignedBy(o))
    ensures o.decided.Some? ==>
              var d := o.decided.value;
              Decision(p, d.height, d.round, d.hash) in s'.decisions
  {
    s' := After(s, p, o);
    assert Acts(n, s, Action(p, ev), s');
    assert Acting(n)(s, Action(p, ev), s');
  }

  lemma MovedTwice(s: Net, s1: Net, s2: Net, p: string, e1: State, signed1: set<Vote>, e2: State, signed2: set<Vote>)
    requires Moved(s, s1, p, e1, signed1) && Moved(s1, s2, p, e2, signed2)
    ensures Moved(s, s2, p, e2, signed1 + signed2)
  {
  }

  // ---------------------------------------------------------------- four honest validators

  ghost predicate FourHonest(n: Setup) {
    ValidSetup(n) && |n.validators| == 4 && n.honest == n.validators && n.keyed == n.validators
  }

  /** Three different ones of them. */
  ghost predicate Three(n: Setup, x: string, y: string, z: string) {
    FourHonest(n) && {x, y, z} <= n.validators && x != y && x != z && y != z
  }

  /** All four of them. */
  ghost predicate Four(n: Setup, a: string, b: string, c: string, d: string) {
    Three(n, a, b, c) && d in n.validators && d != a && d != b && d != c
  }

  lemma Member(n: Setup, p: string)
    requires FourHonest(n) && p in n.validators
    ensures Lower(p) == p && Norm(p) == p && Known(ConfigOf(n, p), p) && Quorum(ConfigOf(n, p)) == 3
  {
    CanonicalIsNormal(p);
  }

  /** A vote of height 1. */
  function V(t: VoteType, round: Int32, hash: string, p: string): Vote {
    Vote(t, 1, round, hash, p)
  }

  // ---------------------------------------------------------------- timing out to nil

  function Proposing(): State {
    Initial(1).(step := StepPropose)
  }

  function NilPrevoted(p: string): State {
    Proposing().(step := StepPrevote, prevotes := map[p := V(Prevote, 0, "", p)])
  }

  /** Nil prevoted and nil precommitted in round 0. */
  function Waiting(p: string): State {
    NilPrevoted(p).(step := StepPrecommit, precommits := map[p := V(Precommit, 0, "", p)])
  }

  function VotesForNil(p: string): set<Vote> {
    {V(Prevote, 0, "", p)} + {V(Precommit, 0, "", p)}
  }

  lemma Begins(n: Setup, reach: Net -> bool, s: Net, p: string) returns (s': Net)
    requires Closed(n, reach) && reach(s) && p in s.engines && s.engines[p] == Initial(1)
    ensures reach(s') && Moved(s, s', p, Proposing(), {})
  {
    s' := ReachBy(n, reach, s, p, BeginPropose, Idle(Proposing()));
  }

  lemma PrevotesNil(n: Setup, reach: Net -> bool, s: Net, p: string) returns (s': Net)
    requires FourHonest(n) && Closed(n, reach) && reach(s) && p in n.validators && p in s.engines
      && s.engines[p] == Proposing()
    ensures reach(s') && Moved(s, s', p, NilPrevoted(p), {V(Prevote, 0, "", p)})
  {
    Member(n, p);
    s' := ReachBy(n, reach, s, p, ProposeTimeout, Outcome(NilPrevoted(p), Some(V(Prevote, 0, "", p)), None));
  }

  lemma PrecommitsNil(n: Setup, reach: Net -> bool, s: Net, p: string) returns (s': Net)
    requires FourHonest(n) && Closed(n, reach) && reach(s) && p in n.validators && p in s.engines
      && s.engines[p] == NilPrevoted(p)
    ensures reach(s') && Moved(s, s', p, Waiting(p), {V(Precommit, 0, "", p)})
  {
    Member(n, p);
    s' := ReachBy(n, reach, s, p, PrevoteTimeout, Outcome(Waiting(p), Some(V(Precommit, 0, "", p)), None));
  }

  lemma TimesOut(n: Setup, reach: Net -> bool, s: Net, p: string) returns (s': Net)
    requires FourHonest(n) && Closed(n, reach) && reach(s) && p in n.validators && p in s.engines
      && s.engines[p] == Initial(1)
    ensures reach(s') && Moved(s, s', p, Waiting(p), VotesForNil(p))
  {
    var s1 := Begins(n, reach, s, p);
    var s2 := PrevotesNil(n, reach, s1, p);
    s' := PrecommitsNil(n, reach, s2, p);
    MovedTwice(s, s1, s2, p, Proposing(), {}, NilPrevoted(p), {V(Prevote, 0, "", p)});
    MovedTwice(s, s2, s', p, NilPrevoted(p), {} + {V(Prevote, 0, "", p)}, Waiting(p), {V(Precommit, 0, "", p)});
    assert {} + {V(Prevote, 0, "", p)} + {V(Precommit, 0, "", p)} == VotesForNil(p);
  }

  // ---------------------------------------------------------------- receiving votes

  function Recorded(e: State, v: Vote): map<(string, VoteType), VoteKey> {
    e.lastVotes[(v.voter, v.vtype) := VoteKey(v.height, v.round, v.hash)]
  }

  function WithPrevote(e: State, v: Vote): State {
    e.(prevotes := e.prevotes[v.voter := v], lastVotes := Recorded(e, v))
  }

  function WithPrecommit(e: State, v: Vote): State {
    e.(precommits := e.precommits[v.voter := v], lastVotes := Recorded(e, v))
  }

  /** A first vote of a member for the current place. */
  ghost predicate Fresh(n: Setup, e: State, v: Vote) {
    && v.voter in n.validators && v.height == e.height && v.round == e.round && e.jailed == {}
    && ((v.voter, v.vtype) in e.lastVotes ==> e.lastVotes[(v.voter, v.vtype)].round != v.round)
    && v.voter !in (if v.vtype == Prevote then e.prevotes else e.precommits)
  }

  lemma Receives(n: Setup, p: string, e: State, v: Vote)
    requires FourHonest(n) && Fresh(n, e, v)
    ensures ReceiveVote(ConfigOf(n, p), e, v, true) ==
              (if v.vtype == Prevote then WithPrevote(e, v) else WithPrecommit(e, v), true)
  {
    Member(n, v.voter);
    KnownToAll(n, p, v.voter);
  }

  lemma KnownToAll(n: Setup, p: string, voter: string)
    requires voter in n.validators
    ensures Known(ConfigOf(n, p), voter)
  {
    var c := ConfigOf(n, p);
    assert voter in c.validators && Lower(voter) == Lower(voter);
    assert |c.validators| != 0 by {
      assert voter in c.validators;
    }
  }

  ghost predicate BelowQuorum(votes: map<string, Vote>) {
    forall h :: Tally(votes, h) < 3
  }

  lemma TwoVotesBelow(votes: map<string, Vote>)
    requires |votes| <= 2
    ensures BelowQuorum(votes)
  {
    forall h ensures Tally(votes, h) < 3 {
      assert Backers(votes, h) <= votes.Keys;
      SubsetCard(Backers(votes, h), votes.Keys);
    }
  }

  lemma PrecommitCounted(n: Setup, reach: Net -> bool, s: Net, p: string, e: State, v: Vote) returns (s': Net)
    requires FourHonest(n) && Closed(n, reach) && reach(s) && p in n.validators && p in s.engines
      && s.engines[p] == e && e.round < MAX_INT32
    requires e.step == StepPrecommit && v.vtype == Precommit && Fresh(n, e, v) && Authentic(n, s, v)
    requires BelowQuorum(e.precommits[v.voter := v])
    ensures reach(s') && Moved(s, s', p, WithPrecommit(e, v), {})
  {
    Member(n, p);
    Receives(n, p, e, v);
    s' := ReachBy(n, reach, s, p, DeliverVote(v, true, false), Idle(WithPrecommit(e, v)));
  }

  // ---------------------------------------------------------------- deciding a block

  /** The block the leader proposes in round 1. */
  function Mine(n: Setup, b: string): Proposal {
    OwnProposal(ConfigOf(n, b), 1, 1, "GENESIS", "root", 7)
  }

  function Prevoting(n: Setup, b: string, p: string): State {
    Initial(1).(round := 1, step := StepPrevote, proposal := Some(Mine(n, b)),
      prevotes := map[p := V(Prevote, 1, Mine(n, b).hash, p)])
  }

  /** Round 1 before anything happened in it. */
  function Fresh1(step: RoundStep, proposal: Option<Proposal>): State {
    Initial(1).(round := 1, step := step, proposal := proposal)
  }

  lemma GivesUp(n: Setup, reach: Net -> bool, s: Net, b: string) returns (s': Net)
    requires Closed(n, reach) && reach(s) && b in s.engines && s.engines[b] == Waiting(b)
    ensures reach(s') && Moved(s, s', b, Fresh1(StepNewHeight, None), {})
  {
    s' := ReachBy(n, reach, s, b, PrecommitTimeout, Idle(Fresh1(StepNewHeight, None)));
  }

  lemma BeginsAgain(n: Setup, reach: Net -> bool, s: Net, b: string) returns (s': Net)
    requires Closed(n, reach) && reach(s) && b in s.engines && s.engines[b] == Fresh1(StepNewHeight, None)
    ensures reach(s') && Moved(s, s', b, Fresh1(StepPropose, None), {})
  {
    s' := ReachBy(n, reach, s, b, BeginPropose, Idle(Fresh1(StepPropose, None)));
  }

  lemma Proposes(n: Setup, reach: Net -> bool, s: Net, b: string) returns (s': Net)
    requires Closed(n, reach) && reach(s) && b in s.engines && s.engines[b] == Fresh1(StepPropose, None)
    ensures reach(s') && Moved(s, s', b, Fresh1(StepPropose, Some(Mine(n, b))), {})
  {
    s' := ReachBy(n, reach, s, b, InstallProposal(1, 1, "GENESIS", "root", 7),
      Idle(Fresh1(StepPropose, Some(Mine(n, b)))));
  }

  lemma PrevotesOwn(n: Setup, reach: Net -> bool, s: Net, b: string) returns (s': Net)
    requires FourHonest(n) && Closed(n, reach) && reach(s) && b in n.validators && b in s.engines
      && s.engines[b] == Fresh1(StepPropose, Some(Mine(n, b)))
    ensures reach(s') && Moved(s, s', b, Prevoting(n, b, b), {V(Prevote, 1, Mine(n, b).hash, b)})
  {
    Member(n, b);
    s' := ReachBy(n, reach, s, b, ProposeTimeout,
      Outcome(Prevoting(n, b, b), Some(V(Prevote, 1, Mine(n, b).hash, b)), None));
  }

  lemma LeaderPrevotes(n: Setup, reach: Net -> bool, s: Net, b: string) returns (s': Net)
    requires FourHonest(n) && Closed(n, reach) && reach(s) && b in n.validators && b in s.engines
      && s.engines[b] == Waiting(b)
    ensures reach(s') && s.decisions <= s'.decisions && s.sent <= s'.sent
    ensures s'.engines == s.engines[b := Prevoting(n, b, b)] && V(Prevote, 1, Mine(n, b).hash, b) in s'.sent
  {
    var s1 := GivesUp(n, reach, s, b);
    var s2 := BeginsAgain(n, reach, s1, b);
    var s3 := Proposes(n, reach, s2, b);
    s' := PrevotesOwn(n, reach, s3, b);
  }

  lemma FollowerStep(n: Setup, b: string, p: string)
    requires FourHonest(n) && b in n.validators && p in n.validators
    ensures Step(ConfigOf(n, p), Waiting(p), DeliverProposal(Mine(n, b), true, b, Some(Tip(0, ""))))
         == Outcome(Prevoting(n, b, p), Some(V(Prevote, 1, Mine(n, b).hash, p)), None)
  {
    Member(n, p);
  }

  lemma FollowerPrevotes(n: Setup, reach: Net -> bool, s: Net, b: string, p: string) returns (s': Net)
    requires FourHonest(n) && Closed(n, reach) && reach(s) && b in n.validators && p in n.validators
      && p in s.engines && s.engines[p] == Waiting(p)
    ensures reach(s') && Moved(s, s', p, Prevoting(n, b, p), {V(Prevote, 1, Mine(n, b).hash, p)})
  {
    FollowerStep(n, b, p);
    s' := ReachBy(n, reach, s, p, DeliverProposal(Mine(n, b), true, b, Some(Tip(0, ""))),
                  Outcome(Prevoting(n, b, p), Some(V(Prevote, 1, Mine(n, b).hash, p)), None));
  }

  lemma SentIsAuthentic(n: Setup, s: Net, v: Vote)
    requires v in s.sent && Lower(v.voter) == v.voter
    ensures Authentic(n, s, v)
  {
    assert SignedAs(s.sent, v);
  }

  lemma UnanimousThree(votes: map<string, Vote>, x: string, y: string, z: string, h: string)
    requires votes.Keys == {x, y, z} && x != y && x != z && y != z && forall k | k in votes :: votes[k].hash == h
    ensures QuorumHash(votes, 3) == Some(h)
  {
    assert Backers(votes, h) == {x, y, z};
    assert |votes| == |votes.Keys| == 3;
    assert Tally(votes, h) >= 3;
    AtMostOneQuorum(votes, 3, h, QuorumHash(votes, 3).value);
  }

  /** Locked on the block in round 1, with the prevotes of y and z and the own precommit. */
  function Locked(n: Setup, b: string, x: string, y: string, z: string): State {
    var h := Mine(n, b).hash;
    var e := WithPrevote(WithPrevote(Prevoting(n, b, x), V(Prevote, 1, h, y)), V(Prevote, 1, h, z));
    e.(step := StepPrecommit, lockedHash := h, lockedRound := 1, precommits := map[x := V(Precommit, 1, h, x)])
  }

  lemma FirstPrevote(n: Setup, b: string, x: string, y: string)
    requires FourHonest(n) && {b, x, y} <= n.validators && x != y
    ensures var h := Mine(n, b).hash;
            Step(ConfigOf(n, x), Prevoting(n, b, x), DeliverVote(V(Prevote, 1, h, y), true, false))
            == Idle(WithPrevote(Prevoting(n, b, x), V(Prevote, 1, h, y)))
  {
    var v, e := V(Prevote, 1, Mine(n, b).hash, y), Prevoting(n, b, x);
    Member(n, x);
    Receives(n, x, e, v);
    TwoVotesBelow(WithPrevote(e, v).prevotes);
  }

  /** A prevote that completes a quorum for something other than nil locks and precommits it. */
  lemma PrevoteLocks(n: Setup, p: string, e: State, v: Vote, h: string)
    requires FourHonest(n) && p in n.validators && e.step == StepPrevote && v.vtype == Prevote && Fresh(n, e, v)
    requires h != "" && QuorumHash(e.prevotes[v.voter := v], 3) == Some(h)
    ensures Step(ConfigOf(n, p), e, DeliverVote(v, true, false)) ==
              var w := Vote(Precommit, e.height, e.round, h, p);
              Outcome(WithPrevote(e, v).(step := StepPrecommit, lockedHash := h, lockedRound := e.round,
                precommits := e.precommits[p := w]), Some(w), None)
  {
    Member(n, p);
    Receives(n, p, e, v);
  }

  function OneHeard(n: Setup, b: string, x: string, y: string): State {
    WithPrevote(Prevoting(n, b, x), V(Prevote, 1, Mine(n, b).hash, y))
  }

  lemma OneHeardFacts(n: Setup, b: string, x: string, y: string, z: string)
    requires Three(n, x, y, z)
    ensures var h, e := Mine(n, b).hash, OneHeard(n, b, x, y);
            && h != "" && e.step == StepPrevote && e.height == 1 && e.round == 1 && Fresh(n, e, V(Prevote, 1, h, z))
              && e.precommits == map[]
            && QuorumHash(e.prevotes[z := V(Prevote, 1, h, z)], 3) == Some(h)
  {
    var h, e := Mine(n, b).hash, OneHeard(n, b, x, y);
    UnanimousThree(e.prevotes[z := V(Prevote, 1, h, z)], x, y, z, h);
  }

  lemma SecondPrevote(n: Setup, b: string, x: string, y: string, z: string)
    requires Three(n, x, y, z) && b in n.validators
    ensures Step(ConfigOf(n, x), OneHeard(n, b, x, y), DeliverVote(V(Prevote, 1, Mine(n, b).hash, z), true, false))
         == Outcome(Locked(n, b, x, y, z), Some(V(Precommit, 1, Mine(n, b).hash, x)), None)
  {
    OneHeardFacts(n, b, x, y, z);
    PrevoteLocks(n, x, OneHeard(n, b, x, y), V(Prevote, 1, Mine(n, b).hash, z), Mine(n, b).hash);
  }

  lemma ReceivesFirst(n: Setup, reach: Net -> bool, s: Net, b: string, x: string, y: string) returns (s': Net)
    requires FourHonest(n) && Closed(n, reach) && reach(s) && {b, x, y} <= n.validators && x != y
    requires x in s.engines && s.engines[x] == Prevoting(n, b, x) && V(Prevote, 1, Mine(n, b).hash, y) in s.sent
    ensures reach(s') && Moved(s, s', x, OneHeard(n, b, x, y), {})
  {
    var v := V(Prevote, 1, Mine(n, b).hash, y);
    Member(n, y);
    FirstPrevote(n, b, x, y);
    SentIsAuthentic(n, s, v);
    s' := ReachBy(n, reach, s, x, DeliverVote(v, true, false), Idle(WithPrevote(Prevoting(n, b, x), v)));
  }

  lemma ReceivesSecond(n: Setup, reach: Net -> bool, s: Net, b: string, x: string, y: string,
      z: string) returns (s': Net)
    requires Three(n, x, y, z) && b in n.validators && Closed(n, reach) && reach(s)
    requires x in s.engines && s.engines[x] == OneHeard(n, b, x, y)
    requires V(Prevote, 1, Mine(n, b).hash, z) in s.sent
    ensures reach(s') && Moved(s, s', x, Locked(n, b, x, y, z), {V(Precommit, 1, Mine(n, b).hash, x)})
  {
    var h := Mine(n, b).hash;
    Member(n, z);
    SecondPrevote(n, b, x, y, z);
    SentIsAuthentic(n, s, V(Prevote, 1, h, z));
    s' := ReachBy(n, reach, s, x, DeliverVote(V(Prevote, 1, h, z), true, false),
      Outcome(Locked(n, b, x, y, z), Some(V(Precommit, 1, h, x)), None));
  }

  lemma Locks(n: Setup, reach: Net -> bool, s: Net, b: string, x: string, y: string, z: string) returns (s': Net)
    requires Three(n, x, y, z) && b in n.validators && Closed(n, reach) && reach(s)
    requires x in s.engines && s.engines[x] == Prevoting(n, b, x)
    requires V(Prevote, 1, Mine(n, b).hash, y) in s.sent && V(Prevote, 1, Mine(n, b).hash, z) in s.sent
    ensures reach(s') && Moved(s, s', x, Locked(n, b, x, y, z), {V(Precommit, 1, Mine(n, b).hash, x)})
  {
    var s1 := ReceivesFirst(n, reach, s, b, x, y);
    s' := ReceivesSecond(n, reach, s1, b, x, y, z);
  }

  lemma PrevoteCounted(n: Setup, reach: Net -> bool, s: Net, p: string, e: State, v: Vote) returns (s': Net)
    requires FourHonest(n) && Closed(n, reach) && reach(s)
    requires p in n.validators && p in s.engines && s.engines[p] == e && e.round < MAX_INT32
    requires e.step == StepPrevote && v.vtype == Prevote && Fresh(n, e, v) && Authentic(n, s, v)
    requires BelowQuorum(e.prevotes[v.voter := v])
    ensures reach(s') && Moved(s, s', p, WithPrevote(e, v), {})
  {
    Member(n, p);
    Receives(n, p, e, v);
    s' := ReachBy(n, reach, s, p, DeliverVote(v, true, false), Idle(WithPrevote(e, v)));
  }

  // ---------------------------------------------------------------- an empty round

  /** The next round of an engine that gave one up, with nothing but its nil prevote. */
  function EmptyRound(e: State, p: string): State
    requires e.round < MAX_INT32
  {
    NewRound(e, StepPrevote).(prevotes := map[p := Vote(Prevote, e.height, e.round + 1, "", p)])
  }

  function NewRound(e: State, step: RoundStep): State
    requires e.round < MAX_INT32
  {
    e.(round := e.round + 1, step := step, proposal := None, prevotes := map[], precommits := map[])
  }

  lemma GivesUpAgain(n: Setup, reach: Net -> bool, s: Net, p: string, e: State) returns (s': Net)
    requires Closed(n, reach) && reach(s) && p in s.engines && s.engines[p] == e
    requires e.step == StepPrecommit && e.round < MAX_INT32 - 1
    ensures reach(s') && Moved(s, s', p, NewRound(e, StepNewHeight), {})
  {
    s' := ReachBy(n, reach, s, p, PrecommitTimeout, Idle(NewRound(e, StepNewHeight)));
  }

  lemma BeginsRound(n: Setup, reach: Net -> bool, s: Net, p: string, e: State) returns (s': Net)
    requires Closed(n, reach) && reach(s) && p in s.engines && e.round < MAX_INT32 - 1
    requires s.engines[p] == NewRound(e, StepNewHeight)
    ensures reach(s') && Moved(s, s', p, NewRound(e, StepPropose), {})
  {
    s' := ReachBy(n, reach, s, p, BeginPropose, Idle(NewRound(e, StepPropose)));
  }

  /** Without a proposal an engine prevotes nil, locked or not. */
  lemma PrevotesEmpty(n: Setup, reach: Net -> bool, s: Net, p: string, e: State) returns (s': Net)
    requires FourHonest(n) && Closed(n, reach) && reach(s) && p in n.validators && p in s.engines
    requires e.round < MAX_INT32 - 1 && s.engines[p] == NewRound(e, StepPropose)
    ensures reach(s') && Moved(s, s', p, EmptyRound(e, p), {Vote(Prevote, e.height, e.round + 1, "", p)})
  {
    Member(n, p);
    s' := ReachBy(n, reach, s, p, ProposeTimeout,
                  Outcome(EmptyRound(e, p), Some(Vote(Prevote, e.height, e.round + 1, "", p)), None));
  }

  lemma NextEmptyRound(n: Setup, reach: Net -> bool, s: Net, p: string, e: State) returns (s': Net)
    requires FourHonest(n) && Closed(n, reach) && reach(s) && p in n.validators && p in s.engines
    requires s.engines[p] == e && e.step == StepPrecommit && e.round < MAX_INT32 - 1
    ensures reach(s') && s'.engines == s.engines[p := EmptyRound(e, p)] && s.sent <= s'.sent
    ensures Vote(Prevote, e.height, e.round + 1, "", p) in s'.sent
  {
    var s1 := GivesUpAgain(n, reach, s, p, e);
    var s2 := BeginsRound(n, reach, s1, p, e);
    s' := PrevotesEmpty(n, reach, s2, p, e);
  }

  /** The same engine after its prevote step timed out as well. */
  function EmptyPrecommit(e: State, p: string): State {
    e.(step := StepPrecommit, precommits := e.precommits[p := Vote(Precommit, e.height, e.round, "", p)])
  }

  lemma PrecommitsEmpty(n: Setup, reach: Net -> bool, s: Net, p: string, e: State) returns (s': Net)
    requires FourHonest(n) && Closed(n, reach) && reach(s) && p in n.validators && p in s.engines
    requires s.engines[p] == e && e.step == StepPrevote && e.round < MAX_INT32
    ensures reach(s') && Moved(s, s', p, EmptyPrecommit(e, p), {Vote(Precommit, e.height, e.round, "", p)})
  {
    Member(n, p);
    s' := ReachBy(n, reach, s, p, PrevoteTimeout,
                  Outcome(EmptyPrecommit(e, p), Some(Vote(Precommit, e.height, e.round, "", p)), None));
  }

  // ---------------------------------------------------------------- whole stretches

  function Begin(n: Setup): Net {
    Net(map p | p in n.validators :: Initial(1), {}, {})
  }

  lemma AllTimeOut(n: Setup, reach: Net -> bool, a: string, b: string, c: string, d: string) returns (s: Net)
    requires Four(n, a, b, c, d)
    requires Closed(n, reach) && reach(Begin(n))
    ensures reach(s) && {a, b, c, d} <= s.engines.Keys
    ensures s.engines[a] == Waiting(a) && s.engines[b] == Waiting(b) && s.engines[c] == Waiting(c)
      && s.engines[d] == Waiting(d)
    ensures V(Precommit, 0, "", b) in s.sent && V(Precommit, 0, "", c) in s.sent && V(Precommit, 0, "", d) in s.sent
  {
    var s1 := TimesOut(n, reach, Begin(n), a);
    var s2 := TimesOut(n, reach, s1, b);
    var s3 := TimesOut(n, reach, s2, c);
    s := TimesOut(n, reach, s3, d);
  }

  /** Engines outside the group are as they were. */
  ghost predicate Unmoved(s: Net, s': Net, group: set<string>) {
    forall p | p in s.engines && p !in group :: p in s'.engines && s'.engines[p] == s.engines[p]
  }

  lemma AllPrevote(n: Setup, reach: Net -> bool, s: Net, b: string, c: string, d: string) returns (s': Net)
    requires Three(n, b, c, d) && Closed(n, reach) && reach(s)
    requires {b, c, d} <= s.engines.Keys && s.engines[b] == Waiting(b) && s.engines[c] == Waiting(c)
      && s.engines[d] == Waiting(d)
    ensures reach(s') && s.decisions <= s'.decisions && {b, c, d} <= s'.engines.Keys
    ensures s'.engines[b] == Prevoting(n, b, b) && s'.engines[c] == Prevoting(n, b, c)
      && s'.engines[d] == Prevoting(n, b, d)
    ensures forall p | p in {b, c, d} :: V(Prevote, 1, Mine(n, b).hash, p) in s'.sent
    ensures Unmoved(s, s', {b, c, d})
  {
    var s1 := LeaderPrevotes(n, reach, s, b);
    var s2 := FollowerPrevotes(n, reach, s1, b, c);
    s' := FollowerPrevotes(n, reach, s2, b, d);
  }

  lemma AllLock(n: Setup, reach: Net -> bool, s: Net, b: string, c: string, d: string) returns (s': Net)
    requires Three(n, b, c, d) && Closed(n, reach) && reach(s)
    requires {b, c, d} <= s.engines.Keys
    requires s.engines[b] == Prevoting(n, b, b) && s.engines[c] == Prevoting(n, b, c)
      && s.engines[d] == Prevoting(n, b, d)
    requires forall p | p in {b, c, d} :: V(Prevote, 1, Mine(n, b).hash, p) in s.sent
    ensures reach(s') && s.decisions <= s'.decisions && {b, c, d} <= s'.engines.Keys
    ensures s'.engines[b] == Locked(n, b, b, c, d)
    ensures s'.engines[c] == Locked(n, b, c, b, d) && s'.engines[d] == Locked(n, b, d, b, c)
    ensures forall p | p in {b, c, d} :: V(Precommit, 1, Mine(n, b).hash, p) in s'.sent
    ensures Unmoved(s, s', {b, c, d})
  {
    var s1 := Locks(n, reach, s, b, b, c, d);
    var s2 := Locks(n, reach, s1, b, c, b, d);
    s' := Locks(n, reach, s2, b, d, b, c);
  }

  ghost function InSomeRun(n: Setup): Net -> bool {
    (s: Net) => Reached(Acting(n), Starting(n), s)
  }

  lemma RunsAreClosed(n: Setup)
    requires FourHonest(n)
    ensures Closed(n, InSomeRun(n)) && InSomeRun(n)(Begin(n))
  {
    assert Starting(n)(Begin(n));
    ReachedAtStart(Acting(n), Starting(n), Begin(n));
    ReachedIsClosed(Acting(n), Starting(n));
  }

  ghost function Starting(n: Setup): Net -> bool {
    (s: Net) => Start(n, s)
  }

  lemma RunTo(n: Setup, s: Net) returns (states: seq<Net>, actions: seq<Action>)
    requires InSomeRun(n)(s)
    ensures Run(n, states, actions) && states[|actions|] == s
  {
    states, actions :| Connected(Acting(n), states, actions) && Starting(n)(states[0]) && states[|actions|] == s;
  }
}
