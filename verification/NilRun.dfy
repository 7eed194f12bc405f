/**
 A whole run that goes wrong without any faulty member. Four honest engines time out to nil; on the way to
 the first of them, three nil precommits are respelt as "NIL", and it decides NIL. The other three go on
 to the next round of the same height and decide a block.
 */
module NilRun {
  import opened Text
  import opened Votes
  import opened BlockHash
  import opened Engine
  import opened EngineSafety
  import opened Folds
  import opened Network
  import opened NilVotes
  import opened Decisions
  import opened Jailing
  import opened RunSteps

  // ---------------------------------------------------------------- deciding NIL

  /** The nil precommit of p, respelt on the way. */
  function Respelt(p: string): Vote {
    V(Precommit, 0, NIL, p)
  }

  lemma RespeltIsAuthentic(n: Setup, s: Net, p: string)
    requires FourHonest(n) && p in n.validators && V(Precommit, 0, "", p) in s.sent
    ensures Authentic(n, s, Respelt(p))
  {
    Member(n, p);
    var u := V(Precommit, 0, "", p);
    assert BuildVoteMessage(u) == BuildVoteMessage(Respelt(p));
    assert SignedAs(s.sent, Respelt(p));
  }

  function OneRespelt(a: string, b: string): map<string, Vote> {
    map[a := V(Precommit, 0, "", a)][b := Respelt(b)]
  }

  /** The own nil precommit and two respelt ones. */
  function TwoRespelt(a: string, b: string, c: string): map<string, Vote> {
    OneRespelt(a, b)[c := Respelt(c)]
  }

  lemma OneRespeltTally(a: string, b: string, h: string)
    requires a != b
    ensures Tally(OneRespelt(a, b), h) == (if h == "" || h == NIL then 1 else 0)
  {
    var own := map[a := V(Precommit, 0, "", a)];
    assert Backers(own, h) == if h == "" then {a} else {};
    TallyNext(own, b, Respelt(b), h);
  }

  /** No quorum yet. */
  lemma TwoRespeltTally(a: string, b: string, c: string, h: string)
    requires a != b && a != c && b != c
    ensures Tally(OneRespelt(a, b), h) < 3 && Tally(TwoRespelt(a, b, c), h) < 3
    ensures Tally(TwoRespelt(a, b, c), NIL) == 2
  {
    OneRespeltTally(a, b, h);
    OneRespeltTally(a, b, NIL);
    TallyNext(OneRespelt(a, b), c, Respelt(c), h);
    TallyNext(OneRespelt(a, b), c, Respelt(c), NIL);
  }

  lemma RespeltBelow(a: string, b: string, c: string)
    requires a != b && a != c && b != c
    ensures BelowQuorum(OneRespelt(a, b)) && BelowQuorum(TwoRespelt(a, b, c))
  {
    forall h ensures Tally(OneRespelt(a, b), h) < 3 {
      TwoRespeltTally(a, b, c, h);
    }
    forall h ensures Tally(TwoRespelt(a, b, c), h) < 3 {
      TwoRespeltTally(a, b, c, h);
    }
  }

  function Tricked(a: string, b: string, c: string): State {
    WithPrecommit(WithPrecommit(Waiting(a), Respelt(b)), Respelt(c))
  }

  lemma TrickedOnce(n: Setup, reach: Net -> bool, s: Net, a: string, b: string, c: string) returns (s': Net)
    requires Three(n, a, b, c) && Closed(n, reach) && reach(s)
    requires a in s.engines && s.engines[a] == Waiting(a) && V(Precommit, 0, "", b) in s.sent
    ensures reach(s') && Moved(s, s', a, WithPrecommit(Waiting(a), Respelt(b)), {})
  {
    RespeltBelow(a, b, c);
    RespeltIsAuthentic(n, s, b);
    s' := PrecommitCounted(n, reach, s, a, Waiting(a), Respelt(b));
  }

  lemma TrickedTwice(n: Setup, reach: Net -> bool, s: Net, a: string, b: string, c: string) returns (s': Net)
    requires Three(n, a, b, c) && Closed(n, reach) && reach(s)
    requires a in s.engines && s.engines[a] == WithPrecommit(Waiting(a), Respelt(b)) && V(Precommit, 0, "", c) in s.sent
    ensures reach(s') && Moved(s, s', a, Tricked(a, b, c), {})
  {
    RespeltBelow(a, b, c);
    RespeltIsAuthentic(n, s, c);
    s' := PrecommitCounted(n, reach, s, a, WithPrecommit(Waiting(a), Respelt(b)), Respelt(c));
  }

  lemma TrickedCompletes(n: Setup, a: string, b: string, c: string, d: string)
    requires Four(n, a, b, c, d)
    ensures Completes(ConfigOf(n, a), Tricked(a, b, c), DeliverVote(Respelt(d), true, false), Precommit, NIL)
  {
    TwoRespeltTally(a, b, c, NIL);
    Member(n, a);
    Member(n, d);
    KnownToAll(n, a, d);
    assert Tricked(a, b, c).precommits == TwoRespelt(a, b, c);
  }

  lemma TrickedThrice(n: Setup, reach: Net -> bool, s: Net, a: string, b: string, c: string,
      d: string) returns (s': Net, e: State)
    requires Four(n, a, b, c, d) && Closed(n, reach) && reach(s)
    requires a in s.engines && s.engines[a] == Tricked(a, b, c) && V(Precommit, 0, "", d) in s.sent
    ensures reach(s') && Decided(s', a, NIL)
    ensures s'.engines == s.engines[a := e] && s.sent <= s'.sent
  {
    var ev := DeliverVote(Respelt(d), true, false);
    var o := Step(ConfigOf(n, a), Tricked(a, b, c), ev);
    RespeltIsAuthentic(n, s, d);
    LastRespelt(n, a, b, c, d);
    s' := ReachBy(n, reach, s, a, ev, o);
    e := o.state;
    assert Decision(a, 1, o.decided.value.round, NIL) in s'.decisions;
  }

  lemma LastRespelt(n: Setup, a: string, b: string, c: string, d: string)
    requires Four(n, a, b, c, d)
    ensures var o := Step(ConfigOf(n, a), Tricked(a, b, c), DeliverVote(Respelt(d), true, false));
            o.decided.Some? && o.decided.value.hash == NIL && o.decided.value.height == 1
  {
    TrickedOk(n, a, b, c);
    TrickedCompletes(n, a, b, c, d);
    NilDecisionHeight(ConfigOf(n, a), Tricked(a, b, c), DeliverVote(Respelt(d), true, false));
  }

  lemma TrickedOk(n: Setup, a: string, b: string, c: string)
    requires FourHonest(n) && {a, b, c} <= n.validators
    ensures ValidConfig(ConfigOf(n, a)) && EngineOk(ConfigOf(n, a), Tricked(a, b, c)) && Tricked(a, b, c).height == 1
  {
    Member(n, a);
    Member(n, b);
    Member(n, c);
  }

  lemma NilDecisionHeight(c: Config, e: State, ev: Event)
    requires ValidConfig(c) && EngineOk(c, e) && Completes(c, e, ev, Precommit, NIL)
    ensures var o := Step(c, e, ev);
            o.decided.Some? && o.decided.value.hash == NIL && o.decided.value.height == e.height
  {
    StepDecidesIff(c, e, ev, NIL);
    StepCounts(c, e, ev);
  }

  ghost predicate Decided(s: Net, p: string, hash: string) {
    exists x :: x in s.decisions && x.who == p && x.height == 1 && x.hash == hash
  }

  lemma DecidedStays(s: Net, s': Net, p: string, hash: string)
    requires s.decisions <= s'.decisions && Decided(s, p, hash)
    ensures Decided(s', p, hash)
  {
  }

  lemma NilIsDecided(n: Setup, reach: Net -> bool, s: Net, a: string, b: string, c: string,
      d: string) returns (s': Net, e: State)
    requires Four(n, a, b, c, d) && Closed(n, reach) && reach(s)
    requires a in s.engines && s.engines[a] == Waiting(a)
    requires V(Precommit, 0, "", b) in s.sent && V(Precommit, 0, "", c) in s.sent && V(Precommit, 0, "", d) in s.sent
    ensures reach(s') && s'.engines == s.engines[a := e] && Decided(s', a, NIL)
  {
    var s1 := TrickedOnce(n, reach, s, a, b, c);
    var s2 := TrickedTwice(n, reach, s1, a, b, c);
    s', e := TrickedThrice(n, reach, s2, a, b, c, d);
  }

  /** A precommit that completes a quorum for a block decides it. */
  lemma PrecommitDecides(n: Setup, p: string, e: State, v: Vote, h: string)
    requires FourHonest(n) && p in n.validators && e.step == StepPrecommit && v.vtype == Precommit && Fresh(n, e, v)
    requires h != "" && QuorumHash(e.precommits[v.voter := v], 3) == Some(h)
    ensures var o := Step(ConfigOf(n, p), e, DeliverVote(v, true, false));
            o.decided.Some? && o.decided.value.hash == h && o.decided.value.height == e.height
  {
    Member(n, p);
    Receives(n, p, e, v);
  }

  function OneCounted(n: Setup, b: string, c: string, d: string): State {
    WithPrecommit(Locked(n, b, b, c, d), V(Precommit, 1, Mine(n, b).hash, c))
  }

  lemma LockedFacts(n: Setup, b: string, c: string, d: string)
    requires Three(n, b, c, d)
    ensures var h, e := Mine(n, b).hash, Locked(n, b, b, c, d);
            && e.step == StepPrecommit && e.round == 1 && Fresh(n, e, V(Precommit, 1, h, c))
            && e.precommits == map[b := V(Precommit, 1, h, b)] && e.height == 1
            && (d, Precommit) !in e.lastVotes && e.jailed == {}
  {
  }

  lemma OneCountedFacts(n: Setup, b: string, c: string, d: string)
    requires Three(n, b, c, d)
    ensures var h, e := Mine(n, b).hash, OneCounted(n, b, c, d);
            && h != "" && e.step == StepPrecommit && e.height == 1 && Fresh(n, e, V(Precommit, 1, h, d))
            && QuorumHash(e.precommits[d := V(Precommit, 1, h, d)], 3) == Some(h)
  {
    var h, e := Mine(n, b).hash, OneCounted(n, b, c, d);
    LockedFacts(n, b, c, d);
    UnanimousThree(e.precommits[d := V(Precommit, 1, h, d)], b, c, d, h);
  }

  lemma CountsFirst(n: Setup, reach: Net -> bool, s: Net, b: string, c: string, d: string) returns (s': Net)
    requires Three(n, b, c, d) && Closed(n, reach) && reach(s)
    requires b in s.engines && s.engines[b] == Locked(n, b, b, c, d) && V(Precommit, 1, Mine(n, b).hash, c) in s.sent
    ensures reach(s') && Moved(s, s', b, OneCounted(n, b, c, d), {})
  {
    var e, v := Locked(n, b, b, c, d), V(Precommit, 1, Mine(n, b).hash, c);
    Member(n, c);
    LockedFacts(n, b, c, d);
    SentIsAuthentic(n, s, v);
    TwoVotesBelow(e.precommits[c := v]);
    s' := PrecommitCounted(n, reach, s, b, e, v);
  }

  lemma BlockStep(n: Setup, b: string, c: string, d: string)
    requires Three(n, b, c, d)
    ensures var o := Step(ConfigOf(n, b), OneCounted(n, b, c, d),
      DeliverVote(V(Precommit, 1, Mine(n, b).hash, d), true, false));
            o.decided.Some? && o.decided.value.hash == Mine(n, b).hash && o.decided.value.height == 1
  {
    OneCountedFacts(n, b, c, d);
    PrecommitDecides(n, b, OneCounted(n, b, c, d), V(Precommit, 1, Mine(n, b).hash, d), Mine(n, b).hash);
  }

  lemma CountsSecond(n: Setup, reach: Net -> bool, s: Net, b: string, c: string, d: string) returns (s': Net)
    requires Three(n, b, c, d) && Closed(n, reach) && reach(s)
    requires b in s.engines && s.engines[b] == OneCounted(n, b, c, d)
    requires V(Precommit, 1, Mine(n, b).hash, d) in s.sent
    ensures reach(s') && s.decisions <= s'.decisions && Decided(s', b, Mine(n, b).hash)
  {
    var h := Mine(n, b).hash;
    var ev := DeliverVote(V(Precommit, 1, h, d), true, false);
    Member(n, d);
    BlockStep(n, b, c, d);
    SentIsAuthentic(n, s, V(Precommit, 1, h, d));
    var o := Step(ConfigOf(n, b), s.engines[b], ev);
    s' := ReachBy(n, reach, s, b, ev, o);
    assert Decision(b, 1, o.decided.value.round, h) in s'.decisions;
  }

  /** From three waiting engines to a decided block. */
  lemma BlockFollows(n: Setup, reach: Net -> bool, s: Net, b: string, c: string, d: string) returns (s': Net)
    requires Three(n, b, c, d) && Closed(n, reach) && reach(s)
    requires {b, c, d} <= s.engines.Keys && s.engines[b] == Waiting(b) && s.engines[c] == Waiting(c)
      && s.engines[d] == Waiting(d)
    ensures reach(s') && s.decisions <= s'.decisions && Decided(s', b, Mine(n, b).hash)
  {
    var s1 := AllPrevote(n, reach, s, b, c, d);
    var s2 := AllLock(n, reach, s1, b, c, d);
    var s3 := CountsFirst(n, reach, s2, b, c, d);
    s' := CountsSecond(n, reach, s3, b, c, d);
  }

  /** AGREEMENT NEEDS BLOCKS. For any four validators, all of them honest, there is a run in which one
      decides NIL and another decides a block, at one height. */
  lemma NilBreaksAgreement(n: Setup, a: string, b: string, c: string, d: string) returns (states: seq<Net>,
      actions: seq<Action>)
    requires Four(n, a, b, c, d)
    ensures Faulty(n) == {} && Run(n, states, actions) && IsBlock(Mine(n, b).hash)
    ensures Decided(states[|actions|], a, NIL) && Decided(states[|actions|], b, Mine(n, b).hash)
  {
    RunsAreClosed(n);
    var s := BothDecided(n, InSomeRun(n), a, b, c, d);
    states, actions := RunTo(n, s);
  }

  lemma BothDecided(n: Setup, reach: Net -> bool, a: string, b: string, c: string, d: string) returns (s: Net)
    requires Four(n, a, b, c, d)
    requires Closed(n, reach) && reach(Begin(n))
    ensures reach(s) && Decided(s, a, NIL) && Decided(s, b, Mine(n, b).hash)
  {
    var s1 := AllTimeOut(n, reach, a, b, c, d);
    var s2, e := NilIsDecided(n, reach, s1, a, b, c, d);
    s := BlockFollows(n, reach, s2, b, c, d);
    DecidedStays(s2, s, a, NIL);
  }

  // ---------------------------------------------------------------- jailing an honest engine

  /** The nil precommit of b, in either spelling. */
  predicate IsNilOf(v: Vote, b: string) {
    v == V(Precommit, 0, "", b) || v == Respelt(b)
  }

  lemma NilIsAuthentic(n: Setup, s: Net, b: string, v: Vote)
    requires FourHonest(n) && b in n.validators && V(Precommit, 0, "", b) in s.sent && IsNilOf(v, b)
    ensures Authentic(n, s, v)
  {
    Member(n, b);
    if v == Respelt(b) {
      RespeltIsAuthentic(n, s, b);
    } else {
      SentIsAuthentic(n, s, v);
    }
  }

  lemma SecondSpellingJails(n: Setup, a: string, b: string, first: Vote, second: Vote)
    requires FourHonest(n) && {a, b} <= n.validators && IsNilOf(first, b) && IsNilOf(second, b) && first != second
    ensures b in HandleVote(ConfigOf(n, a), WithPrecommit(Waiting(a), first), second, true, false).state.jailed
  {
    var c, e := ConfigOf(n, a), WithPrecommit(Waiting(a), first);
    Member(n, b);
    KnownToAll(n, a, b);
    JailedByReceive(c, e, second);
    PrecommitsKeepRecords(c, ReceiveVote(c, e, second, true).0, false);
  }

  lemma OneSpellingHeard(n: Setup, reach: Net -> bool, a: string, b: string, c: string, d: string,
      first: Vote) returns (s: Net)
    requires Four(n, a, b, c, d)
    requires Closed(n, reach) && reach(Begin(n)) && IsNilOf(first, b)
    ensures reach(s) && a in s.engines && s.engines[a] == WithPrecommit(Waiting(a), first)
      && V(Precommit, 0, "", b) in s.sent
  {
    var s1 := AllTimeOut(n, reach, a, b, c, d);
    NilIsAuthentic(n, s1, b, first);
    TwoVotesBelow(Waiting(a).precommits[b := first]);
    s := PrecommitCounted(n, reach, s1, a, Waiting(a), first);
  }

  /** AN HONEST VOTER IS JAILED IN EITHER ORDER. For any four validators, all honest, and whichever spelling
      of b's nil precommit reaches a first, there is a run after which the other one, the genuine vote
      included, gets b jailed by a. */
  lemma EitherOrderJails(n: Setup, a: string, b: string, c: string, d: string, first: Vote, second: Vote)
    returns (states: seq<Net>, actions: seq<Action>)
    requires Four(n, a, b, c, d)
    requires IsNilOf(first, b) && IsNilOf(second, b) && first != second
    ensures Run(n, states, actions)
    ensures var s := states[|actions|];
            && a in s.engines && b !in s.engines[a].jailed && Authentic(n, s, second)
            && b in HandleVote(ConfigOf(n, a), s.engines[a], second, true, false).state.jailed
  {
    RunsAreClosed(n);
    var s := OneSpellingHeard(n, InSomeRun(n), a, b, c, d, first);
    states, actions := RunTo(n, s);
    NilIsAuthentic(n, s, b, second);
    SecondSpellingJails(n, a, b, first, second);
  }

  /** Such networks exist: the validators a, b, c and d. */
  lemma FourHonestExist(sha: Sha)
    ensures var all := {"a", "b", "c", "d"}; FourHonest(Setup(all, all, all, sha))
  {
    var all := {"a", "b", "c", "d"};
    assert |all| == 4;
    assert all - all == {};
    assert Lower("a") == "a" && Lower("b") == "b" && Lower("c") == "c" && Lower("d") == "d";
  }
}
