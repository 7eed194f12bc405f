/**
 A whole run in which a lock is lost without any faulty member. Three of four honest engines lock and
 precommit a block. Everyone goes on to a round without a proposal and prevotes nil, as the rules have it
 even for a locked engine; on the way to one of them the nil prevotes are respelt as "NIL", and it locks
 on that.
 */
module LockRun {
  import opened Text
  import opened Votes
  import opened Engine
  import opened EngineSafety
  import opened Folds
  import opened Network
  import opened NilVotes
  import opened Decisions
  import opened RunSteps

  /** A nil prevote of round 2, as signed. */
  function Nil2(p: string): Vote {
    V(Prevote, 2, "", p)
  }

  function Respelt2(p: string): Vote {
    V(Prevote, 2, NIL, p)
  }

  lemma Respelt2IsAuthentic(n: Setup, s: Net, p: string)
    requires FourHonest(n) && p in n.validators && Nil2(p) in s.sent
    ensures Authentic(n, s, Respelt2(p))
  {
    Member(n, p);
    assert BuildVoteMessage(Nil2(p)) == BuildVoteMessage(Respelt2(p));
    assert SignedAs(s.sent, Respelt2(p));
  }

  // ---------------------------------------------------------------- tallies

  function Own(b: string): map<string, Vote> {
    map[b := Nil2(b)]
  }

  lemma OwnTally(b: string, h: string)
    ensures Tally(Own(b), h) == if h == "" then 1 else 0
  {
    assert Backers(Own(b), h) == if h == "" then {b} else {};
  }

  function OneMore(b: string, x: string): map<string, Vote> {
    Own(b)[x := Respelt2(x)]
  }

  function TwoMore(b: string, x: string, y: string): map<string, Vote> {
    OneMore(b, x)[y := Respelt2(y)]
  }

  lemma ThreeTallies(b: string, x: string, y: string, z: string, h: string)
    requires b != x && b != y && b != z && x != y && x != z && y != z
    ensures Tally(OneMore(b, x), h) == (if h == "" || h == NIL then 1 else 0)
    ensures Tally(TwoMore(b, x, y), h) == (if h == "" then 1 else if h == NIL then 2 else 0)
    ensures Tally(TwoMore(b, x, y)[z := Respelt2(z)], h) == (if h == "" then 1 else if h == NIL then 3 else 0)
  {
    OwnTally(b, h);
    TallyNext(Own(b), x, Respelt2(x), h);
    TallyNext(OneMore(b, x), y, Respelt2(y), h);
    TallyNext(TwoMore(b, x, y), z, Respelt2(z), h);
  }

  lemma FirstTwoBelow(b: string, x: string, y: string, z: string)
    requires b != x && b != y && b != z && x != y && x != z && y != z
    ensures BelowQuorum(OneMore(b, x)) && BelowQuorum(TwoMore(b, x, y))
  {
    forall h ensures Tally(OneMore(b, x), h) < 3 {
      ThreeTallies(b, x, y, z, h);
    }
    forall h ensures Tally(TwoMore(b, x, y), h) < 3 {
      ThreeTallies(b, x, y, z, h);
    }
  }

  lemma ThirdIsQuorum(b: string, x: string, y: string, z: string)
    requires b != x && b != y && b != z && x != y && x != z && y != z
    ensures QuorumHash(TwoMore(b, x, y)[z := Respelt2(z)], 3) == Some(NIL)
  {
    var votes := TwoMore(b, x, y)[z := Respelt2(z)];
    ThreeTallies(b, x, y, z, NIL);
    ThreeTallies(b, x, y, z, QuorumHash(votes, 3).value);
  }

  // ---------------------------------------------------------------- losing the lock

  /** The engine after the given respelt prevotes. */
  function After1(e: State, x: string): State {
    WithPrevote(e, Respelt2(x))
  }

  function After2(e: State, x: string, y: string): State {
    WithPrevote(After1(e, x), Respelt2(y))
  }

  /** In round 2 of height 1, holding nothing but the own nil prevote and records of earlier rounds. */
  ghost predicate Lonely(e: State, b: string) {
    && e.height == 1 && e.round == 2 && e.step == StepPrevote && e.prevotes == Own(b) && e.precommits == map[]
      && e.jailed == {}
    && forall k | k in e.lastVotes :: e.lastVotes[k].round < 2
  }

  lemma HearsOne(n: Setup, reach: Net -> bool, s: Net, e: State, b: string, x: string, y: string,
      z: string) returns (s': Net)
    requires Four(n, b, x, y, z) && Closed(n, reach) && reach(s)
    requires b in s.engines && s.engines[b] == e && Lonely(e, b) && Nil2(x) in s.sent
    ensures reach(s') && Moved(s, s', b, After1(e, x), {})
  {
    FirstTwoBelow(b, x, y, z);
    Respelt2IsAuthentic(n, s, x);
    s' := PrevoteCounted(n, reach, s, b, e, Respelt2(x));
  }

  lemma HearsTwo(n: Setup, reach: Net -> bool, s: Net, e: State, b: string, x: string, y: string,
      z: string) returns (s': Net)
    requires Four(n, b, x, y, z) && Closed(n, reach) && reach(s)
    requires b in s.engines && Lonely(e, b) && s.engines[b] == After1(e, x) && Nil2(y) in s.sent
    ensures reach(s') && Moved(s, s', b, After2(e, x, y), {})
  {
    FirstTwoBelow(b, x, y, z);
    Respelt2IsAuthentic(n, s, y);
    s' := PrevoteCounted(n, reach, s, b, After1(e, x), Respelt2(y));
  }

  lemma HearsThree(n: Setup, reach: Net -> bool, s: Net, e: State, b: string, x: string, y: string,
      z: string) returns (s': Net)
    requires Four(n, b, x, y, z) && Closed(n, reach) && reach(s)
    requires b in s.engines && Lonely(e, b) && s.engines[b] == After2(e, x, y) && Nil2(z) in s.sent
    ensures reach(s') && s.sent <= s'.sent
    ensures b in s'.engines && s'.engines[b].lockedHash == NIL && s'.engines[b].height == 1
  {
    var e2 := After2(e, x, y);
    ThirdIsQuorum(b, x, y, z);
    Respelt2IsAuthentic(n, s, z);
    PrevoteLocks(n, b, e2, Respelt2(z), NIL);
    s' := ReachBy(n, reach, s, b, DeliverVote(Respelt2(z), true, false),
      Step(ConfigOf(n, b), e2, DeliverVote(Respelt2(z), true, false)));
  }

  lemma LosesLock(n: Setup, reach: Net -> bool, s: Net, e: State, b: string, x: string, y: string,
      z: string) returns (s': Net)
    requires Four(n, b, x, y, z) && Closed(n, reach) && reach(s) && b in s.engines && s.engines[b] == e && Lonely(e, b)
    requires Nil2(x) in s.sent && Nil2(y) in s.sent && Nil2(z) in s.sent
    ensures reach(s') && s.sent <= s'.sent
    ensures b in s'.engines && s'.engines[b].lockedHash == NIL && s'.engines[b].height == 1
  {
    var s1 := HearsOne(n, reach, s, e, b, x, y, z);
    var s2 := HearsTwo(n, reach, s1, e, b, x, y, z);
    s' := HearsThree(n, reach, s2, e, b, x, y, z);
  }

  // ---------------------------------------------------------------- getting there

  lemma LockedWaits(n: Setup, b: string, x: string, y: string, z: string)
    ensures var e := Locked(n, b, x, y, z);
            && e.step == StepPrecommit && e.round == 1 && e.height == 1 && e.jailed == {}
            && forall k | k in e.lastVotes :: e.lastVotes[k].round < 2
  {
  }

  lemma LockedGoesOn(n: Setup, reach: Net -> bool, s: Net, b: string, x: string, y: string, z: string) returns (s': Net)
    requires FourHonest(n) && Closed(n, reach) && reach(s) && x in n.validators && x in s.engines
    requires s.engines[x] == Locked(n, b, x, y, z)
    ensures reach(s') && s.sent <= s'.sent && Nil2(x) in s'.sent
    ensures s'.engines == s.engines[x := EmptyRound(Locked(n, b, x, y, z), x)] && Lonely(s'.engines[x], x)
  {
    LockedWaits(n, b, x, y, z);
    s' := NextEmptyRound(n, reach, s, x, Locked(n, b, x, y, z));
  }

  /** The one that never heard of the block goes through two empty rounds. */
  lemma OtherGoesOn(n: Setup, reach: Net -> bool, s: Net, a: string) returns (s': Net, e: State)
    requires FourHonest(n) && Closed(n, reach) && reach(s) && a in n.validators && a in s.engines
      && s.engines[a] == Waiting(a)
    ensures reach(s') && s.sent <= s'.sent && Nil2(a) in s'.sent && s'.engines == s.engines[a := e]
  {
    var e1 := EmptyRound(Waiting(a), a);
    var s1 := NextEmptyRound(n, reach, s, a, Waiting(a));
    var s2 := PrecommitsEmpty(n, reach, s1, a, e1);
    s' := NextEmptyRound(n, reach, s2, a, EmptyPrecommit(e1, a));
    e := s'.engines[a];
  }

  lemma BlockIsLocked(n: Setup, reach: Net -> bool, a: string, b: string, c: string, d: string) returns (s: Net)
    requires Four(n, a, b, c, d) && Closed(n, reach) && reach(Begin(n))
    ensures reach(s) && {a, b, c, d} <= s.engines.Keys && s.engines[a] == Waiting(a)
    ensures s.engines[b] == Locked(n, b, b, c, d)
    ensures s.engines[c] == Locked(n, b, c, b, d) && s.engines[d] == Locked(n, b, d, b, c)
    ensures forall p | p in {b, c, d} :: V(Precommit, 1, Mine(n, b).hash, p) in s.sent
  {
    var s1 := AllTimeOut(n, reach, a, b, c, d);
    var s2 := AllPrevote(n, reach, s1, b, c, d);
    s := AllLock(n, reach, s2, b, c, d);
  }

  lemma AllGoOn(n: Setup, reach: Net -> bool, s: Net, a: string, b: string, c: string, d: string) returns (s': Net)
    requires Four(n, a, b, c, d) && Closed(n, reach) && reach(s) && {a, b, c, d} <= s.engines.Keys
      && s.engines[a] == Waiting(a)
    requires s.engines[b] == Locked(n, b, b, c, d)
    requires s.engines[c] == Locked(n, b, c, b, d) && s.engines[d] == Locked(n, b, d, b, c)
    ensures reach(s') && s.sent <= s'.sent && b in s'.engines && Lonely(s'.engines[b], b)
    ensures Nil2(a) in s'.sent && Nil2(c) in s'.sent && Nil2(d) in s'.sent
  {
    var s1 := LockedGoesOn(n, reach, s, b, b, c, d);
    var s2 := LockedGoesOn(n, reach, s1, b, c, b, d);
    var s3 := LockedGoesOn(n, reach, s2, b, d, b, c);
    var e;
    s', e := OtherGoesOn(n, reach, s3, a);
  }

  lemma ThreeArePlenty(n: Setup, sent: set<Vote>, b: string, c: string, d: string, h: string)
    requires Three(n, b, c, d) && forall p | p in {b, c, d} :: V(Precommit, 1, h, p) in sent
    ensures HasQuorum(n, sent, Precommit, 1, 1, h)
  {
    var support := Support(n, sent, Precommit, 1, 1, h);
    forall p | p in {b, c, d} ensures p in support {
      assert V(Precommit, 1, h, p) in sent;
    }
    SubsetCard({b, c, d}, support);
  }

  /** LOCKS NEED BLOCKS. For any four validators, all of them honest, there is a run after which a quorum has
      precommitted a block in round 1, the signer b of one of these precommits is still at that height, and
      it is locked on NIL. */
  lemma LockMovesToNil(n: Setup, a: string, b: string, c: string, d: string) returns (states: seq<Net>,
      actions: seq<Action>)
    requires Four(n, a, b, c, d)
    ensures Faulty(n) == {} && Run(n, states, actions) && IsBlock(Mine(n, b).hash)
    ensures var s, h := states[|actions|], Mine(n, b).hash;
            && HasQuorum(n, s.sent, Precommit, 1, 1, h) && V(Precommit, 1, h, b) in s.sent
            && b in s.engines && s.engines[b].height == 1 && s.engines[b].lockedHash == NIL
  {
    RunsAreClosed(n);
    var s := LockIsLost(n, InSomeRun(n), a, b, c, d);
    states, actions := RunTo(n, s);
  }

  lemma LockIsLost(n: Setup, reach: Net -> bool, a: string, b: string, c: string, d: string) returns (s: Net)
    requires Four(n, a, b, c, d) && Closed(n, reach) && reach(Begin(n))
    ensures var h := Mine(n, b).hash;
            && reach(s) && HasQuorum(n, s.sent, Precommit, 1, 1, h) && V(Precommit, 1, h, b) in s.sent
            && b in s.engines && s.engines[b].height == 1 && s.engines[b].lockedHash == NIL
  {
    var s1 := BlockIsLocked(n, reach, a, b, c, d);
    var s2 := AllGoOn(n, reach, s1, a, b, c, d);
    s := LosesLock(n, reach, s2, s2.engines[b], b, a, c, d);
    ThreeArePlenty(n, s.sent, b, c, d, Mine(n, b).hash);
  }
}
