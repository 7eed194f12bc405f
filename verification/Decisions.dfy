/**
 What makes an engine decide and lock, exactly: in every run a decision or a lock on a hash goes back to a
 section that counted a quorum of votes for it. For the literal "NIL", which the quorum arguments of
 `Network` leave out, this says when it is decided, when it takes a lock away, and when engines disagree.
 */
module Decisions {
  import opened Text
  import opened Votes
  import opened Engine
  import opened EngineSafety
  import opened Folds
  import opened Network
  import opened NilVotes

  // ---------------------------------------------------------------- completing a quorum

  function Tallied(e: State, t: VoteType): map<string, Vote> {
    if t == Prevote then e.prevotes else e.precommits
  }

  function VotingStep(t: VoteType): RoundStep {
    if t == Prevote then StepPrevote else StepPrecommit
  }

  /** The vote will be counted in the current round. */
  predicate Counts(c: Config, e: State, v: Vote, sigOk: bool) {
    && sigOk && Norm(v.voter) !in e.jailed && Known(c, v.voter)
    && v.height == e.height && v.round == e.round
    && Lower(v.voter) !in Tallied(e, v.vtype)
  }

  /** Before the event: it makes the engine find a quorum of counted votes for the hash. */
  ghost predicate Completes(c: Config, e: State, ev: Event, t: VoteType, hash: string) {
    && e.step == VotingStep(t)
    && match ev
       case PollPrevotes => t == Prevote && Tally(e.prevotes, hash) >= Quorum(c)
       case PollPrecommits(_) => t == Precommit && Tally(e.precommits, hash) >= Quorum(c)
       case DeliverVote(v, sigOk, _) =>
         && v.vtype == t && Counts(c, e, v, sigOk)
         && Tally(Tallied(e, t), hash) + (if v.hash == hash then 1 else 0) >= Quorum(c)
       case _ => false
  }

  lemma TallyNext(votes: map<string, Vote>, k: string, v: Vote, hash: string)
    requires k !in votes
    ensures Tally(votes[k := v], hash) == Tally(votes, hash) + (if v.hash == hash then 1 else 0)
  {
    if v.hash == hash {
      assert Backers(votes[k := v], hash) == Backers(votes, hash) + {k};
    } else {
      assert Backers(votes[k := v], hash) == Backers(votes, hash);
    }
  }

  /** A delivered vote of the current step reaches the tally exactly when it counts. */
  lemma CountedVote(c: Config, e: State, v: Vote, sigOk: bool)
    requires e.step == VotingStep(v.vtype)
    ensures var (e1, recorded) := ReceiveVote(c, e, v, sigOk);
            && (recorded && e1.step == VotingStep(v.vtype) <==> Counts(c, e, v, sigOk))
            && (Counts(c, e, v, sigOk) ==> Tallied(e1, v.vtype) == Tallied(e, v.vtype)[Lower(v.voter) := v])
  {
  }

  lemma StepBeforeReceive(c: Config, e: State, v: Vote, sigOk: bool)
    ensures ReceiveVote(c, e, v, sigOk).0.step == VotingStep(v.vtype) ==> e.step == VotingStep(v.vtype)
  {
  }

  /** What is in the tally after receiving a vote, told from before. */
  lemma ReceivedTally(c: Config, e: State, v: Vote, sigOk: bool, sealOk: bool, hash: string)
    ensures var (e1, recorded) := ReceiveVote(c, e, v, sigOk);
            recorded && e1.step == VotingStep(v.vtype) && Tally(Tallied(e1, v.vtype), hash) >= Quorum(c)
            <==> Completes(c, e, DeliverVote(v, sigOk, sealOk), v.vtype, hash)
  {
    StepBeforeReceive(c, e, v, sigOk);
    if e.step == VotingStep(v.vtype) {
      CountedVote(c, e, v, sigOk);
      if Counts(c, e, v, sigOk) {
        TallyNext(Tallied(e, v.vtype), Lower(v.voter), v, hash);
      }
    }
  }

  lemma ReceivedOk(c: Config, e: State, v: Vote, sigOk: bool)
    requires ValidConfig(c) && EngineOk(c, e)
    ensures EngineOk(c, ReceiveVote(c, e, v, sigOk).0)
  {
    KnownMeansRegistered(c, v.voter);
    ReceiveKeepsOk(c, e, v, sigOk);
  }

  // ---------------------------------------------------------------- deciding

  predicate Decides(o: Outcome, hash: string) {
    o.decided.Some? && o.decided.value.hash == hash
  }

  lemma FinalizeDecidesIff(c: Config, e: State, sealOk: bool, hash: string)
    requires ValidConfig(c) && EngineOk(c, e) && hash != ""
    ensures Decides(FinalizePrecommits(c, e, sealOk), hash)
       <==> e.step == StepPrecommit && Tally(e.precommits, hash) >= Quorum(c)
  {
    if Tally(e.precommits, hash) >= Quorum(c) {
      QuorumHashUnique(c, e.precommits, Precommit, e.height, e.round, hash);
    }
  }

  /** Only a recorded precommit can decide. */
  lemma HandledVote(c: Config, e: State, v: Vote, sigOk: bool, sealOk: bool, hash: string)
    ensures var (e1, recorded) := ReceiveVote(c, e, v, sigOk);
            Decides(HandleVote(c, e, v, sigOk, sealOk), hash) <==>
              recorded && v.vtype == Precommit && Decides(FinalizePrecommits(c, e1, sealOk), hash)
  {
  }

  lemma VoteDecidesIff(c: Config, e: State, v: Vote, sigOk: bool, sealOk: bool, hash: string)
    requires ValidConfig(c) && EngineOk(c, e) && hash != ""
    ensures Decides(HandleVote(c, e, v, sigOk, sealOk), hash)
       <==> Completes(c, e, DeliverVote(v, sigOk, sealOk), Precommit, hash)
  {
    ReceivedOk(c, e, v, sigOk);
    FinalizeDecidesIff(c, ReceiveVote(c, e, v, sigOk).0, sealOk, hash);
    HandledVote(c, e, v, sigOk, sealOk, hash);
    ReceivedTally(c, e, v, sigOk, sealOk, hash);
  }

  /** A section decides a hash if and only if it completes a quorum of precommits for it. */
  lemma StepDecidesIff(c: Config, e: State, ev: Event, hash: string)
    requires ValidConfig(c) && EngineOk(c, e) && hash != ""
    ensures Decides(Step(c, e, ev), hash) <==> Completes(c, e, ev, Precommit, hash)
  {
    match ev
    case DeliverVote(v, sigOk, sealOk) => VoteDecidesIff(c, e, v, sigOk, sealOk, hash);
    case PollPrecommits(sealOk) => FinalizeDecidesIff(c, e, sealOk, hash);
    case _ =>
  }

  // ---------------------------------------------------------------- locking

  lemma CompletesOnce(c: Config, e: State, ev: Event, g: string, h: string)
    requires ValidConfig(c) && EngineOk(c, e) && Completes(c, e, ev, Prevote, g) && Completes(c, e, ev, Prevote, h)
    ensures g == h
  {
    if ev.DeliverVote? {
      var e1 := ReceiveVote(c, e, ev.v, ev.sigOk).0;
      ReceivedOk(c, e, ev.v, ev.sigOk);
      ReceivedTally(c, e, ev.v, ev.sigOk, ev.sealOk, g);
      ReceivedTally(c, e, ev.v, ev.sigOk, ev.sealOk, h);
      TallyBound(c, e1.prevotes, Prevote, e1.height, e1.round);
      AtMostOneQuorum(e1.prevotes, Quorum(c), g, h);
    } else {
      TallyBound(c, e.prevotes, Prevote, e.height, e.round);
      AtMostOneQuorum(e.prevotes, Quorum(c), g, h);
    }
  }

  lemma FinalizeLocks(c: Config, e: State, hash: string)
    requires ValidConfig(c) && EngineOk(c, e) && hash != ""
    requires e.step == StepPrevote && Tally(e.prevotes, hash) >= Quorum(c)
    ensures var e' := FinalizePrevotes(c, e).state; e'.lockedHash == hash && e'.height == e.height
  {
    QuorumHashUnique(c, e.prevotes, Prevote, e.height, e.round, hash);
  }

  /** A section that completes a prevote quorum for something locks on it. */
  lemma CompletingLocks(c: Config, e: State, ev: Event, hash: string)
    requires ValidConfig(c) && EngineOk(c, e) && hash != "" && Completes(c, e, ev, Prevote, hash)
    ensures var e' := Step(c, e, ev).state; e'.lockedHash == hash && e'.height == e.height
  {
    if ev.DeliverVote? {
      ReceivedOk(c, e, ev.v, ev.sigOk);
      ReceivedTally(c, e, ev.v, ev.sigOk, ev.sealOk, hash);
      ReceiveProgress(c, e, ev.v, ev.sigOk);
      FinalizeLocks(c, ReceiveVote(c, e, ev.v, ev.sigOk).0, hash);
    } else {
      FinalizeLocks(c, e, hash);
    }
  }

  /** The section completes a prevote quorum for something other than nil. */
  ghost predicate LocksAnew(c: Config, e: State, ev: Event) {
    exists h :: h != "" && Completes(c, e, ev, Prevote, h)
  }

  lemma NoQuorumNoLock(c: Config, e: State)
    requires !(e.step == StepPrevote && exists h :: h != "" && Tally(e.prevotes, h) >= Quorum(c))
    ensures FinalizePrevotes(c, e).state.lockedHash == e.lockedHash && FinalizePrevotes(c, e).state.height == e.height
  {
  }

  predicate SameLock(e: State, e': State) {
    (e'.height == e.height && e'.lockedHash == e.lockedHash) || (e'.height > e.height && e'.lockedHash == "")
  }

  lemma PrecommitsKeepLock(c: Config, e: State, sealOk: bool)
    ensures SameLock(e, FinalizePrecommits(c, e, sealOk).state)
  {
  }

  /** Any other section keeps the lock, or drops it with the height. */
  lemma OthersKeepLock(c: Config, e: State, ev: Event)
    requires !LocksAnew(c, e, ev)
    ensures SameLock(e, Step(c, e, ev).state)
  {
    match ev
    case DeliverVote(v, sigOk, sealOk) => VoteKeepsLock(c, e, v, sigOk, sealOk);
    case PollPrevotes => PollKeepsLock(c, e);
    case PollPrecommits(sealOk) => PrecommitsKeepLock(c, e, sealOk);
    case DeliverProposal(p, sigOk, leader, tip) => ProposalKeepsLock(c, e, p, sigOk, leader, tip);
    case _ => TimerKeepsLock(c, e, ev);
  }

  lemma ProposalKeepsLock(c: Config, e: State, p: Proposal, sigOk: bool, leader: string, tip: Option<Tip>)
    ensures SameLock(e, HandleProposal(c, e, p, sigOk, leader, tip).state)
  {
  }

  lemma TimerKeepsLock(c: Config, e: State, ev: Event)
    requires IsTimer(ev)
    ensures SameLock(e, Step(c, e, ev).state)
  {
  }

  lemma PollKeepsLock(c: Config, e: State)
    requires !LocksAnew(c, e, PollPrevotes)
    ensures SameLock(e, FinalizePrevotes(c, e).state)
  {
    forall h | h != "" ensures !(e.step == StepPrevote && Tally(e.prevotes, h) >= Quorum(c)) {
      assert !Completes(c, e, PollPrevotes, Prevote, h);
    }
    NoQuorumNoLock(c, e);
  }

  lemma VoteKeepsLock(c: Config, e: State, v: Vote, sigOk: bool, sealOk: bool)
    requires !LocksAnew(c, e, DeliverVote(v, sigOk, sealOk))
    ensures SameLock(e, HandleVote(c, e, v, sigOk, sealOk).state)
  {
    var (e1, recorded) := ReceiveVote(c, e, v, sigOk);
    ReceiveKeepsLock(c, e, v, sigOk);
    ReceiveProgress(c, e, v, sigOk);
    PrecommitsKeepLock(c, e1, sealOk);
    if recorded && v.vtype == Prevote {
      forall h | h != "" ensures !(e1.step == StepPrevote && Tally(e1.prevotes, h) >= Quorum(c)) {
        ReceivedTally(c, e, v, sigOk, sealOk, h);
      }
      NoQuorumNoLock(c, e1);
    }
  }

  /** A section takes a lock on NIL if and only if it completes a quorum of prevotes that carry it. */
  lemma StepLocksNilIff(c: Config, e: State, ev: Event)
    requires ValidConfig(c) && EngineOk(c, e) && e.lockedHash != NIL
    ensures Step(c, e, ev).state.lockedHash == NIL <==> Completes(c, e, ev, Prevote, NIL)
  {
    if LocksAnew(c, e, ev) {
      var h :| h != "" && Completes(c, e, ev, Prevote, h);
      CompletingLocks(c, e, ev, h);
      if Completes(c, e, ev, Prevote, NIL) {
        CompletesOnce(c, e, ev, h, NIL);
      }
    } else {
      OthersKeepLock(c, e, ev);
    }
  }

  // ---------------------------------------------------------------- decisions in runs

  lemma EngineInRun(n: Setup, states: seq<Net>, actions: seq<Action>, i: nat, p: string)
    requires ValidSetup(n) && Run(n, states, actions) && i < |states| && p in states[i].engines
    ensures ValidConfig(ConfigOf(n, p)) && EngineOk(ConfigOf(n, p), states[i].engines[p])
  {
    RunKeepsInv(n, states, actions, i);
  }

  ghost predicate HasDecided(s: Net, p: string, height: nat, hash: string) {
    exists d :: d in s.decisions && d.who == p && d.height == height && d.hash == hash
  }

  /** Action i is a section of p that completes a quorum at the height. */
  ghost predicate CompletesAt(n: Setup, s: Net, a: Action, p: string, height: nat, t: VoteType, hash: string) {
    && a.who == p && p in s.engines && s.engines[p].height == height
    && Completes(ConfigOf(n, p), s.engines[p], a.event, t, hash)
  }

  ghost predicate Counted(n: Setup, states: seq<Net>, actions: seq<Action>, i: nat, p: string, height: nat,
      hash: string)
    requires i <= |actions| < |states|
  {
    exists j | 0 <= j < i :: CompletesAt(n, states[j], actions[j], p, height, Precommit, hash)
  }

  lemma DecisionsOfStep(s: Net, who: string, o: Outcome, p: string, height: nat, hash: string)
    ensures HasDecided(After(s, who, o), p, height, hash)
       <==> HasDecided(s, p, height, hash) || (who == p && Decides(o, hash) && o.decided.value.height == height)
  {
    if HasDecided(s, p, height, hash) {
      var d :| d in s.decisions && d.who == p && d.height == height && d.hash == hash;
      assert d in After(s, who, o).decisions;
    }
    if who == p && Decides(o, hash) && o.decided.value.height == height {
      assert Decision(p, height, o.decided.value.round, hash) in After(s, who, o).decisions;
    }
  }

  lemma DecisionHeight(c: Config, e: State, ev: Event)
    requires ValidConfig(c) && EngineOk(c, e)
    ensures Step(c, e, ev).decided.Some? ==> Step(c, e, ev).decided.value.height == e.height
  {
    StepCounts(c, e, ev);
  }

  lemma DecisionStep(n: Setup, states: seq<Net>, actions: seq<Action>, i: nat, p: string, height: nat, hash: string)
    requires ValidSetup(n) && Run(n, states, actions) && i < |actions| && hash != ""
    ensures HasDecided(states[i + 1], p, height, hash)
       <==> HasDecided(states[i], p, height, hash) || CompletesAt(n, states[i], actions[i], p, height, Precommit, hash)
  {
    var who, ev := actions[i].who, actions[i].event;
    RunStep(n, states, actions, i);
    EngineInRun(n, states, actions, i, who);
    var c, e := ConfigOf(n, who), states[i].engines[who];
    StepDecidesIff(c, e, ev, hash);
    DecisionHeight(c, e, ev);
    DecisionsOfStep(states[i], who, Step(c, e, ev), p, height, hash);
  }

  /** WHEN A HASH IS DECIDED. In every run an engine has decided a hash at a height, NIL included, if and only
      if at some earlier point of that height it counted a quorum of precommits for it. */
  lemma {:induction false} DecidedIff(n: Setup, states: seq<Net>, actions: seq<Action>, i: nat, p: string,
      height: nat, hash: string)
    requires ValidSetup(n) && Run(n, states, actions) && i < |states| && hash != ""
    ensures HasDecided(states[i], p, height, hash) <==> Counted(n, states, actions, i, p, height, hash)
  {
    if i > 0 {
      DecidedIff(n, states, actions, i - 1, p, height, hash);
      DecisionStep(n, states, actions, i - 1, p, height, hash);
    }
  }

  ghost predicate DecisionsNotEmpty(s: Net) {
    forall d | d in s.decisions :: d.hash != ""
  }

  ghost function DecidedInvariant(n: Setup): Net -> bool {
    (s: Net) => Inv(n, s) && DecisionsNotEmpty(s)
  }

  lemma DecisionsStayNotEmpty(n: Setup, s: Net, p: string, ev: Event)
    requires ValidSetup(n) && EnginesOk(n, s) && DecisionsNotEmpty(s) && p in s.engines
    ensures DecisionsNotEmpty(Next(n, s, p, ev))
  {
    StepCounts(ConfigOf(n, p), s.engines[p], ev);
  }

  lemma NeverDecidesEmpty(n: Setup, states: seq<Net>, actions: seq<Action>, i: nat)
    requires ValidSetup(n) && Run(n, states, actions) && i < |states|
    ensures DecisionsNotEmpty(states[i])
  {
    StartInv(n, states[0]);
    forall s, a, s' | DecidedInvariant(n)(s) && Acting(n)(s, a, s') ensures DecidedInvariant(n)(s') {
      NextKeepsInv(n, s, a.who, a.event);
      DecisionsStayNotEmpty(n, s, a.who, a.event);
    }
    Invariance(Acting(n), DecidedInvariant(n), states, actions, i);
    assert DecidedInvariant(n)(states[i]);
  }

  /** Two decisions at one height differ if and only if exactly one of them is on the literal. */
  lemma DisagreeIffNil(n: Setup, states: seq<Net>, actions: seq<Action>, d1: Decision, d2: Decision, i: nat, j: nat)
    requires ValidSetup(n) && Run(n, states, actions) && i < |states| && j < |states|
    requires d1 in states[i].decisions && d2 in states[j].decisions && d1.height == d2.height
    ensures d1.hash != d2.hash <==> (d1.hash == NIL) != (d2.hash == NIL)
  {
    NeverDecidesEmpty(n, states, actions, i);
    NeverDecidesEmpty(n, states, actions, j);
    if d1.hash != NIL && d2.hash != NIL {
      Agreement(n, states, actions, d1, d2, i, j);
    }
  }

  /** p and q have decided differently at the height. */
  ghost predicate Disagree(s: Net, p: string, q: string, height: nat) {
    exists g, h :: g != h && HasDecided(s, p, height, g) && HasDecided(s, q, height, h)
  }

  /** One engine counted a precommit quorum for the literal, the other one for a block. */
  ghost predicate CountedApart(n: Setup, states: seq<Net>, actions: seq<Action>, i: nat, p: string, q: string,
      height: nat)
    requires i <= |actions| < |states|
  {
    Counted(n, states, actions, i, p, height, NIL)
    && exists h :: IsBlock(h) && Counted(n, states, actions, i, q, height, h)
  }

  /** AGREEMENT, exactly. In every run two engines have decided differently at a height if and only if one of
      them counted a precommit quorum for the literal there and the other counted one for a block. */
  lemma DisagreeIff(n: Setup, states: seq<Net>, actions: seq<Action>, i: nat, p: string, q: string, height: nat)
    requires ValidSetup(n) && Run(n, states, actions) && i < |states|
    ensures Disagree(states[i], p, q, height)
       <==> CountedApart(n, states, actions, i, p, q, height) || CountedApart(n, states, actions, i, q, p, height)
  {
    if Disagree(states[i], p, q, height) {
      var g, h :| g != h && HasDecided(states[i], p, height, g) && HasDecided(states[i], q, height, h);
      NeverDecidesEmpty(n, states, actions, i);
      var x :| x in states[i].decisions && x.who == p && x.height == height && x.hash == g;
      var y :| y in states[i].decisions && y.who == q && y.height == height && y.hash == h;
      DisagreeIffNil(n, states, actions, x, y, i, i);
      DecidedIff(n, states, actions, i, p, height, g);
      DecidedIff(n, states, actions, i, q, height, h);
    }
    ApartDisagrees(n, states, actions, i, p, q, height);
    ApartDisagrees(n, states, actions, i, q, p, height);
  }

  lemma ApartDisagrees(n: Setup, states: seq<Net>, actions: seq<Action>, i: nat, p: string, q: string, height: nat)
    requires ValidSetup(n) && Run(n, states, actions) && i < |states|
    ensures CountedApart(n, states, actions, i, p, q, height) ==>
              Disagree(states[i], p, q, height) && Disagree(states[i], q, p, height)
  {
    if CountedApart(n, states, actions, i, p, q, height) {
      var h :| IsBlock(h) && Counted(n, states, actions, i, q, height, h);
      DecidedIff(n, states, actions, i, p, height, NIL);
      DecidedIff(n, states, actions, i, q, height, h);
    }
  }

  // ---------------------------------------------------------------- locks in runs

  /** Action j of p completed a prevote quorum for NIL at the height, and up to k no action of p completed
      one for anything else. */
  ghost predicate NilLockSince(n: Setup, states: seq<Net>, actions: seq<Action>, p: string, height: nat, j: nat, k: nat)
    requires j < k <= |actions| < |states|
  {
    && CompletesAt(n, states[j], actions[j], p, height, Prevote, NIL)
    && forall m | j < m < k && actions[m].who == p && p in states[m].engines ::
         !LocksAnew(ConfigOf(n, p), states[m].engines[p], actions[m].event)
  }

  ghost predicate NilLocked(n: Setup, states: seq<Net>, actions: seq<Action>, p: string, height: nat, k: nat)
    requires k <= |actions| < |states|
  {
    exists j | 0 <= j < k :: NilLockSince(n, states, actions, p, height, j, k)
  }

  /** No action of p from before is at a height p has not reached. */
  lemma NotYet(n: Setup, states: seq<Net>, actions: seq<Action>, p: string, height: nat, k: nat)
    requires ValidSetup(n) && Run(n, states, actions) && k < |states| && p in states[k].engines
    requires states[k].engines[p].height < height
    ensures !NilLocked(n, states, actions, p, height, k)
  {
    if NilLocked(n, states, actions, p, height, k) {
      var j :| 0 <= j < k && NilLockSince(n, states, actions, p, height, j, k);
      PositionsAdvance(n, states, actions, j, k, p);
    }
  }

  /** Action k of p completes a prevote quorum for something. */
  ghost predicate LocksAt(n: Setup, states: seq<Net>, actions: seq<Action>, p: string, k: nat)
    requires k < |actions| < |states|
  {
    actions[k].who == p && p in states[k].engines && LocksAnew(ConfigOf(n, p), states[k].engines[p], actions[k].event)
  }

  lemma NilLockGoesOn(n: Setup, states: seq<Net>, actions: seq<Action>, p: string, height: nat, j: nat, k: nat)
    requires j < k < |actions| < |states|
    ensures NilLockSince(n, states, actions, p, height, j, k + 1)
       <==> NilLockSince(n, states, actions, p, height, j, k) && !LocksAt(n, states, actions, p, k)
  {
  }

  /** How the right-hand side moves with one more action. */
  lemma NilLockedNext(n: Setup, states: seq<Net>, actions: seq<Action>, p: string, height: nat, k: nat)
    requires k < |actions| < |states|
    ensures NilLocked(n, states, actions, p, height, k + 1) <==>
              || CompletesAt(n, states[k], actions[k], p, height, Prevote, NIL)
              || (NilLocked(n, states, actions, p, height, k) && !LocksAt(n, states, actions, p, k))
  {
    NilLockStarts(n, states, actions, p, height, k);
    if NilLocked(n, states, actions, p, height, k) {
      var j :| 0 <= j < k && NilLockSince(n, states, actions, p, height, j, k);
      NilLockGoesOn(n, states, actions, p, height, j, k);
    }
    if NilLocked(n, states, actions, p, height, k + 1) {
      var j :| 0 <= j < k + 1 && NilLockSince(n, states, actions, p, height, j, k + 1);
      if j < k {
        NilLockGoesOn(n, states, actions, p, height, j, k);
      }
    }
  }

  lemma NilLockStarts(n: Setup, states: seq<Net>, actions: seq<Action>, p: string, height: nat, k: nat)
    requires k < |actions| < |states|
    ensures NilLockSince(n, states, actions, p, height, k, k + 1)
       <==> CompletesAt(n, states[k], actions[k], p, height, Prevote, NIL)
  {
  }

  /** One action and the lock of p. */
  lemma LockStep(n: Setup, states: seq<Net>, actions: seq<Action>, k: nat, p: string)
    requires ValidSetup(n) && Run(n, states, actions) && k < |actions| && p in states[k].engines
    ensures p in states[k + 1].engines
    ensures var e, e', a := states[k].engines[p], states[k + 1].engines[p], actions[k];
            && (a.who != p ==> e' == e)
            && (a.who == p && LocksAnew(ConfigOf(n, p), e, a.event) ==>
                  e'.height == e.height && (e'.lockedHash == NIL
                    <==> Completes(ConfigOf(n, p), e, a.event, Prevote, NIL)))
            && (a.who == p && !LocksAnew(ConfigOf(n, p), e, a.event) ==> SameLock(e, e'))
  {
    var c, e, ev := ConfigOf(n, p), states[k].engines[p], actions[k].event;
    RunStep(n, states, actions, k);
    if actions[k].who == p {
      EngineInRun(n, states, actions, k, p);
      if LocksAnew(c, e, ev) {
        var h :| h != "" && Completes(c, e, ev, Prevote, h);
        CompletingLocks(c, e, ev, h);
        if Completes(c, e, ev, Prevote, NIL) {
          CompletesOnce(c, e, ev, h, NIL);
        }
      } else {
        OthersKeepLock(c, e, ev);
      }
    }
  }

  /** The lock of p is on NIL exactly as the earlier sections say. */
  ghost predicate NilLockTold(n: Setup, states: seq<Net>, actions: seq<Action>, k: nat, p: string)
    requires k <= |actions| < |states|
  {
    p in states[k].engines
    && (states[k].engines[p].lockedHash == NIL <==> NilLocked(n, states, actions, p, states[k].engines[p].height, k))
  }

  lemma NilLockToldAtStart(n: Setup, states: seq<Net>, actions: seq<Action>, p: string)
    requires |states| == |actions| + 1 && Start(n, states[0]) && p in states[0].engines
    ensures NilLockTold(n, states, actions, 0, p)
  {
    assert states[0].engines[p] == Initial(states[0].engines[p].height);
  }

  ghost function ToldAt(n: Setup, states: seq<Net>, actions: seq<Action>, p: string): nat -> bool
    requires |states| == |actions| + 1
  {
    (k: nat) => k <= |actions| ==> NilLockTold(n, states, actions, k, p)
  }

  lemma ToldAtNext(n: Setup, states: seq<Net>, actions: seq<Action>, p: string, k: nat)
    requires ValidSetup(n) && Run(n, states, actions) && k < |actions| && ToldAt(n, states, actions, p)(k)
    ensures ToldAt(n, states, actions, p)(k + 1)
  {
    LockStep(n, states, actions, k, p);
    var e, e' := states[k].engines[p], states[k + 1].engines[p];
    NilLockedNext(n, states, actions, p, e'.height, k);
    if e'.height > e.height {
      NotYet(n, states, actions, p, e'.height, k);
    }
  }

  lemma NilLockToldInRun(n: Setup, states: seq<Net>, actions: seq<Action>, k: nat, p: string)
    requires ValidSetup(n) && Run(n, states, actions) && k < |states| && p in states[0].engines
    ensures NilLockTold(n, states, actions, k, p)
  {
    var told := ToldAt(n, states, actions, p);
    NilLockToldAtStart(n, states, actions, p);
    forall i: nat | i < k && told(i) ensures told(i + 1) {
      ToldAtNext(n, states, actions, p, i);
    }
    Climb(told, k);
    assert told(k);
  }

  /** WHEN A LOCK IS ON NIL. In every run an engine is locked on NIL if and only if an earlier section of its
      height completed a prevote quorum for the literal and no later one completed one for a block. */
  lemma LockedOnNilIff(n: Setup, states: seq<Net>, actions: seq<Action>, k: nat, p: string)
    requires ValidSetup(n) && Run(n, states, actions) && k < |states| && p in states[0].engines
    ensures p in states[k].engines
    ensures states[k].engines[p].lockedHash == NIL
       <==> NilLocked(n, states, actions, p, states[k].engines[p].height, k)
  {
    NilLockToldInRun(n, states, actions, k, p);
  }

  /** LOCK PERSISTENCE, exactly. Once a quorum precommitted a block, every honest engine that signed that
      precommit is locked on the block or on NIL while it stays at the height: on NIL if and only if an
      earlier section of the height completed a prevote quorum for the literal and no later one completed
      one for a block. */
  lemma LockPersistsExactly(n: Setup, states: seq<Net>, actions: seq<Action>, i: nat, k: nat, height: nat, r: Int32,
      h: string, p: string)
    requires ValidSetup(n) && Run(n, states, actions) && i <= k < |states| && IsBlock(h)
    requires HasQuorum(n, states[i].sent, Precommit, height, r, h)
    requires p in n.honest && Vote(Precommit, height, r, h, p) in states[i].sent
    requires p in states[k].engines && states[k].engines[p].height == height
    ensures states[k].engines[p].lockedRound >= r
    ensures states[k].engines[p].lockedHash == if NilLocked(n, states, actions, p, height, k) then NIL else h
  {
    LockPersists(n, states, actions, i, k, height, r, h, p);
    EngineInRun(n, states, actions, k, p);
    assert p in states[0].engines by {
      RunKeepsInv(n, states, actions, 0);
    }
    LockedOnNilIff(n, states, actions, k, p);
  }
}
