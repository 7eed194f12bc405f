/**
 What every critical section of one engine keeps and what it may add: the local half of the
 consensus proof. `Network` uses only these facts, never the bodies of the sections.
 */
module EngineSafety {
  import opened Text
  import opened Votes
  import opened Engine

  /** A registered set in canonical form that contains the local address. */
  ghost predicate ValidConfig(c: Config) {
    && c.addr in c.validators
    && forall v | v in c.validators :: Canonical(v)
  }

  /** The part of a valid configuration the sections themselves rely on. */
  ghost predicate LocalOk(c: Config) {
    c.addr in c.validators && Lower(c.addr) == c.addr
  }

  predicate IsTimer(ev: Event) {
    !ev.DeliverVote? && !ev.PollPrevotes? && !ev.PollPrecommits? && !ev.DeliverProposal?
  }

  lemma KnownMeansRegistered(c: Config, voter: string)
    requires ValidConfig(c)
    ensures Known(c, voter) <==> Lower(voter) in c.validators
    ensures Known(c, voter) ==> Norm(voter) == Lower(voter)
  {
    if Lower(voter) in c.validators {
      NormOfLower(voter);
    }
  }

  /** A tally holds one vote per registered voter, all of one type and for one (height, round). */
  ghost predicate TallyOk(c: Config, votes: map<string, Vote>, t: VoteType, height: nat, round: int) {
    forall k | k in votes ::
      k in c.validators && Lower(votes[k].voter) == k && votes[k].vtype == t && votes[k].height == height
        && votes[k].round == round
  }

  /** The engine's invariant: both tallies belong to the current (height, round), and the lock is
      from this height and older than the current round until the engine precommits. */
  ghost predicate EngineOk(c: Config, e: State) {
    && 0 <= e.round
    && TallyOk(c, e.prevotes, Prevote, e.height, e.round)
    && TallyOk(c, e.precommits, Precommit, e.height, e.round)
    && -1 <= e.lockedRound <= e.round
    && (e.lockedRound < 0 <==> e.lockedHash == "")
    && (e.lockedRound == e.round ==> Rank(e.step) >= Rank(StepPrecommit))
  }

  lemma TallyBound(c: Config, votes: map<string, Vote>, t: VoteType, height: nat, round: int)
    requires ValidConfig(c) && TallyOk(c, votes, t, height, round)
    ensures |votes| <= |c.validators|
    ensures 2 * Quorum(c) > |votes|
  {
    assert votes.Keys <= c.validators;
    SubsetCard(votes.Keys, c.validators);
    assert |votes.Keys| == |votes|;
    assert |c.validators| >= 1 by {
      SubsetCard({c.addr}, c.validators);
    }
    QuorumBounds(|c.validators|, 0);
  }

  /** In a reachable tally at most one hash has a quorum, so the order in which hashes are
      examined does not matter. */
  lemma QuorumHashUnique(c: Config, votes: map<string, Vote>, t: VoteType, height: nat, round: int, h: string)
    requires ValidConfig(c) && TallyOk(c, votes, t, height, round)
    requires Tally(votes, h) >= Quorum(c)
    ensures QuorumHash(votes, Quorum(c)) == Some(h)
  {
    TallyBound(c, votes, t, height, round);
    AtMostOneQuorum(votes, Quorum(c), h, QuorumHash(votes, Quorum(c)).value);
  }

  // ---------------------------------------------------------------- the invariant is kept

  /** Every section keeps the invariant and moves forward, as long as the round counter does not
      run over. */
  lemma StepKeepsOk(c: Config, e: State, ev: Event)
    requires ValidConfig(c) && EngineOk(c, e)
    requires !(GivesUpRound(c, e, ev) && e.round == MAX_INT32)
    ensures EngineOk(c, Step(c, e, ev).state)
    ensures Progress(e, Step(c, e, ev).state)
  {
    ProgressUnlessRoundWraps(c, e, ev);
    match ev
    case DeliverVote(v, sigOk, sealOk) =>
      KnownMeansRegistered(c, v.voter);
      ReceiveKeepsOk(c, e, v, sigOk);
      ReceiveProgress(c, e, v, sigOk);
      var e1 := ReceiveVote(c, e, v, sigOk).0;
      if ReceiveVote(c, e, v, sigOk).1 {
        if v.vtype == Prevote {
          PrevotesKeepOk(c, e1);
        } else {
          PrecommitsKeepOk(c, e1, sealOk);
        }
      }
    case PollPrevotes => PrevotesKeepOk(c, e);
    case PollPrecommits(sealOk) => PrecommitsKeepOk(c, e, sealOk);
    case DeliverProposal(p, sigOk, leader, tip) => ProposalKeepsOk(c, e, p, sigOk, leader, tip);
    case _ => TimerKeepsOk(c, e, ev);
  }

  lemma TimerKeepsOk(c: Config, e: State, ev: Event)
    requires LocalOk(c) && EngineOk(c, e) && IsTimer(ev)
    requires !(GivesUpRound(c, e, ev) && e.round == MAX_INT32)
    ensures EngineOk(c, Step(c, e, ev).state)
  {
  }

  lemma ReceiveKeepsOk(c: Config, e: State, v: Vote, sigOk: bool)
    requires EngineOk(c, e)
    requires Known(c, v.voter) ==> Lower(v.voter) in c.validators
    ensures EngineOk(c, ReceiveVote(c, e, v, sigOk).0)
  {
    var e1 := if v.height == e.height && v.round > e.round then JumpRound(e, v.round) else e;
    assert EngineOk(c, e1);
    if sigOk && v.height == e1.height && Known(c, v.voter) {
      RecordKeepsOk(c, RecordLast(e1, v), v);
    }
  }

  lemma RecordKeepsOk(c: Config, e: State, v: Vote)
    requires EngineOk(c, e) && v.height == e.height && Lower(v.voter) in c.validators
    ensures EngineOk(c, RecordVote(e, v).0)
  {
  }

  lemma ProposalKeepsOk(c: Config, e: State, p: Proposal, sigOk: bool, leader: string, tip: Option<Tip>)
    requires LocalOk(c) && EngineOk(c, e)
    ensures EngineOk(c, HandleProposal(c, e, p, sigOk, leader, tip).state)
  {
    var e1 := if p.round > e.round then JumpRound(e, p.round) else e;
    if p.height == e.height && p.round >= e.round {
      EnterKeepsOk(c, e1.(proposal := Some(p)));
    }
  }

  lemma EnterKeepsOk(c: Config, e: State)
    requires LocalOk(c) && EngineOk(c, e)
    ensures e.step == StepPropose ==> EngineOk(c, EnterPrevote(c, e).state)
  {
  }

  lemma PrevotesKeepOk(c: Config, e: State)
    requires LocalOk(c) && EngineOk(c, e)
    ensures EngineOk(c, FinalizePrevotes(c, e).state)
  {
  }

  lemma PrecommitsKeepOk(c: Config, e: State, sealOk: bool)
    requires EngineOk(c, e)
    requires !(e.step == StepPrecommit && QuorumHash(e.precommits, Quorum(c)) == Some("") && e.round == MAX_INT32)
    ensures EngineOk(c, FinalizePrecommits(c, e, sealOk).state)
  {
  }

  // ---------------------------------------------------------------- what a section signs

  /** A signed vote is the engine's own, for its height, and lies strictly after the position the
      engine held before: this is why it never signs twice for one place. */
  ghost predicate SendsForward(c: Config, e: State, o: Outcome) {
    o.sent.Some? ==>
      var v := o.sent.value;
      && v.voter == c.addr
      && v.height == e.height == o.state.height
      && v.round == o.state.round
      && Rank(o.state.step) == VoteRank(v.vtype)
      && Before(e.height, e.round, Rank(e.step), v.height, v.round, VoteRank(v.vtype))
  }

  /** A non-nil precommit goes with a lock on its hash, taken in its round on a prevote quorum. */
  ghost predicate PrecommitsWhatItLocks(c: Config, o: Outcome) {
    o.sent.Some? && o.sent.value.vtype == Precommit && o.sent.value.hash != "" ==>
      && o.state.lockedHash == o.sent.value.hash
      && o.state.lockedRound == o.sent.value.round
      && Tally(o.state.prevotes, o.sent.value.hash) >= Quorum(c)
  }

  /** A locked engine prevotes its lock or nil, and its lock is from an earlier round. */
  ghost predicate PrevotesItsLock(e: State, o: Outcome) {
    o.sent.Some? && o.sent.value.vtype == Prevote && o.sent.value.hash != "" && e.lockedRound >= 0 ==>
      o.sent.value.hash == e.lockedHash && e.lockedRound < o.sent.value.round
  }

  /** The lock goes away with its height; within a height it stays, or moves to the current round on
      a prevote quorum. */
  ghost predicate LockMoves(c: Config, e: State, o: Outcome) {
    || (o.state.height > e.height && o.state.lockedRound == -1)
    || (o.state.height == e.height && o.state.lockedRound == e.lockedRound && o.state.lockedHash == e.lockedHash)
    || (o.state.height == e.height && o.state.lockedRound == o.state.round
        && Tally(o.state.prevotes, o.state.lockedHash) >= Quorum(c))
  }

  /** Taking a lock in the current round happens on leaving the prevote step. */
  predicate LocksWithVote(e: State, o: Outcome) {
    o.state.height == e.height && o.state.lockedRound == o.state.round && Rank(o.state.step) >= Rank(StepPrecommit) ==>
      || (o.state.lockedRound == e.lockedRound && o.state.lockedHash == e.lockedHash)
      || Before(e.height, e.round, Rank(e.step), o.state.height, o.state.lockedRound, Rank(StepPrecommit))
  }

  ghost predicate VoteFacts(c: Config, e: State, o: Outcome) {
    && SendsForward(c, e, o) && PrecommitsWhatItLocks(c, o) && PrevotesItsLock(e, o)
    && LockMoves(c, e, o) && LocksWithVote(e, o)
  }

  lemma StepVotes(c: Config, e: State, ev: Event)
    requires ValidConfig(c) && EngineOk(c, e)
    ensures VoteFacts(c, e, Step(c, e, ev))
  {
    match ev
    case DeliverVote(v, sigOk, sealOk) =>
      KnownMeansRegistered(c, v.voter);
      ReceiveProgress(c, e, v, sigOk);
      ReceiveKeepsOk(c, e, v, sigOk);
      ReceiveKeepsLock(c, e, v, sigOk);
      var e1 := ReceiveVote(c, e, v, sigOk).0;
      if ReceiveVote(c, e, v, sigOk).1 {
        if v.vtype == Prevote {
          PrevotesVotes(c, e1);
          VotesAfterReceive(c, e, e1, FinalizePrevotes(c, e1));
        } else {
          PrecommitsVotes(c, e1, sealOk);
          VotesAfterReceive(c, e, e1, FinalizePrecommits(c, e1, sealOk));
        }
      }
    case PollPrevotes => PrevotesVotes(c, e);
    case PollPrecommits(sealOk) => PrecommitsVotes(c, e, sealOk);
    case DeliverProposal(p, sigOk, leader, tip) => ProposalVotes(c, e, p, sigOk, leader, tip);
    case _ => TimerVotes(c, e, ev);
  }

  lemma ReceiveKeepsLock(c: Config, e: State, v: Vote, sigOk: bool)
    ensures var e1 := ReceiveVote(c, e, v, sigOk).0;
            e1.lockedRound == e.lockedRound && e1.lockedHash == e.lockedHash
  {
  }

  lemma VotesAfterReceive(c: Config, e: State, e1: State, o: Outcome)
    requires EngineOk(c, e) && Progress(e, e1) && e1.height == e.height
    requires e1.lockedRound == e.lockedRound && e1.lockedHash == e.lockedHash
    requires VoteFacts(c, e1, o)
    ensures VoteFacts(c, e, o)
  {
  }

  lemma PrevotesVotes(c: Config, e: State)
    requires LocalOk(c) && EngineOk(c, e)
    ensures VoteFacts(c, e, FinalizePrevotes(c, e))
  {
  }

  lemma PrecommitsVotes(c: Config, e: State, sealOk: bool)
    requires LocalOk(c) && EngineOk(c, e)
    ensures VoteFacts(c, e, FinalizePrecommits(c, e, sealOk))
  {
    if e.step == StepPrecommit && QuorumHash(e.precommits, Quorum(c)).Some? {
      var h := QuorumHash(e.precommits, Quorum(c)).value;
      if h == "" {
        AdvanceRoundVotes(c, e);
      } else {
        CommitVotes(c, e, h, sealOk);
      }
    }
  }

  lemma AdvanceRoundVotes(c: Config, e: State)
    requires EngineOk(c, e)
    ensures VoteFacts(c, e, Idle(AdvanceRound(e)))
  {
  }

  lemma CommitVotes(c: Config, e: State, hash: string, sealOk: bool)
    requires EngineOk(c, e) && e.step == StepPrecommit
    ensures VoteFacts(c, e, CommitBlock(e, hash, sealOk))
  {
  }

  lemma ProposalVotes(c: Config, e: State, p: Proposal, sigOk: bool, leader: string, tip: Option<Tip>)
    requires LocalOk(c) && EngineOk(c, e)
    ensures VoteFacts(c, e, HandleProposal(c, e, p, sigOk, leader, tip))
  {
    if p.height == e.height && p.round >= e.round {
      var e1 := if p.round > e.round then JumpRound(e, p.round) else e;
      var e2 := e1.(proposal := Some(p));
      VotesAfterReceive(c, e, e1, Idle(e1));
      EnterVotes(c, e2);
      VotesAfterReceive(c, e, e2, if e2.step == StepPropose then EnterPrevote(c, e2) else Idle(e2));
    }
  }

  lemma EnterVotes(c: Config, e: State)
    requires LocalOk(c) && EngineOk(c, e)
    ensures VoteFacts(c, e, if e.step == StepPropose then EnterPrevote(c, e) else Idle(e))
  {
  }

  lemma TimerVotes(c: Config, e: State, ev: Event)
    requires LocalOk(c) && EngineOk(c, e) && IsTimer(ev)
    ensures VoteFacts(c, e, Step(c, e, ev))
  {
  }

  // ---------------------------------------------------------------- where counted votes come from

  /** The vote an event brings in, when its signature checks out. */
  function Incoming(ev: Event): Option<Vote> {
    if ev.DeliverVote? && ev.sigOk then Some(ev.v) else None
  }

  ghost predicate ComesFrom(votes: map<string, Vote>, before: map<string, Vote>, incoming: Option<Vote>,
      own: Option<Vote>) {
    forall k | k in votes ::
      || (k in before && before[k] == votes[k])
      || incoming == Some(votes[k])
      || own == Some(votes[k])
  }

  /** Nothing is counted that was not counted before, delivered now, or signed now. */
  ghost predicate CountsOnly(e: State, o: Outcome, incoming: Option<Vote>) {
    && ComesFrom(o.state.prevotes, e.prevotes, incoming, o.sent)
    && ComesFrom(o.state.precommits, e.precommits, incoming, o.sent)
  }

  /** A decision is certified by a quorum of counted precommits for exactly its hash. */
  ghost predicate DecidesOnQuorum(c: Config, e: State, o: Outcome, incoming: Option<Vote>) {
    o.decided.Some? ==>
      var d := o.decided.value;
      && d.hash != "" && d.height == e.height && d.round >= 0
      && |d.votes| >= Quorum(c)
      && TallyOk(c, d.votes, Precommit, d.height, d.round)
      && (forall k | k in d.votes :: d.votes[k].hash == d.hash)
      && ComesFrom(d.votes, e.precommits, incoming, None)
  }

  ghost predicate CountFacts(c: Config, e: State, o: Outcome, incoming: Option<Vote>) {
    CountsOnly(e, o, incoming) && DecidesOnQuorum(c, e, o, incoming)
  }

  lemma StepCounts(c: Config, e: State, ev: Event)
    requires ValidConfig(c) && EngineOk(c, e)
    ensures CountFacts(c, e, Step(c, e, ev), Incoming(ev))
  {
    match ev
    case DeliverVote(v, sigOk, sealOk) =>
      KnownMeansRegistered(c, v.voter);
      ReceiveKeepsOk(c, e, v, sigOk);
      ReceiveCounts(c, e, v, sigOk);
      ReceiveProgress(c, e, v, sigOk);
      var e1 := ReceiveVote(c, e, v, sigOk).0;
      if ReceiveVote(c, e, v, sigOk).1 {
        if v.vtype == Prevote {
          PrevotesCounts(c, e1);
          CountsAfterReceive(c, e, e1, FinalizePrevotes(c, e1), Incoming(ev));
        } else {
          PrecommitsCounts(c, e1, sealOk);
          CountsAfterReceive(c, e, e1, FinalizePrecommits(c, e1, sealOk), Incoming(ev));
        }
      }
    case PollPrevotes => PrevotesCounts(c, e);
    case PollPrecommits(sealOk) => PrecommitsCounts(c, e, sealOk);
    case DeliverProposal(p, sigOk, leader, tip) => ProposalCounts(c, e, p, sigOk, leader, tip);
    case _ => TimerCounts(c, e, ev);
  }

  lemma TimerCounts(c: Config, e: State, ev: Event)
    requires IsTimer(ev)
    ensures CountFacts(c, e, Step(c, e, ev), None)
  {
  }

  lemma CountsAfterReceive(c: Config, e: State, e1: State, o: Outcome, incoming: Option<Vote>)
    requires e1.height == e.height
    requires ComesFrom(e1.prevotes, e.prevotes, incoming, None)
      && ComesFrom(e1.precommits, e.precommits, incoming, None)
    requires CountFacts(c, e1, o, None)
    ensures CountFacts(c, e, o, incoming)
  {
  }

  lemma ReceiveCounts(c: Config, e: State, v: Vote, sigOk: bool)
    ensures var e1 := ReceiveVote(c, e, v, sigOk).0;
            var incoming := if sigOk then Some(v) else None;
            && ComesFrom(e1.prevotes, e.prevotes, incoming, None)
            && ComesFrom(e1.precommits, e.precommits, incoming, None)
  {
    var e1 := if v.height == e.height && v.round > e.round then JumpRound(e, v.round) else e;
    RecordCounts(RecordLast(e1, v), v);
  }

  lemma RecordCounts(e: State, v: Vote)
    ensures ComesFrom(RecordVote(e, v).0.prevotes, e.prevotes, Some(v), None)
    ensures ComesFrom(RecordVote(e, v).0.precommits, e.precommits, Some(v), None)
  {
  }

  lemma PrevotesCounts(c: Config, e: State)
    ensures CountFacts(c, e, FinalizePrevotes(c, e), None)
  {
  }

  lemma PrecommitsCounts(c: Config, e: State, sealOk: bool)
    requires EngineOk(c, e)
    ensures CountFacts(c, e, FinalizePrecommits(c, e, sealOk), None)
  {
    var o := FinalizePrecommits(c, e, sealOk);
    if o.decided.Some? {
      var d := o.decided.value;
      assert d.votes.Keys == Backers(e.precommits, d.hash);
    }
  }

  lemma ProposalCounts(c: Config, e: State, p: Proposal, sigOk: bool, leader: string, tip: Option<Tip>)
    ensures CountFacts(c, e, HandleProposal(c, e, p, sigOk, leader, tip), None)
  {
    var e1 := if p.round > e.round then JumpRound(e, p.round) else e;
    EnterCounts(c, e1.(proposal := Some(p)));
  }

  lemma EnterCounts(c: Config, e: State)
    ensures CountFacts(c, e, EnterPrevote(c, e), None)
  {
  }

  // ---------------------------------------------------------------- double-sign records

  /** What the double-sign check learns from an event: a record is old or is the delivered vote, and
      only a registered voter contradicting its record is jailed. */
  ghost predicate RecordFacts(c: Config, e: State, o: Outcome, incoming: Option<Vote>) {
    && (forall k | k in o.state.lastVotes ::
          || (k in e.lastVotes && e.lastVotes[k] == o.state.lastVotes[k])
          || (incoming.Some? && var v := incoming.value;
              k == (v.voter, v.vtype) && o.state.lastVotes[k] == VoteKey(v.height, v.round, v.hash)))
    && (forall a | a in o.state.jailed && a !in e.jailed ::
          incoming.Some? && var v := incoming.value;
          && a == Lower(v.voter) && a in c.validators
          && (v.voter, v.vtype) in e.lastVotes
          && var k := e.lastVotes[(v.voter, v.vtype)];
             k.height == v.height && k.round == v.round && k.hash != v.hash)
  }

  lemma StepRecords(c: Config, e: State, ev: Event)
    requires ValidConfig(c)
    ensures RecordFacts(c, e, Step(c, e, ev), Incoming(ev))
  {
    match ev
    case DeliverVote(v, sigOk, sealOk) =>
      KnownMeansRegistered(c, v.voter);
      ReceiveRecords(c, e, v, sigOk);
      PrevotesKeepRecords(c, ReceiveVote(c, e, v, sigOk).0);
      PrecommitsKeepRecords(c, ReceiveVote(c, e, v, sigOk).0, sealOk);
    case PollPrevotes => PrevotesKeepRecords(c, e);
    case PollPrecommits(sealOk) => PrecommitsKeepRecords(c, e, sealOk);
    case DeliverProposal(p, sigOk, leader, tip) => ProposalRecords(c, e, p, sigOk, leader, tip);
    case _ => TimerRecords(c, e, ev);
  }

  lemma TimerRecords(c: Config, e: State, ev: Event)
    requires IsTimer(ev)
    ensures RecordFacts(c, e, Step(c, e, ev), None)
  {
  }

  lemma ProposalRecords(c: Config, e: State, p: Proposal, sigOk: bool, leader: string, tip: Option<Tip>)
    ensures RecordFacts(c, e, HandleProposal(c, e, p, sigOk, leader, tip), None)
  {
  }

  lemma ReceiveRecords(c: Config, e: State, v: Vote, sigOk: bool)
    requires Known(c, v.voter) ==> Lower(v.voter) in c.validators && Norm(v.voter) == Lower(v.voter)
    ensures RecordFacts(c, e, Idle(ReceiveVote(c, e, v, sigOk).0), if sigOk then Some(v) else None)
  {
    var e1 := if v.height == e.height && v.round > e.round then JumpRound(e, v.round) else e;
    if sigOk && Known(c, v.voter) {
      LastRecords(c, e1, v);
      CountKeepsRecords(RecordLast(e1, v), v);
    }
  }

  lemma LastRecords(c: Config, e: State, v: Vote)
    requires Lower(v.voter) in c.validators && Norm(v.voter) == Lower(v.voter)
    ensures RecordFacts(c, e, Idle(RecordLast(e, v)), Some(v))
  {
  }

  lemma CountKeepsRecords(e: State, v: Vote)
    ensures RecordVote(e, v).0.lastVotes == e.lastVotes && RecordVote(e, v).0.jailed == e.jailed
  {
  }

  lemma PrevotesKeepRecords(c: Config, e: State)
    ensures FinalizePrevotes(c, e).state.lastVotes == e.lastVotes && FinalizePrevotes(c, e).state.jailed == e.jailed
  {
  }

  lemma PrecommitsKeepRecords(c: Config, e: State, sealOk: bool)
    ensures FinalizePrecommits(c, e, sealOk).state.lastVotes == e.lastVotes
      && FinalizePrecommits(c, e, sealOk).state.jailed == e.jailed
  {
  }
}
