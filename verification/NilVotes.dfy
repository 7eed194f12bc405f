/**
 The literal "NIL" and engines that have never met it. The signed message spells the nil hash NIL, so one
 signature fits two votes: the empty hash and the literal.
 */
module NilVotes {
  import opened Text
  import opened Votes
  import opened Engine
  import opened EngineSafety

  const NIL := "NIL"

  // ---------------------------------------------------------------- one engine

  ghost predicate NoNil(votes: map<string, Vote>) {
    forall k | k in votes :: votes[k].hash != NIL
  }

  /** Nothing in the engine's memory is the literal. */
  ghost predicate Clean(e: State) {
    && NoNil(e.prevotes) && NoNil(e.precommits)
    && e.lockedHash != NIL
    && (forall k | k in e.lastVotes :: e.lastVotes[k].hash != NIL)
    && (e.proposal.Some? ==> e.proposal.value.hash != NIL)
  }

  ghost predicate CleanOutcome(o: Outcome) {
    && Clean(o.state)
    && (o.decided.Some? ==> o.decided.value.hash != NIL)
  }

  predicate CleanEvent(ev: Event) {
    ev.DeliverVote? ==> ev.v.hash != NIL
  }

  lemma QuorumIsClean(c: Config, votes: map<string, Vote>)
    requires NoNil(votes) && |c.validators| >= 1
    ensures QuorumHash(votes, Quorum(c)) != Some(NIL)
  {
    QuorumBounds(|c.validators|, 0);
    assert Backers(votes, NIL) == {};
  }

  lemma PrevotesClean(c: Config, e: State)
    requires Clean(e) && |c.validators| >= 1
    ensures CleanOutcome(FinalizePrevotes(c, e))
  {
    QuorumIsClean(c, e.prevotes);
    if e.step == StepPrevote && QuorumHash(e.prevotes, Quorum(c)).Some? {
      var h := QuorumHash(e.prevotes, Quorum(c)).value;
      var e1 := if h != "" then e.(lockedHash := h, lockedRound := e.round) else e;
      BroadcastClean(c, e1.(step := StepPrecommit), Precommit, h);
    }
  }

  lemma BroadcastClean(c: Config, e: State, t: VoteType, hash: string)
    requires Clean(e) && hash != NIL
    ensures CleanOutcome(BroadcastVote(c, e, t, hash))
  {
  }

  lemma PrecommitsClean(c: Config, e: State, sealOk: bool)
    requires Clean(e) && |c.validators| >= 1
    ensures CleanOutcome(FinalizePrecommits(c, e, sealOk))
  {
    QuorumIsClean(c, e.precommits);
    if e.step == StepPrecommit && QuorumHash(e.precommits, Quorum(c)).Some? {
      CommitClean(e, QuorumHash(e.precommits, Quorum(c)).value, sealOk);
    }
  }

  lemma CommitClean(e: State, hash: string, sealOk: bool)
    requires Clean(e) && hash != NIL
    ensures CleanOutcome(CommitBlock(e, hash, sealOk)) && Clean(AdvanceRound(e))
  {
  }

  lemma ReceiveClean(c: Config, e: State, v: Vote, sigOk: bool)
    requires Clean(e) && v.hash != NIL
    ensures Clean(ReceiveVote(c, e, v, sigOk).0)
  {
    var e1 := if v.height == e.height && v.round > e.round then JumpRound(e, v.round) else e;
    RecordClean(RecordLast(e1, v), v);
  }

  lemma RecordClean(e: State, v: Vote)
    requires Clean(e) && v.hash != NIL
    ensures Clean(RecordVote(e, v).0)
  {
  }

  lemma EnterClean(c: Config, e: State)
    requires Clean(e)
    ensures CleanOutcome(EnterPrevote(c, e))
  {
    BroadcastClean(c, e.(step := StepPrevote), Prevote, PrevoteHash(e));
  }

  lemma HashIsNotNil(c: Config, p: Proposal, tip: Option<Tip>)
    requires ValidProposal(c, p, tip)
    ensures p.hash != NIL
  {
  }

  lemma ProposalClean(c: Config, e: State, p: Proposal, sigOk: bool, leader: string, tip: Option<Tip>)
    requires Clean(e)
    ensures CleanOutcome(HandleProposal(c, e, p, sigOk, leader, tip))
  {
    var e1 := if p.round > e.round then JumpRound(e, p.round) else e;
    if ValidProposal(c, p, tip) {
      HashIsNotNil(c, p, tip);
      EnterClean(c, e1.(proposal := Some(p)));
    }
  }

  lemma TimerClean(c: Config, e: State, ev: Event)
    requires Clean(e) && IsTimer(ev)
    ensures CleanOutcome(Step(c, e, ev))
  {
    match ev
    case ProposeTimeout => EnterClean(c, e);
    case PrevoteTimeout => BroadcastClean(c, e.(step := StepPrecommit), Precommit, "");
    case _ =>
  }

  lemma StepClean(c: Config, e: State, ev: Event)
    requires Clean(e) && CleanEvent(ev) && |c.validators| >= 1
    ensures CleanOutcome(Step(c, e, ev))
  {
    match ev
    case DeliverVote(v, sigOk, sealOk) =>
      ReceiveClean(c, e, v, sigOk);
      var e1 := ReceiveVote(c, e, v, sigOk).0;
      PrevotesClean(c, e1);
      PrecommitsClean(c, e1, sealOk);
    case PollPrevotes => PrevotesClean(c, e);
    case PollPrecommits(sealOk) => PrecommitsClean(c, e, sealOk);
    case DeliverProposal(p, sigOk, leader, tip) => ProposalClean(c, e, p, sigOk, leader, tip);
    case _ => TimerClean(c, e, ev);
  }
}
