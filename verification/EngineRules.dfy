/**
 What each section of the engine does to its fields, written out on the fields and proved of
 `Engine.Step`: when a vote is counted and which one stays, when a proposal is accepted, what a quorum
 leads to, when the height moves, and what is signed.
 */
module EngineRules {
  import opened Text
  import opened Votes
  import opened BlockHash
  import opened Engine
  import opened EngineSafety
  import opened Decisions

  // ---------------------------------------------------------------- votes that are not counted

  /** Registered under some spelling; without a set, the local address alone. */
  ghost predicate Registered(c: Config, voter: string) {
    if c.validators == {} then Lower(voter) == Lower(c.addr)
    else exists a | a in c.validators :: Lower(a) == Lower(voter)
  }

  /** How many votes decide: more than two thirds of the set, and one for a set of one or none. */
  lemma QuorumIs(c: Config)
    ensures |c.validators| <= 1 ==> Quorum(c) == 1
    ensures |c.validators| > 1 ==> 3 * Quorum(c) > 2 * |c.validators| >= 3 * (Quorum(c) - 1)
  {
  }

  /** An engine starts at the given height in round 0, with nothing proposed, counted, locked, noted or pending. */
  lemma StartsEmpty(height: nat)
    ensures var e := Initial(height);
            && AtStartOfHeight(e) && e.height == height && e.lastVotes == map[] && e.jailed == {} && e.inGap == 0
  {
  }

  /** The record of the voter's place, and the jail if the vote contradicts it. */
  function Noted(e: State, v: Vote): State {
    var key := (v.voter, v.vtype);
    var contradicts :=
      && key in e.lastVotes && e.lastVotes[key].height == v.height && e.lastVotes[key].round == v.round
      && e.lastVotes[key].hash != v.hash;
    e.(lastVotes := e.lastVotes[key := VoteKey(v.height, v.round, v.hash)],
       jailed := if contradicts then e.jailed + {Norm(v.voter)} else e.jailed)
  }

  /** A vote with a bad signature, of a jailed voter, or for another height changes nothing. */
  lemma VoteRefused(c: Config, e: State, v: Vote, sigOk: bool, sealOk: bool)
    requires !sigOk || Norm(v.voter) in e.jailed || v.height != e.height
    ensures Step(c, e, DeliverVote(v, sigOk, sealOk)) == Outcome(e, None, None)
  {
  }

  /** A vote of an outsider may move the round, and nothing else. */
  lemma OutsiderVote(c: Config, e: State, v: Vote, sealOk: bool)
    requires !Registered(c, v.voter) && Norm(v.voter) !in e.jailed && v.height == e.height
    ensures Step(c, e, DeliverVote(v, true, sealOk)) ==
              if v.round > e.round
              then Outcome(e.(round := v.round, step := StepPropose, proposal := None,
                              prevotes := map[], precommits := map[]), None, None)
              else Outcome(e, None, None)
  {
    RegisteredIsKnown(c, v.voter);
  }

  lemma RegisteredIsKnown(c: Config, voter: string)
    ensures Known(c, voter) <==> Registered(c, voter)
  {
  }

  /** An acceptable vote of a registered voter for this height. */
  ghost predicate Eligible(c: Config, e: State, v: Vote) {
    Registered(c, v.voter) && Norm(v.voter) !in e.jailed && v.height == e.height
  }

  /** From a higher round: the engine follows, and the vote is the first of the new round. */
  lemma VoteAhead(c: Config, e: State, v: Vote, sealOk: bool)
    requires Eligible(c, e, v) && v.round > e.round
    ensures Step(c, e, DeliverVote(v, true, sealOk)) ==
              Outcome(Noted(e, v).(round := v.round, step := StepPropose, proposal := None,
                                   prevotes := if v.vtype == Prevote then map[Lower(v.voter) := v] else map[],
                                   precommits := if v.vtype == Precommit then map[Lower(v.voter) := v] else map[]),
                      None, None)
  {
    RegisteredIsKnown(c, v.voter);
  }

  /** From a lower round, or of a voter that is counted already: noted, and not counted. */
  lemma VoteNotCounted(c: Config, e: State, v: Vote, sealOk: bool)
    requires Eligible(c, e, v)
    requires v.round < e.round || (v.round == e.round && Lower(v.voter) in Tallied(e, v.vtype))
    ensures Step(c, e, DeliverVote(v, true, sealOk)) == Outcome(Noted(e, v), None, None)
  {
    RegisteredIsKnown(c, v.voter);
  }

  // ---------------------------------------------------------------- votes that are counted

  /** The engine's memory once the event's vote, if it has one, is noted and counted. */
  function Remembered(e: State, ev: Event): State {
    if !ev.DeliverVote? then e
    else if ev.v.vtype == Prevote then Noted(e, ev.v).(prevotes := e.prevotes[Lower(ev.v.voter) := ev.v])
    else Noted(e, ev.v).(precommits := e.precommits[Lower(ev.v.voter) := ev.v])
  }

  /** The first vote of a registered voter for this place. */
  ghost predicate First(c: Config, e: State, v: Vote) {
    Eligible(c, e, v) && v.round == e.round && Lower(v.voter) !in Tallied(e, v.vtype)
  }

  /** The event looks at the votes of this type: it polls them or delivers a first one. */
  ghost predicate Examines(c: Config, e: State, ev: Event, t: VoteType) {
    match ev
    case PollPrevotes => t == Prevote
    case PollPrecommits(_) => t == Precommit
    case DeliverVote(v, sigOk, _) => sigOk && v.vtype == t && First(c, e, v)
    case _ => false
  }

  /** In the matching step, with a quorum for the hash among the votes now counted. */
  ghost predicate Finds(c: Config, e: State, ev: Event, t: VoteType, hash: string) {
    e.step == VotingStep(t) && Tally(Tallied(Remembered(e, ev), t), hash) >= Quorum(c)
  }

  lemma FirstIsRecorded(c: Config, e: State, v: Vote)
    requires First(c, e, v)
    ensures ReceiveVote(c, e, v, true) == (Remembered(e, DeliverVote(v, true, true)), true)
  {
    RegisteredIsKnown(c, v.voter);
  }

  lemma RememberedOk(c: Config, e: State, ev: Event, t: VoteType)
    requires ValidConfig(c) && EngineOk(c, e) && Examines(c, e, ev, t)
    ensures EngineOk(c, Remembered(e, ev))
  {
    if ev.DeliverVote? {
      FirstIsRecorded(c, e, ev.v);
      ReceivedOk(c, e, ev.v, true);
    }
  }

  lemma FoundHash(c: Config, e: State, ev: Event, t: VoteType, hash: string)
    requires ValidConfig(c) && EngineOk(c, e) && Examines(c, e, ev, t) && Finds(c, e, ev, t, hash)
    ensures QuorumHash(Tallied(Remembered(e, ev), t), Quorum(c)) == Some(hash)
  {
    var m := Remembered(e, ev);
    RememberedOk(c, e, ev, t);
    QuorumHashUnique(c, Tallied(m, t), t, m.height, m.round, hash);
  }

  lemma StepExamines(c: Config, e: State, ev: Event, t: VoteType)
    requires Examines(c, e, ev, t)
    ensures t == Prevote ==> Step(c, e, ev) == FinalizePrevotes(c, Remembered(e, ev))
    ensures t == Precommit && ev.DeliverVote? ==> Step(c, e, ev) == FinalizePrecommits(c, Remembered(e, ev), ev.sealOk)
    ensures t == Precommit && ev.PollPrecommits? ==>
              Step(c, e, ev) == FinalizePrecommits(c, Remembered(e, ev), ev.sealOk)
  {
    if ev.DeliverVote? {
      FirstIsRecorded(c, e, ev.v);
    }
  }

  /** Without a quorum the vote is counted and nothing else happens. */
  lemma NothingFound(c: Config, e: State, ev: Event, t: VoteType)
    requires Examines(c, e, ev, t) && forall h :: !Finds(c, e, ev, t, h)
    ensures Step(c, e, ev) == Outcome(Remembered(e, ev), None, None)
  {
    StepExamines(c, e, ev, t);
    var m := Remembered(e, ev);
    if m.step == VotingStep(t) && QuorumHash(Tallied(m, t), Quorum(c)).Some? {
      assert Finds(c, e, ev, t, QuorumHash(Tallied(m, t), Quorum(c)).value);
    }
  }

  /** The engine's own vote for the place it is at. */
  function OwnVote(c: Config, e: State, t: VoteType, hash: string): Option<Vote> {
    if c.hasKey then Some(Vote(t, e.height, e.round, hash, Lower(c.addr))) else None
  }

  /** A tally with the own vote, when one is signed. */
  function WithOwn(c: Config, votes: map<string, Vote>, own: Option<Vote>): map<string, Vote> {
    if own.Some? then votes[c.addr := own.value] else votes
  }

  /** A prevote quorum: lock on its hash unless it is nil, go on to precommit, and precommit it. */
  lemma PrevoteQuorum(c: Config, e: State, ev: Event, h: string)
    requires ValidConfig(c) && EngineOk(c, e) && Examines(c, e, ev, Prevote) && Finds(c, e, ev, Prevote, h)
    ensures var own := OwnVote(c, e, Precommit, h);
            Step(c, e, ev) ==
              Outcome(Remembered(e, ev).(step := StepPrecommit,
                                         lockedHash := if h == "" then e.lockedHash else h,
                                         lockedRound := if h == "" then e.lockedRound else e.round,
                                         precommits := WithOwn(c, e.precommits, own)),
                      own, None)
  {
    FoundHash(c, e, ev, Prevote, h);
    StepExamines(c, e, ev, Prevote);
  }

  /** A precommit quorum for nil: on to the next round, as int32 counts. */
  lemma NilPrecommitQuorum(c: Config, e: State, ev: Event)
    requires ValidConfig(c) && EngineOk(c, e) && Examines(c, e, ev, Precommit) && Finds(c, e, ev, Precommit, "")
    ensures Step(c, e, ev) ==
              Outcome(Remembered(e, ev).(round := if e.round == MAX_INT32 then MIN_INT32 else e.round + 1,
                                         step := StepNewHeight, proposal := None,
                                         prevotes := map[], precommits := map[]),
                      None, None)
  {
    FoundHash(c, e, ev, Precommit, "");
    StepExamines(c, e, ev, Precommit);
  }

  function SealOk(ev: Event): bool {
    match ev
    case DeliverVote(_, _, sealOk) => sealOk
    case PollPrecommits(sealOk) => sealOk
    case _ => false
  }

  /** The engine holds a proposal with the hash and its block could be sealed. */
  predicate SealsMatching(e: State, ev: Event, h: string) {
    e.proposal.Some? && e.proposal.value.hash == h && SealOk(ev)
  }

  lemma CommitRule(m: State, h: string, sealOk: bool)
    ensures var o, matches := CommitBlock(m, h, sealOk), m.proposal.Some? && m.proposal.value.hash == h && sealOk;
            && o.sent == None && o.decided.Some?
            && o.decided.value.height == m.height && o.decided.value.round == m.round && o.decided.value.hash == h
            && (forall k :: k in o.decided.value.votes <==> k in m.precommits && m.precommits[k].hash == h)
            && (forall k | k in o.decided.value.votes :: o.decided.value.votes[k] == m.precommits[k])
            && o.state == if matches then m.(step := StepCommit, inGap := m.inGap + 1)
                          else m.(height := m.height + 1, round := 0, step := StepNewHeight, proposal := None,
                                  prevotes := map[], precommits := map[], lockedHash := "", lockedRound := -1)
  {
  }

  /** A precommit quorum for a hash: it is decided on exactly the counted precommits for it. With a sealed
      matching proposal the engine waits in the commit step; otherwise it starts the next height at once. */
  lemma BlockPrecommitQuorum(c: Config, e: State, ev: Event, h: string)
    requires ValidConfig(c) && EngineOk(c, e) && h != ""
    requires Examines(c, e, ev, Precommit) && Finds(c, e, ev, Precommit, h)
    ensures var m, o := Remembered(e, ev), Step(c, e, ev);
            && o.sent == None && o.decided.Some?
            && o.decided.value.height == e.height && o.decided.value.round == e.round && o.decided.value.hash == h
            && (forall k :: k in o.decided.value.votes <==> k in m.precommits && m.precommits[k].hash == h)
            && (forall k | k in o.decided.value.votes :: o.decided.value.votes[k] == m.precommits[k])
            && o.state == if SealsMatching(e, ev, h) then m.(step := StepCommit, inGap := e.inGap + 1)
                          else m.(height := e.height + 1, round := 0, step := StepNewHeight, proposal := None,
                                  prevotes := map[], precommits := map[], lockedHash := "", lockedRound := -1)
  {
    FoundHash(c, e, ev, Precommit, h);
    StepExamines(c, e, ev, Precommit);
    CommitRule(Remembered(e, ev), h, SealOk(ev));
  }

  // ---------------------------------------------------------------- time-outs

  /** Prevoting: the lock if there is one, else the proposal; nil without a proposal. */
  lemma ProposeTimeoutRule(c: Config, e: State)
    ensures var hash := if e.proposal.None? then ""
                        else if e.lockedRound >= 0 && e.lockedHash != "" then e.lockedHash
                        else e.proposal.value.hash;
            var own := OwnVote(c, e, Prevote, hash);
            Step(c, e, ProposeTimeout) ==
              if e.step == StepPropose
              then Outcome(e.(step := StepPrevote, prevotes := WithOwn(c, e.prevotes, own)), own, None)
              else Outcome(e, None, None)
  {
  }

  lemma PrevoteTimeoutRule(c: Config, e: State)
    ensures var own := OwnVote(c, e, Precommit, "");
            Step(c, e, PrevoteTimeout) ==
              if e.step == StepPrevote
              then Outcome(e.(step := StepPrecommit, precommits := WithOwn(c, e.precommits, own)), own, None)
              else Outcome(e, None, None)
  {
  }

  lemma PrecommitTimeoutRule(c: Config, e: State)
    ensures Step(c, e, PrecommitTimeout) ==
              if e.step == StepPrecommit
              then Outcome(e.(round := if e.round == MAX_INT32 then MIN_INT32 else e.round + 1, step := StepNewHeight,
                              proposal := None, prevotes := map[], precommits := map[]), None, None)
              else Outcome(e, None, None)
  {
  }

  lemma BeginProposeRule(c: Config, e: State)
    ensures Step(c, e, BeginPropose) ==
              if e.step == StepNewHeight || e.step == StepPropose
              then Outcome(e.(step := StepPropose, proposal := None,
                              prevotes := map[], precommits := map[]), None, None)
              else Outcome(e, None, None)
  {
  }

  /** The own proposal carries its arguments, the own address, and the hash of its fields. */
  lemma InstallProposalRule(c: Config, e: State, h: nat, r: Int32, prevHash: string, merkleRoot: string, timestamp: int)
    ensures var o := Step(c, e, InstallProposal(h, r, prevHash, merkleRoot, timestamp));
            && o.sent == None && o.decided == None
            && o.state.proposal.Some? && o.state == e.(proposal := o.state.proposal)
            && var p := o.state.proposal.value;
            && p.height == h && p.round == r && p.prevHash == prevHash && p.merkleRoot == merkleRoot
            && p.timestamp == timestamp && p.proposer == c.addr
            && p.hash == RecomputeBlockHash(c.sha, h, prevHash, merkleRoot, timestamp, c.addr)
  {
  }

  lemma FinishCommitRule(c: Config, e: State)
    ensures Step(c, e, FinishCommit) ==
              if e.inGap > 0
              then Outcome(e.(height := e.height + 1, round := 0, step := StepNewHeight, proposal := None,
                              prevotes := map[], precommits := map[], lockedHash := "", lockedRound := -1,
                              inGap := e.inGap - 1), None, None)
              else Outcome(e, None, None)
  {
  }

  lemma UnjailRule(c: Config, e: State, a: string)
    ensures Step(c, e, Unjail(a)) == Outcome(e.(jailed := set b | b in e.jailed && b != Norm(a)), None, None)
  {
    assert e.jailed - {Norm(a)} == set b | b in e.jailed && b != Norm(a);
  }

  // ---------------------------------------------------------------- proposals

  /** The source's conditions for taking over a proposal, one by one. */
  predicate Acceptable(c: Config, e: State, p: Proposal, sigOk: bool, leader: string, tip: Option<Tip>) {
    && sigOk
    && p.height == e.height && p.round >= e.round
    && (p.round > e.round || e.step == StepNewHeight || e.step == StepPropose)
    && (leader == "" || Lower(p.proposer) == Lower(leader))
    && tip.Some? && p.height == tip.value.latest + 1
    && (tip.value.latest == 0 ==> p.prevHash == "GENESIS")
    && (tip.value.latest > 0 ==> p.prevHash == tip.value.hash)
    && p.hash == RecomputeBlockHash(c.sha, p.height, p.prevHash, p.merkleRoot, p.timestamp, p.proposer)
  }

  /** Before a proposal is looked at: its round, if higher, is taken over. */
  function AtRound(e: State, p: Proposal, sigOk: bool): State {
    if sigOk && p.height == e.height && p.round > e.round
    then e.(round := p.round, step := StepPropose, proposal := None, prevotes := map[], precommits := map[])
    else e
  }

  /** WHEN A PROPOSAL IS ACCEPTED, and what follows: an acceptable one is installed and, in the propose step,
      prevoted, or the lock instead of it; any other leaves no trace but the round it came with. */
  lemma ProposalRule(c: Config, e: State, p: Proposal, sigOk: bool, leader: string, tip: Option<Tip>)
    ensures var o, m := Step(c, e, DeliverProposal(p, sigOk, leader, tip)), AtRound(e, p, sigOk);
            var locked := e.lockedRound >= 0 && e.lockedHash != "";
            var own := OwnVote(c, m, Prevote, if locked then e.lockedHash else p.hash);
            o == if !Acceptable(c, e, p, sigOk, leader, tip) then Outcome(m, None, None)
                 else if m.step != StepPropose then Outcome(m.(proposal := Some(p)), None, None)
                 else Outcome(m.(proposal := Some(p), step := StepPrevote, prevotes := WithOwn(c, m.prevotes, own)),
                              own, None)
  {
  }

  /** A delivered proposal becomes the engine's if and only if it is acceptable. */
  lemma AcceptedIff(c: Config, e: State, p: Proposal, sigOk: bool, leader: string, tip: Option<Tip>)
    requires e.proposal != Some(p)
    ensures Step(c, e, DeliverProposal(p, sigOk, leader, tip)).state.proposal == Some(p)
       <==> Acceptable(c, e, p, sigOk, leader, tip)
  {
    ProposalRule(c, e, p, sigOk, leader, tip);
  }

  // ---------------------------------------------------------------- heights

  /** WHEN THE HEIGHT MOVES. A section moves the height by one at most, to round 0 of the next one with nothing
      proposed, counted or locked; and it does so if and only if it decides without sealing a matching
      proposal, or ends a pacing gap. A decision with one leaves the engine where it is, in the commit step,
      with one more gap to end. */
  lemma HeightRule(c: Config, e: State, ev: Event)
    requires ValidConfig(c) && EngineOk(c, e)
    ensures var o := Step(c, e, ev);
            var sealed := o.decided.Some? && SealsMatching(e, ev, o.decided.value.hash);
            var ends := (o.decided.Some? && !sealed) || (ev.FinishCommit? && e.inGap > 0);
            && o.state.height == (if ends then e.height + 1 else e.height)
            && (ends ==> AtStartOfHeight(o.state) && o.state.inGap == if ev.FinishCommit? then e.inGap - 1 else e.inGap)
            && (sealed ==> o.state.step == StepCommit && o.state.round == e.round && o.state.inGap == e.inGap + 1
                           && o.state.lockedHash == e.lockedHash && o.state.proposal == e.proposal)
            && (!ends && !sealed ==> o.state.inGap == e.inGap)
  {
    match ev
    case DeliverVote(v, sigOk, sealOk) => VoteHeight(c, e, v, sigOk, sealOk);
    case PollPrevotes => ExaminedHeight(c, e, ev, Prevote);
    case PollPrecommits(sealOk) => ExaminedHeight(c, e, ev, Precommit);
    case DeliverProposal(p, sigOk, leader, tip) => ProposalRule(c, e, p, sigOk, leader, tip);
    case FinishCommit => FinishCommitRule(c, e);
    case _ =>
  }

  predicate AtStartOfHeight(e: State) {
    && e.round == 0 && e.step == StepNewHeight && e.proposal == None && e.prevotes == map[] && e.precommits == map[]
    && e.lockedHash == "" && e.lockedRound == -1
  }

  ghost predicate HeightMoves(c: Config, e: State, ev: Event) {
    var o := Step(c, e, ev);
    var sealed := o.decided.Some? && SealsMatching(e, ev, o.decided.value.hash);
    && o.state.height == (if o.decided.Some? && !sealed then e.height + 1 else e.height)
    && (o.decided.Some? && !sealed ==> AtStartOfHeight(o.state) && o.state.inGap == e.inGap)
    && (sealed ==> o.state.step == StepCommit && o.state.round == e.round && o.state.inGap == e.inGap + 1
                   && o.state.lockedHash == e.lockedHash && o.state.proposal == e.proposal)
    && (o.decided.None? ==> o.state.inGap == e.inGap)
  }

  lemma ExaminedHeight(c: Config, e: State, ev: Event, t: VoteType)
    requires ValidConfig(c) && EngineOk(c, e) && Examines(c, e, ev, t)
    ensures HeightMoves(c, e, ev)
  {
    if h :| Finds(c, e, ev, t, h) {
      if t == Prevote {
        PrevoteQuorum(c, e, ev, h);
      } else if h == "" {
        NilPrecommitQuorum(c, e, ev);
      } else {
        BlockPrecommitQuorum(c, e, ev, h);
      }
    } else {
      NothingFound(c, e, ev, t);
    }
  }

  lemma VoteHeight(c: Config, e: State, v: Vote, sigOk: bool, sealOk: bool)
    requires ValidConfig(c) && EngineOk(c, e)
    ensures HeightMoves(c, e, DeliverVote(v, sigOk, sealOk))
  {
    if !sigOk || Norm(v.voter) in e.jailed || v.height != e.height {
      VoteRefused(c, e, v, sigOk, sealOk);
    } else if !Registered(c, v.voter) {
      OutsiderVote(c, e, v, sealOk);
    } else if v.round > e.round {
      VoteAhead(c, e, v, sealOk);
    } else if First(c, e, v) {
      ExaminedHeight(c, e, DeliverVote(v, sigOk, sealOk), v.vtype);
    } else {
      VoteNotCounted(c, e, v, sealOk);
    }
  }

  // ---------------------------------------------------------------- counted votes stay

  predicate SamePosition(e: State, e': State) {
    e'.height == e.height && e'.round == e.round
  }

  /** The tally still holds the vote. */
  predicate Keeps(e: State, e': State, t: VoteType, k: string) {
    k in Tallied(e, t) ==> k in Tallied(e', t) && Tallied(e', t)[k] == Tallied(e, t)[k]
  }

  /** COUNTED VOTES STAY. While an engine stays at its height and round, no section takes a counted vote of
      another voter out of the tally or replaces it, except that beginning to propose empties the tally. */
  lemma CountedStays(c: Config, e: State, ev: Event, t: VoteType, k: string)
    requires ValidConfig(c) && EngineOk(c, e) && k != c.addr && !ev.BeginPropose?
    requires SamePosition(e, Step(c, e, ev).state)
    ensures Keeps(e, Step(c, e, ev).state, t, k)
  {
    match ev
    case DeliverVote(v, sigOk, sealOk) => DeliveryKeeps(c, e, v, sigOk, sealOk, t, k);
    case PollPrevotes => ExaminingKeeps(c, e, ev, Prevote, t, k);
    case PollPrecommits(sealOk) => ExaminingKeeps(c, e, ev, Precommit, t, k);
    case DeliverProposal(p, sigOk, leader, tip) => ProposalKeeps(c, e, p, sigOk, leader, tip, t, k);
    case _ => TimerKeeps(c, e, ev, t, k);
  }

  lemma ProposalKeeps(c: Config, e: State, p: Proposal, sigOk: bool, leader: string, tip: Option<Tip>, t: VoteType,
      k: string)
    requires k != c.addr && SamePosition(e, Step(c, e, DeliverProposal(p, sigOk, leader, tip)).state)
    ensures Keeps(e, Step(c, e, DeliverProposal(p, sigOk, leader, tip)).state, t, k)
  {
    ProposalRule(c, e, p, sigOk, leader, tip);
  }

  lemma TimerKeeps(c: Config, e: State, ev: Event, t: VoteType, k: string)
    requires IsTimer(ev) && k != c.addr && !ev.BeginPropose? && SamePosition(e, Step(c, e, ev).state)
    ensures Keeps(e, Step(c, e, ev).state, t, k)
  {
  }

  /** While the engine stays, an examining section adds to its tallies the vote it was given and the one it signs. */
  lemma ExaminedTallies(c: Config, e: State, ev: Event, x: VoteType)
    requires ValidConfig(c) && EngineOk(c, e) && Examines(c, e, ev, x)
    requires SamePosition(e, Step(c, e, ev).state)
    ensures var m, o := Remembered(e, ev), Step(c, e, ev);
            o.state.prevotes == m.prevotes && o.state.precommits == WithOwn(c, m.precommits, o.sent)
  {
    if h :| Finds(c, e, ev, x, h) {
      if x == Prevote {
        PrevoteQuorum(c, e, ev, h);
      } else if h == "" {
        NilPrecommitQuorum(c, e, ev);
      } else {
        BlockPrecommitQuorum(c, e, ev, h);
      }
    } else {
      NothingFound(c, e, ev, x);
    }
  }

  lemma ExaminingKeeps(c: Config, e: State, ev: Event, x: VoteType, t: VoteType, k: string)
    requires ValidConfig(c) && EngineOk(c, e) && Examines(c, e, ev, x)
    requires SamePosition(e, Step(c, e, ev).state)
    ensures k != c.addr || Step(c, e, ev).sent.None? ==> Keeps(e, Step(c, e, ev).state, t, k)
  {
    ExaminedTallies(c, e, ev, x);
  }

  /** A delivered vote leaves every counted entry as it was, the own one included unless the engine signs. */
  lemma DeliveryKeeps(c: Config, e: State, v: Vote, sigOk: bool, sealOk: bool, t: VoteType, k: string)
    requires ValidConfig(c) && EngineOk(c, e)
    requires SamePosition(e, Step(c, e, DeliverVote(v, sigOk, sealOk)).state)
    ensures var o := Step(c, e, DeliverVote(v, sigOk, sealOk));
            k != c.addr || o.sent.None? ==> Keeps(e, o.state, t, k)
  {
    if !sigOk || Norm(v.voter) in e.jailed || v.height != e.height {
      VoteRefused(c, e, v, sigOk, sealOk);
    } else if !Registered(c, v.voter) {
      OutsiderVote(c, e, v, sealOk);
    } else if v.round > e.round {
      VoteAhead(c, e, v, sealOk);
    } else if First(c, e, v) {
      ExaminingKeeps(c, e, DeliverVote(v, sigOk, sealOk), v.vtype, t, k);
    } else {
      VoteNotCounted(c, e, v, sealOk);
    }
  }

  /** And a first vote is in the tally afterwards, if the engine is still there. */
  lemma FirstIsCounted(c: Config, e: State, v: Vote, sealOk: bool)
    requires ValidConfig(c) && EngineOk(c, e) && First(c, e, v) && Lower(v.voter) != c.addr
    requires SamePosition(e, Step(c, e, DeliverVote(v, true, sealOk)).state)
    ensures var e' := Step(c, e, DeliverVote(v, true, sealOk)).state;
            Lower(v.voter) in Tallied(e', v.vtype) && Tallied(e', v.vtype)[Lower(v.voter)] == v
  {
    ExaminedTallies(c, e, DeliverVote(v, true, sealOk), v.vtype);
  }

  // ---------------------------------------------------------------- what is signed

  /** The own vote a section signs is in the own tally afterwards. */
  lemma SignedIsCounted(c: Config, e: State, ev: Event)
    requires ValidConfig(c) && EngineOk(c, e) && Step(c, e, ev).sent.Some?
    ensures var o := Step(c, e, ev);
            c.addr in Tallied(o.state, o.sent.value.vtype)
            && Tallied(o.state, o.sent.value.vtype)[c.addr] == o.sent.value
  {
    match ev
    case DeliverVote(v, sigOk, sealOk) => DeliverySigns(c, e, v, sigOk, sealOk);
    case PollPrevotes => ExaminingSigns(c, e, ev, Prevote);
    case PollPrecommits(sealOk) => ExaminingSigns(c, e, ev, Precommit);
    case DeliverProposal(p, sigOk, leader, tip) => ProposalRule(c, e, p, sigOk, leader, tip);
    case _ =>
  }

  /** An examining section signs nothing but the precommit of the hash it found a prevote quorum for. */
  lemma ExaminingSigns(c: Config, e: State, ev: Event, t: VoteType)
    requires ValidConfig(c) && EngineOk(c, e) && Examines(c, e, ev, t)
    ensures var o := Step(c, e, ev);
            o.sent.Some? ==>
              && t == Prevote && Finds(c, e, ev, Prevote, o.sent.value.hash)
              && o.sent == OwnVote(c, e, Precommit, o.sent.value.hash)
              && c.addr in o.state.precommits && o.state.precommits[c.addr] == o.sent.value
  {
    if h :| Finds(c, e, ev, t, h) {
      if t == Prevote {
        PrevoteQuorum(c, e, ev, h);
      } else if h == "" {
        NilPrecommitQuorum(c, e, ev);
      } else {
        BlockPrecommitQuorum(c, e, ev, h);
      }
    } else {
      NothingFound(c, e, ev, t);
    }
  }

  lemma DeliverySigns(c: Config, e: State, v: Vote, sigOk: bool, sealOk: bool)
    requires ValidConfig(c) && EngineOk(c, e)
    ensures var o := Step(c, e, DeliverVote(v, sigOk, sealOk));
            o.sent.Some? ==>
              && o.sent.value.vtype == Precommit
              && c.addr in o.state.precommits && o.state.precommits[c.addr] == o.sent.value
  {
    if !sigOk || Norm(v.voter) in e.jailed || v.height != e.height {
      VoteRefused(c, e, v, sigOk, sealOk);
    } else if !Registered(c, v.voter) {
      OutsiderVote(c, e, v, sealOk);
    } else if v.round > e.round {
      VoteAhead(c, e, v, sealOk);
    } else if First(c, e, v) {
      ExaminingSigns(c, e, DeliverVote(v, sigOk, sealOk), v.vtype);
    } else {
      VoteNotCounted(c, e, v, sealOk);
    }
  }

  /** The engine prevotes in this section, and for what: nil without a proposal, its lock when it has one, and
      otherwise the proposal it holds or is given. */
  lemma PrevoteIsForProposal(c: Config, e: State, ev: Event)
    requires ValidConfig(c) && EngineOk(c, e)
    requires Step(c, e, ev).sent.Some? && Step(c, e, ev).sent.value.vtype == Prevote
    requires Step(c, e, ev).sent.value.hash != "" && e.lockedHash == ""
    ensures var o := Step(c, e, ev);
            || (ev == ProposeTimeout && e.proposal.Some? && o.sent.value.hash == e.proposal.value.hash)
            || (ev.DeliverProposal? && Acceptable(c, e, ev.p, ev.sigOk, ev.leader, ev.tip)
                && o.sent.value.hash == ev.p.hash)
  {
    match ev
    case DeliverVote(v, sigOk, sealOk) => DeliverySigns(c, e, v, sigOk, sealOk);
    case PollPrevotes => ExaminingSigns(c, e, ev, Prevote);
    case PollPrecommits(sealOk) => ExaminingSigns(c, e, ev, Precommit);
    case DeliverProposal(p, sigOk, leader, tip) => ProposalRule(c, e, p, sigOk, leader, tip);
    case _ =>
  }
}
