/**
 One BFT engine as a value and its critical sections as functions (internal/consensus/bft.go).
 Every function here is one stretch of code that runs under the engine's mutex; `Step` dispatches an
 event to its section. `EngineClass.BFTEngine` is the mutable engine proved against these functions.
 */
module Engine {
  import opened Text
  import opened Votes
  import opened BlockHash

  datatype RoundStep = StepNewHeight | StepPropose | StepPrevote | StepPrecommit | StepCommit

  function Rank(s: RoundStep): nat {
    match s
    case StepNewHeight => 0
    case StepPropose => 1
    case StepPrevote => 2
    case StepPrecommit => 3
    case StepCommit => 4
  }

  datatype Proposal = Proposal(height: nat, round: Int32, hash: string, prevHash: string, merkleRoot: string,
    timestamp: int, proposer: string)

  /** The chain tip an engine checks proposals against. */
  datatype Tip = Tip(latest: nat, hash: string)

  /** The last vote seen under one spelling of a voter and one type. */
  datatype VoteKey = VoteKey(height: nat, round: Int32, hash: string)

  /** What does not change while an engine runs. */
  datatype Config = Config(validators: set<string>, addr: string, hasKey: bool, sha: Sha)

  datatype State = State(
    height: nat,
    round: Int32,
    step: RoundStep,
    proposal: Option<Proposal>,
    lockedHash: string,
    lockedRound: Int32,
    prevotes: map<string, Vote>,
    precommits: map<string, Vote>,
    lastVotes: map<(string, VoteType), VoteKey>,
    jailed: set<string>,
    inGap: nat   // commits that released the mutex and still have to advance the height
  )

  /** A decision with the precommits that certify it. */
  datatype Commit = Commit(height: nat, round: Int32, hash: string, votes: map<string, Vote>)

  /** What one critical section does: the next state, the vote it signs, the decision it takes. */
  datatype Outcome = Outcome(state: State, sent: Option<Vote>, decided: Option<Commit>)

  datatype Event =
    | DeliverProposal(p: Proposal, sigOk: bool, leader: string, tip: Option<Tip>)
    | DeliverVote(v: Vote, sigOk: bool, sealOk: bool)
    | BeginPropose
    | InstallProposal(height: nat, round: Int32, prevHash: string, merkleRoot: string, timestamp: int)
    | ProposeTimeout
    | PollPrevotes
    | PrevoteTimeout
    | PollPrecommits(sealOk: bool)
    | PrecommitTimeout
    | FinishCommit
    | Unjail(addr: string)

  function Idle(e: State): Outcome {
    Outcome(e, None, None)
  }

  /** The state an engine starts the loop in, aligned to the tip. */
  function Initial(height: nat): State {
    State(height, 0, StepNewHeight, None, "", -1, map[], map[], map[], {}, 0)
  }

  function ValidatorCount(c: Config): nat {
    if |c.validators| == 0 then 1 else |c.validators|
  }

  function Quorum(c: Config): int {
    QuorumSize(ValidatorCount(c))
  }

  predicate Known(c: Config, voter: string) {
    if |c.validators| == 0 then Lower(voter) == Lower(c.addr)
    else exists a | a in c.validators :: Lower(a) == Lower(voter)
  }

  // ---------------------------------------------------------------- tallies

  ghost function Backers(votes: map<string, Vote>, hash: string): set<string> {
    set k | k in votes && votes[k].hash == hash
  }

  ghost function Tally(votes: map<string, Vote>, hash: string): nat {
    |Backers(votes, hash)|
  }

  /** The hash that has a quorum, if one has. */
  ghost function QuorumHash(votes: map<string, Vote>, q: int): (r: Option<string>)
    ensures r.Some? ==> Tally(votes, r.value) >= q
    ensures r.None? ==> forall h :: Tally(votes, h) < q
  {
    if exists h :: Tally(votes, h) >= q then
      var h :| Tally(votes, h) >= q;
      Some(h)
    else None
  }

  /** When a quorum is more than half of the tally, no two hashes reach it. */
  lemma AtMostOneQuorum(votes: map<string, Vote>, q: int, a: string, b: string)
    requires 2 * q > |votes|
    requires Tally(votes, a) >= q && Tally(votes, b) >= q
    ensures a == b
  {
    if a != b {
      var x, y := Backers(votes, a), Backers(votes, b);
      assert x !! y;
      assert |x + y| == |x| + |y|;
      assert x + y <= votes.Keys;
      SubsetCard(x + y, votes.Keys);
    }
  }

  // ---------------------------------------------------------------- critical sections

  function BroadcastVote(c: Config, e: State, t: VoteType, hash: string): Outcome {
    if !c.hasKey then Idle(e)
    else
      var v := Vote(t, e.height, e.round, hash, Lower(c.addr));
      Outcome(if t == Prevote then e.(prevotes := e.prevotes[c.addr := v])
              else e.(precommits := e.precommits[c.addr := v]),
              Some(v), None)
  }

  function PrevoteHash(e: State): string {
    if e.proposal.None? then ""
    else if e.lockedRound >= 0 && e.lockedHash != "" then e.lockedHash
    else e.proposal.value.hash
  }

  function EnterPrevote(c: Config, e: State): Outcome {
    BroadcastVote(c, e.(step := StepPrevote), Prevote, PrevoteHash(e))
  }

  function JumpRound(e: State, round: Int32): State {
    e.(round := round, step := StepPropose, proposal := None, prevotes := map[], precommits := map[])
  }

  /** Go's int32 increment. */
  function NextRound(round: Int32): Int32 {
    if round == MAX_INT32 then MIN_INT32 else round + 1
  }

  function AdvanceRound(e: State): State {
    e.(round := NextRound(e.round), step := StepNewHeight, proposal := None, prevotes := map[], precommits := map[])
  }

  function AdvanceHeight(e: State): State {
    e.(height := e.height + 1, round := 0, step := StepNewHeight, proposal := None,
       prevotes := map[], precommits := map[], lockedHash := "", lockedRound := -1)
  }

  function ValidProposal(c: Config, p: Proposal, tip: Option<Tip>): bool {
    && tip.Some?
    && p.height == tip.value.latest + 1
    && p.prevHash == (if tip.value.latest == 0 then "GENESIS" else tip.value.hash)
    && RecomputeBlockHash(c.sha, p.height, p.prevHash, p.merkleRoot, p.timestamp, p.proposer) == p.hash
  }

  function HandleProposal(c: Config, e: State, p: Proposal, sigOk: bool, leader: string, tip: Option<Tip>): Outcome {
    if !sigOk || p.height != e.height || p.round < e.round then Idle(e)
    else
      var e1 := if p.round > e.round then JumpRound(e, p.round) else e;
      if Rank(e1.step) > Rank(StepPropose) then Idle(e1)
      else if leader != "" && Lower(p.proposer) != Lower(leader) then Idle(e1)
      else if !ValidProposal(c, p, tip) then Idle(e1)
      else
        var e2 := e1.(proposal := Some(p));
        if e2.step == StepPropose then EnterPrevote(c, e2) else Idle(e2)
  }

  /** Double-sign detection: the evidence check, the jailing and the new record. */
  function RecordLast(e: State, v: Vote): State {
    var key := (v.voter, v.vtype);
    var double := key in e.lastVotes && e.lastVotes[key].height == v.height && e.lastVotes[key].round == v.round
                  && e.lastVotes[key].hash != v.hash;
    e.(jailed := if double then e.jailed + {Norm(v.voter)} else e.jailed,
       lastVotes := e.lastVotes[key := VoteKey(v.height, v.round, v.hash)])
  }

  function RecordVote(e: State, v: Vote): (State, bool) {
    var k := Lower(v.voter);
    if v.vtype == Prevote then
      if k in e.prevotes || v.round != e.round then (e, false)
      else (e.(prevotes := e.prevotes[k := v]), true)
    else
      if k in e.precommits || v.round != e.round then (e, false)
      else (e.(precommits := e.precommits[k := v]), true)
  }

  /** Everything HandleVote does before it tries to finalise; the flag says whether it gets there. */
  function ReceiveVote(c: Config, e: State, v: Vote, sigOk: bool): (State, bool) {
    if !sigOk || Norm(v.voter) in e.jailed then (e, false)
    else
      var e1 := if v.height == e.height && v.round > e.round then JumpRound(e, v.round) else e;
      if v.height != e1.height || !Known(c, v.voter) then (e1, false)
      else RecordVote(RecordLast(e1, v), v)
  }

  ghost function HandleVote(c: Config, e: State, v: Vote, sigOk: bool, sealOk: bool): Outcome {
    var (e1, recorded) := ReceiveVote(c, e, v, sigOk);
    if !recorded then Idle(e1)
    else if v.vtype == Prevote then FinalizePrevotes(c, e1)
    else FinalizePrecommits(c, e1, sealOk)
  }

  ghost function FinalizePrevotes(c: Config, e: State): Outcome {
    if e.step != StepPrevote then Idle(e)
    else
      match QuorumHash(e.prevotes, Quorum(c))
      case None => Idle(e)
      case Some(h) =>
        var e1 := if h != "" then e.(lockedHash := h, lockedRound := e.round) else e;
        BroadcastVote(c, e1.(step := StepPrecommit), Precommit, h)
  }

  ghost function FinalizePrecommits(c: Config, e: State, sealOk: bool): Outcome {
    if e.step != StepPrecommit then Idle(e)
    else
      match QuorumHash(e.precommits, Quorum(c))
      case None => Idle(e)
      case Some(h) => if h == "" then Idle(AdvanceRound(e)) else CommitBlock(e, h, sealOk)
  }

  function Certificate(votes: map<string, Vote>, hash: string): map<string, Vote> {
    map k | k in votes && votes[k].hash == hash :: votes[k]
  }

  /** The decision. Only a sealed matching proposal holds the height until the pacing gap is over. */
  function CommitBlock(e: State, hash: string, sealOk: bool): Outcome {
    var e1 := e.(step := StepCommit);
    Outcome(if e.proposal.Some? && e.proposal.value.hash == hash && sealOk then e1.(inGap := e.inGap + 1)
            else AdvanceHeight(e1),
            None, Some(Commit(e.height, e.round, hash, Certificate(e.precommits, hash))))
  }

  function BeginProposing(e: State): State {
    if e.step == StepNewHeight || e.step == StepPropose
    then e.(step := StepPropose, proposal := None, prevotes := map[], precommits := map[])
    else e
  }

  function OwnProposal(c: Config, height: nat, round: Int32, prevHash: string, merkleRoot: string,
      timestamp: int): Proposal {
    Proposal(height, round, RecomputeBlockHash(c.sha, height, prevHash, merkleRoot, timestamp, c.addr), prevHash,
      merkleRoot, timestamp, c.addr)
  }

  ghost function Step(c: Config, e: State, ev: Event): Outcome {
    match ev
    case DeliverProposal(p, sigOk, leader, tip) => HandleProposal(c, e, p, sigOk, leader, tip)
    case DeliverVote(v, sigOk, sealOk) => HandleVote(c, e, v, sigOk, sealOk)
    case BeginPropose => Idle(BeginProposing(e))
    case InstallProposal(h, r, prev, m, ts) => Idle(e.(proposal := Some(OwnProposal(c, h, r, prev, m, ts))))
    case ProposeTimeout => if e.step == StepPropose then EnterPrevote(c, e) else Idle(e)
    case PollPrevotes => FinalizePrevotes(c, e)
    case PrevoteTimeout =>
      if e.step == StepPrevote then BroadcastVote(c, e.(step := StepPrecommit), Precommit, "") else Idle(e)
    case PollPrecommits(sealOk) => FinalizePrecommits(c, e, sealOk)
    case PrecommitTimeout => if e.step == StepPrecommit then Idle(AdvanceRound(e)) else Idle(e)
    case FinishCommit => if e.inGap > 0 then Idle(AdvanceHeight(e.(inGap := e.inGap - 1))) else Idle(e)
    case Unjail(a) => Idle(e.(jailed := e.jailed - {Norm(a)}))
  }

  // ---------------------------------------------------------------- positions

  /** (height, round, step), compared lexicographically. */
  predicate NotBefore(h1: nat, r1: int, s1: nat, h2: nat, r2: int, s2: nat) {
    h1 < h2 || (h1 == h2 && (r1 < r2 || (r1 == r2 && s1 <= s2)))
  }

  predicate Before(h1: nat, r1: int, s1: nat, h2: nat, r2: int, s2: nat) {
    h1 < h2 || (h1 == h2 && (r1 < r2 || (r1 == r2 && s1 < s2)))
  }

  predicate Progress(e: State, e': State) {
    NotBefore(e.height, e.round, Rank(e.step), e'.height, e'.round, Rank(e'.step))
  }

  function VoteRank(t: VoteType): nat {
    if t == Prevote then 2 else 3
  }

  /** The event makes the engine give up its round after precommit. */
  ghost predicate GivesUpRound(c: Config, e: State, ev: Event) {
    match ev
    case PrecommitTimeout => e.step == StepPrecommit
    case PollPrecommits(_) => e.step == StepPrecommit && QuorumHash(e.precommits, Quorum(c)) == Some("")
    case DeliverVote(v, sigOk, _) =>
      var (e1, recorded) := ReceiveVote(c, e, v, sigOk);
      recorded && v.vtype == Precommit && e1.step == StepPrecommit && QuorumHash(e1.precommits, Quorum(c)) == Some("")
    case _ => false
  }

  /** The only way back in (height, round, step) is the int32 round counter running over. */
  lemma ProgressUnlessRoundWraps(c: Config, e: State, ev: Event)
    ensures Progress(e, Step(c, e, ev).state) <==> !(GivesUpRound(c, e, ev) && e.round == MAX_INT32)
  {
    match ev
    case DeliverVote(v, sigOk, sealOk) =>
      ReceiveProgress(c, e, v, sigOk);
      var e1 := ReceiveVote(c, e, v, sigOk).0;
      PrevotesProgress(c, e1);
      PrecommitsProgress(c, e1, sealOk);
    case PollPrevotes => PrevotesProgress(c, e);
    case PollPrecommits(sealOk) => PrecommitsProgress(c, e, sealOk);
    case DeliverProposal(p, sigOk, leader, tip) => ProposalProgress(c, e, p, sigOk, leader, tip);
    case _ =>
  }

  lemma ReceiveProgress(c: Config, e: State, v: Vote, sigOk: bool)
    ensures var (e1, _) := ReceiveVote(c, e, v, sigOk);
            && Progress(e, e1)
            && e1.height == e.height
            && (e1.step == StepPrecommit ==> e1.round == e.round && e.step == StepPrecommit)
  {
  }

  lemma ProposalProgress(c: Config, e: State, p: Proposal, sigOk: bool, leader: string, tip: Option<Tip>)
    ensures Progress(e, HandleProposal(c, e, p, sigOk, leader, tip).state)
  {
  }

  lemma PrevotesProgress(c: Config, e: State)
    ensures Progress(e, FinalizePrevotes(c, e).state)
  {
  }

  lemma PrecommitsProgress(c: Config, e: State, sealOk: bool)
    ensures Progress(e, FinalizePrecommits(c, e, sealOk).state)
       <==> !(e.step == StepPrecommit && QuorumHash(e.precommits, Quorum(c)) == Some("") && e.round == MAX_INT32)
  {
  }
}
