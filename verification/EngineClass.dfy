/**
 The mutable engine (internal/consensus/bft.go). Each method is one critical section: it updates the
 fields the way the source does, and its postcondition equates the new fields, the signed vote and
 the decision with `Engine.Step` of the old fields. Maps are walked in an arbitrary order, as Go's
 `range` does.
 */
module EngineClass {
  import opened Text
  import opened Votes
  import opened BlockHash
  import opened Engine
  import opened EngineSafety

  // ---------------------------------------------------------------- counting

  ghost function BackersAmong(votes: map<string, Vote>, keys: set<string>, hash: string): set<string>
    requires keys <= votes.Keys
  {
    set k | k in keys && votes[k].hash == hash
  }

  lemma BackersStep(votes: map<string, Vote>, keys: set<string>, k: string, hash: string)
    requires keys <= votes.Keys && k in votes && k !in keys
    ensures |BackersAmong(votes, keys + {k}, hash)|
      == |BackersAmong(votes, keys, hash)| + (if votes[k].hash == hash then 1 else 0)
  {
    if votes[k].hash == hash {
      assert BackersAmong(votes, keys + {k}, hash) == BackersAmong(votes, keys, hash) + {k};
    } else {
      assert BackersAmong(votes, keys + {k}, hash) == BackersAmong(votes, keys, hash);
    }
  }

  function CountOf(counts: map<string, nat>, hash: string): nat {
    if hash in counts then counts[hash] else 0
  }

  /** The counts are those of the votes under the given keys. */
  ghost predicate Counted(counts: map<string, nat>, votes: map<string, Vote>, keys: set<string>)
    requires keys <= votes.Keys
  {
    && (forall h :: CountOf(counts, h) == |BackersAmong(votes, keys, h)|)
    && (forall h | h in counts :: counts[h] >= 1)
  }

  lemma CountNext(counts: map<string, nat>, votes: map<string, Vote>, keys: set<string>, k: string)
    requires keys <= votes.Keys && k in votes && k !in keys && Counted(counts, votes, keys)
    ensures Counted(counts[votes[k].hash := CountOf(counts, votes[k].hash) + 1], votes, keys + {k})
  {
    var hash := votes[k].hash;
    var counts' := counts[hash := CountOf(counts, hash) + 1];
    forall h ensures CountOf(counts', h) == |BackersAmong(votes, keys + {k}, h)| {
      BackersStep(votes, keys, k, h);
    }
  }

  lemma CountedAll(counts: map<string, nat>, votes: map<string, Vote>)
    requires Counted(counts, votes, votes.Keys)
    ensures forall h :: CountOf(counts, h) == Tally(votes, h)
  {
    forall h ensures CountOf(counts, h) == Tally(votes, h) {
      assert Backers(votes, h) == BackersAmong(votes, votes.Keys, h);
    }
  }

  /** Counts votes by hash; the order in which they are taken does not show. */
  method CountVotes(votes: map<string, Vote>) returns (counts: map<string, nat>)
    ensures forall h :: CountOf(counts, h) == Tally(votes, h)
    ensures forall h | h in counts :: counts[h] >= 1
  {
    counts := map[];
    var left := votes.Keys;
    assert forall h :: BackersAmong(votes, {}, h) == {};
    while left != {}
      invariant left <= votes.Keys
      invariant Counted(counts, votes, votes.Keys - left)
      decreases left
    {
      var k :| k in left;
      CountNext(counts, votes, votes.Keys - left, k);
      assert votes.Keys - (left - {k}) == votes.Keys - left + {k};
      counts := counts[votes[k].hash := CountOf(counts, votes[k].hash) + 1];
      left := left - {k};
    }
    assert votes.Keys - left == votes.Keys;
    CountedAll(counts, votes);
  }

  /** The prevote scan: first hash with a quorum, in any order, then the separate look at nil. The
      result does not depend on the order, and the separate look never finds anything. */
  method ScanPrevotes(votes: map<string, Vote>, q: int) returns (winner: Option<string>, trailingNil: bool)
    requires q >= 1 && 2 * q > |votes|
    ensures winner == QuorumHash(votes, q)
    ensures !trailingNil
  {
    var counts := CountVotes(votes);
    winner, trailingNil := None, false;
    var left := counts.Keys;
    while left != {}
      invariant left <= counts.Keys
      invariant forall h | h in counts && h !in left :: counts[h] < q
      decreases left
    {
      var h :| h in left;
      if counts[h] >= q {
        winner := Some(h);
        assert Tally(votes, h) >= q;
        AtMostOneQuorum(votes, q, h, QuorumHash(votes, q).value);
        return;
      }
      left := left - {h};
    }
    assert forall h :: Tally(votes, h) < q;
    trailingNil := "" in counts && counts[""] >= q;
  }

  /** The precommit scan: a block with a quorum wins, otherwise nil is looked up. */
  method ScanPrecommits(votes: map<string, Vote>, q: int) returns (winner: Option<string>, nilQuorum: bool)
    requires q >= 1 && 2 * q > |votes|
    ensures winner.Some? ==> winner.value != "" && QuorumHash(votes, q) == winner && !nilQuorum
    ensures nilQuorum <==> QuorumHash(votes, q) == Some("")
    ensures winner.None? && !nilQuorum <==> QuorumHash(votes, q).None?
  {
    var counts := CountVotes(votes);
    winner, nilQuorum := None, false;
    var left := counts.Keys;
    while left != {}
      invariant left <= counts.Keys
      invariant forall h | h in counts && h !in left && h != "" :: counts[h] < q
      decreases left
    {
      var h :| h in left;
      if counts[h] >= q && h != "" {
        winner := Some(h);
        assert Tally(votes, h) >= q;
        AtMostOneQuorum(votes, q, h, QuorumHash(votes, q).value);
        return;
      }
      left := left - {h};
    }
    nilQuorum := "" in counts && counts[""] >= q;
    assert forall h | h != "" :: Tally(votes, h) < q;
    assert nilQuorum <==> Tally(votes, "") >= q;
  }

  // ---------------------------------------------------------------- the engine

  class BFTEngine {
    const validators: seq<string>
    const addr: string
    const hasKey: bool
    const sha: Sha

    var height: nat
    var round: Int32
    var step: RoundStep
    var proposal: Option<Proposal>
    var lockedHash: string
    var lockedRound: Int32
    var prevotes: map<string, Vote>
    var precommits: map<string, Vote>
    var lastVotes: map<(string, VoteType), VoteKey>
    var jailed: set<string>
    var inGap: nat

    ghost function Cfg(): Config {
      Config(Elements(validators), addr, hasKey, sha)
    }

    ghost function View(): State
      reads this
    {
      State(height, round, step, proposal, lockedHash, lockedRound, prevotes, precommits, lastVotes, jailed, inGap)
    }

    ghost predicate Valid()
      reads this
    {
      Registered() && EngineOk(Cfg(), View())
    }

    ghost predicate Registered() {
      Distinct(validators) && ValidConfig(Cfg())
    }

    ghost predicate Wraps(e: State, ev: Event) {
      GivesUpRound(Cfg(), e, ev) && e.round == MAX_INT32
    }

    constructor (validators: seq<string>, addr: string, hasKey: bool, sha: Sha, latest: nat)
      requires Distinct(validators) && addr in validators && forall v | v in validators :: Canonical(v)
      ensures Valid() && View() == Initial(latest + 1)
      ensures this.validators == validators && this.addr == addr && this.hasKey == hasKey && this.sha == sha
    {
      this.validators, this.addr, this.hasKey, this.sha := validators, addr, hasKey, sha;
      height, round, step, proposal := latest + 1, 0, StepNewHeight, None;
      lockedHash, lockedRound := "", -1;
      prevotes, precommits, lastVotes, jailed, inGap := map[], map[], map[], {}, 0;
    }

    function QuorumNow(): int {
      QuorumSize(if |validators| == 0 then 1 else |validators|)
    }

    lemma QuorumFacts()
      requires Valid()
      ensures QuorumNow() == Quorum(Cfg()) && QuorumNow() >= 1
      ensures 2 * QuorumNow() > |prevotes| && 2 * QuorumNow() > |precommits|
    {
      DistinctCount(validators);
      assert addr in validators;
      TallyBound(Cfg(), prevotes, Prevote, height, round);
      TallyBound(Cfg(), precommits, Precommit, height, round);
      QuorumBounds(|validators|, 0);
    }

    method BroadcastVote(t: VoteType, hash: string) returns (sent: Option<Vote>)
      modifies this`prevotes, this`precommits
      ensures Outcome(View(), sent, None) == Engine.BroadcastVote(Cfg(), old(View()), t, hash)
    {
      if !hasKey {
        return None;
      }
      var v := Vote(t, height, round, hash, Lower(addr));
      if t == Prevote {
        prevotes := prevotes[addr := v];
      } else {
        precommits := precommits[addr := v];
      }
      sent := Some(v);
    }

    method EnterPrevote() returns (sent: Option<Vote>)
      modifies this`step, this`prevotes, this`precommits
      ensures Outcome(View(), sent, None) == Engine.EnterPrevote(Cfg(), old(View()))
    {
      step := StepPrevote;
      var hash := "";
      if proposal.Some? {
        if lockedRound >= 0 && lockedHash != "" {
          hash := lockedHash;
        } else {
          hash := proposal.value.hash;
        }
      }
      sent := BroadcastVote(Prevote, hash);
    }

    method JumpRound(r: Int32)
      modifies this`round, this`step, this`proposal, this`prevotes, this`precommits
      ensures View() == Engine.JumpRound(old(View()), r)
    {
      round := r;
      step := StepPropose;
      proposal := None;
      prevotes := map[];
      precommits := map[];
    }

    method HandleProposal(p: Proposal, sigOk: bool, leader: string, tip: Option<Tip>) returns (sent: Option<Vote>)
      requires Valid()
      modifies this`round, this`step, this`proposal, this`prevotes, this`precommits
      ensures Outcome(View(), sent, None) == Step(Cfg(), old(View()), DeliverProposal(p, sigOk, leader, tip))
      ensures Valid()
    {
      ProposalStaysOk(View(), p, sigOk, leader, tip);
      sent := ReceiveProposal(p, sigOk, leader, tip);
    }

    method ReceiveProposal(p: Proposal, sigOk: bool, leader: string, tip: Option<Tip>) returns (sent: Option<Vote>)
      modifies this`round, this`step, this`proposal, this`prevotes, this`precommits
      ensures Outcome(View(), sent, None) == Engine.HandleProposal(Cfg(), old(View()), p, sigOk, leader, tip)
    {
      sent := None;
      if !sigOk || p.height < height || p.height > height {
        return;
      }
      if p.round > round {
        JumpRound(p.round);
      } else if p.round < round {
        return;
      }
      if Rank(step) > Rank(StepPropose) {
        return;
      }
      if leader != "" && Lower(p.proposer) != Lower(leader) {
        return;
      }
      var valid := ValidateProposal(p, tip);
      if valid {
        sent := InstallReceived(p);
      }
    }

    method ValidateProposal(p: Proposal, tip: Option<Tip>) returns (ok: bool)
      ensures ok == ValidProposal(Cfg(), p, tip)
    {
      if tip.None? || p.height != tip.value.latest + 1 {
        return false;
      }
      var expectedPrev := if tip.value.latest == 0 then "GENESIS" else tip.value.hash;
      if p.prevHash != expectedPrev {
        return false;
      }
      ok := RecomputeBlockHash(sha, p.height, p.prevHash, p.merkleRoot, p.timestamp, p.proposer) == p.hash;
    }

    method InstallReceived(p: Proposal) returns (sent: Option<Vote>)
      modifies this`proposal, this`step, this`prevotes, this`precommits
      ensures Outcome(View(), sent, None) ==
                var e := old(View()).(proposal := Some(p));
                if e.step == StepPropose then Engine.EnterPrevote(Cfg(), e) else Idle(e)
    {
      sent := None;
      proposal := Some(p);
      if step == StepPropose {
        sent := EnterPrevote();
      }
    }

    lemma ProposalStaysOk(e: State, p: Proposal, sigOk: bool, leader: string, tip: Option<Tip>)
      requires Registered() && EngineOk(Cfg(), e)
      ensures EngineOk(Cfg(), Engine.HandleProposal(Cfg(), e, p, sigOk, leader, tip).state)
    {
      ProposalKeepsOk(Cfg(), e, p, sigOk, leader, tip);
    }

    /** The loop over the registered validators. */
    method IsKnown(voter: string) returns (known: bool)
      ensures known == Known(Cfg(), voter)
    {
      known := false;
      var i := 0;
      while i < |validators| && !known
        invariant 0 <= i <= |validators|
        invariant !known ==> forall j | 0 <= j < i :: Lower(validators[j]) != Lower(voter)
        invariant known ==> exists a | a in validators :: Lower(a) == Lower(voter)
      {
        known := Lower(validators[i]) == Lower(voter);
        assert validators[i] in validators;
        i := i + 1;
      }
      if |validators| == 0 {
        known := Lower(voter) == Lower(addr);
        assert Elements(validators) == {};
      } else {
        assert validators[0] in Elements(validators);
      }
    }

    /** Double-sign detection. */
    method CheckDoubleSign(v: Vote)
      modifies this`lastVotes, this`jailed
      ensures View() == RecordLast(old(View()), v)
    {
      var key := (v.voter, v.vtype);
      if key in lastVotes {
        var prev := lastVotes[key];
        if prev.height == v.height && prev.round == v.round && prev.hash != v.hash {
          jailed := jailed + {Norm(v.voter)};
        }
      }
      lastVotes := lastVotes[key := VoteKey(v.height, v.round, v.hash)];
    }

    /** HandleVote up to the point where it tries to finalise. */
    method Receive(v: Vote, sigOk: bool) returns (recorded: bool)
      requires Valid()
      modifies this
      ensures (View(), recorded) == ReceiveVote(Cfg(), old(View()), v, sigOk)
      ensures Valid()
    {
      ghost var c := Cfg();
      KnownMeansRegistered(c, v.voter);
      ReceiveKeepsOk(c, View(), v, sigOk);
      if !sigOk || Norm(v.voter) in jailed {
        return false;
      }
      if v.height == height && v.round > round {
        JumpRound(v.round);
      }
      if v.height != height {
        return false;
      }
      var known := IsKnown(v.voter);
      if !known {
        return false;
      }
      CheckDoubleSign(v);
      recorded := Count(v);
    }

    method Count(v: Vote) returns (recorded: bool)
      modifies this`prevotes, this`precommits
      ensures (View(), recorded) == RecordVote(old(View()), v)
    {
      if v.vtype == Prevote {
        if Lower(v.voter) in prevotes || v.round != round {
          return false;
        }
        prevotes := prevotes[Lower(v.voter) := v];
      } else {
        if Lower(v.voter) in precommits || v.round != round {
          return false;
        }
        precommits := precommits[Lower(v.voter) := v];
      }
      recorded := true;
    }

    method HandleVote(v: Vote, sigOk: bool, sealOk: bool) returns (sent: Option<Vote>, decided: Option<Commit>)
      requires Valid()
      modifies this
      ensures Outcome(View(), sent, decided) == Step(Cfg(), old(View()), DeliverVote(v, sigOk, sealOk))
      ensures !Wraps(old(View()), DeliverVote(v, sigOk, sealOk)) ==> Valid()
    {
      SectionStaysOk(View(), DeliverVote(v, sigOk, sealOk));
      sent, decided := None, None;
      var recorded := Receive(v, sigOk);
      if recorded {
        QuorumFacts();
        if v.vtype == Prevote {
          sent := FinalizePrevotes();
        } else {
          decided := FinalizePrecommits(sealOk);
        }
      }
    }

    lemma SectionStaysOk(e: State, ev: Event)
      requires Registered() && EngineOk(Cfg(), e)
      ensures !Wraps(e, ev) ==> EngineOk(Cfg(), Step(Cfg(), e, ev).state)
    {
      if !Wraps(e, ev) {
        StepKeepsOk(Cfg(), e, ev);
      }
    }

    method TryFinalizePrevotes() returns (sent: Option<Vote>)
      requires Valid()
      modifies this`step, this`lockedHash, this`lockedRound, this`prevotes, this`precommits
      ensures Outcome(View(), sent, None) == Engine.FinalizePrevotes(Cfg(), old(View()))
      ensures Valid()
    {
      PrevotesStayOk(View());
      QuorumFacts();
      sent := FinalizePrevotes();
    }

    lemma PrevotesStayOk(e: State)
      requires Registered() && EngineOk(Cfg(), e)
      ensures EngineOk(Cfg(), Engine.FinalizePrevotes(Cfg(), e).state)
    {
      PrevotesKeepOk(Cfg(), e);
    }

    method FinalizePrevotes() returns (sent: Option<Vote>)
      requires QuorumNow() == Quorum(Cfg()) >= 1 && 2 * QuorumNow() > |prevotes|
      modifies this`step, this`lockedHash, this`lockedRound, this`prevotes, this`precommits
      ensures Outcome(View(), sent, None) == Engine.FinalizePrevotes(Cfg(), old(View()))
    {
      sent := None;
      if step != StepPrevote {
        return;
      }
      var winner, trailingNil := ScanPrevotes(prevotes, QuorumNow());
      if winner.Some? {
        if winner.value != "" {
          lockedHash := winner.value;
          lockedRound := round;
        }
        step := StepPrecommit;
        sent := BroadcastVote(Precommit, winner.value);
      }
    }

    method TryFinalizePrecommits(sealOk: bool) returns (decided: Option<Commit>)
      requires Valid()
      modifies this
      ensures Outcome(View(), None, decided) == Engine.FinalizePrecommits(Cfg(), old(View()), sealOk)
      ensures !Wraps(old(View()), PollPrecommits(sealOk)) ==> Valid()
    {
      PrecommitsStayOk(View(), sealOk);
      QuorumFacts();
      decided := FinalizePrecommits(sealOk);
    }

    lemma PrecommitsStayOk(e: State, sealOk: bool)
      requires Registered() && EngineOk(Cfg(), e)
      ensures !Wraps(e, PollPrecommits(sealOk)) ==> EngineOk(Cfg(), Engine.FinalizePrecommits(Cfg(), e, sealOk).state)
    {
      if !Wraps(e, PollPrecommits(sealOk)) {
        PrecommitsKeepOk(Cfg(), e, sealOk);
      }
    }

    method FinalizePrecommits(sealOk: bool) returns (decided: Option<Commit>)
      requires QuorumNow() == Quorum(Cfg()) >= 1 && 2 * QuorumNow() > |precommits|
      modifies this
      ensures Outcome(View(), None, decided) == Engine.FinalizePrecommits(Cfg(), old(View()), sealOk)
    {
      decided := None;
      if step != StepPrecommit {
        return;
      }
      var winner, nilQuorum := ScanPrecommits(precommits, QuorumNow());
      if winner.Some? {
        decided := CommitLocked(winner.value, sealOk);
      } else if nilQuorum {
        AdvanceRound();
      }
    }

    /** Up to the point where the mutex is released for pacing; `FinishCommit` is what follows. */
    method CommitLocked(hash: string, sealOk: bool) returns (decided: Option<Commit>)
      modifies this
      ensures Outcome(View(), None, decided) == CommitBlock(old(View()), hash, sealOk)
    {
      decided := Some(Commit(height, round, hash, Certificate(precommits, hash)));
      step := StepCommit;
      if proposal.Some? && proposal.value.hash == hash && sealOk {
        inGap := inGap + 1;
      } else {
        AdvanceHeight();
      }
    }

    method AdvanceRound()
      modifies this`round, this`step, this`proposal, this`prevotes, this`precommits
      ensures View() == Engine.AdvanceRound(old(View()))
    {
      round := NextRound(round);
      step := StepNewHeight;
      proposal := None;
      prevotes := map[];
      precommits := map[];
    }

    method AdvanceHeight()
      modifies this
      ensures View() == Engine.AdvanceHeight(old(View()))
    {
      height := height + 1;
      round := 0;
      step := StepNewHeight;
      proposal := None;
      prevotes := map[];
      precommits := map[];
      lockedHash := "";
      lockedRound := -1;
    }

    method BeginPropose()
      requires Valid()
      modifies this`step, this`proposal, this`prevotes, this`precommits
      ensures Outcome(View(), None, None) == Step(Cfg(), old(View()), Event.BeginPropose)
      ensures Valid()
    {
      SectionStaysOk(View(), Event.BeginPropose);
      if step != StepNewHeight && step != StepPropose {
        return;
      }
      step := StepPropose;
      proposal := None;
      prevotes := map[];
      precommits := map[];
    }

    method InstallProposal(h: nat, r: Int32, prevHash: string, merkleRoot: string, timestamp: int)
      requires Valid()
      modifies this`proposal
      ensures Outcome(View(), None, None)
        == Step(Cfg(), old(View()), Event.InstallProposal(h, r, prevHash, merkleRoot, timestamp))
      ensures Valid()
    {
      proposal := Some(OwnProposal(Config({}, addr, hasKey, sha), h, r, prevHash, merkleRoot, timestamp));
    }

    method ProposeTimeout() returns (sent: Option<Vote>)
      requires Valid()
      modifies this`step, this`prevotes, this`precommits
      ensures Outcome(View(), sent, None) == Step(Cfg(), old(View()), Event.ProposeTimeout)
      ensures Valid()
    {
      SectionStaysOk(View(), Event.ProposeTimeout);
      sent := None;
      if step == StepPropose {
        sent := EnterPrevote();
      }
    }

    method PrevoteTimeout() returns (sent: Option<Vote>)
      requires Valid()
      modifies this`step, this`prevotes, this`precommits
      ensures Outcome(View(), sent, None) == Step(Cfg(), old(View()), Event.PrevoteTimeout)
      ensures Valid()
    {
      SectionStaysOk(View(), Event.PrevoteTimeout);
      sent := None;
      if step == StepPrevote {
        step := StepPrecommit;
        sent := BroadcastVote(Precommit, "");
      }
    }

    method PrecommitTimeout()
      requires Valid()
      modifies this`round, this`step, this`proposal, this`prevotes, this`precommits
      ensures Outcome(View(), None, None) == Step(Cfg(), old(View()), Event.PrecommitTimeout)
      ensures !Wraps(old(View()), Event.PrecommitTimeout) ==> Valid()
    {
      SectionStaysOk(View(), Event.PrecommitTimeout);
      if step == StepPrecommit {
        AdvanceRound();
      }
    }

    /** A jail record runs out or is lifted. */
    method LiftJail(a: string)
      requires Valid()
      modifies this`jailed
      ensures Outcome(View(), None, None) == Step(Cfg(), old(View()), Unjail(a))
      ensures Valid()
    {
      jailed := jailed - {Norm(a)};
    }

    /** What runs once the pacing wait of a sealed commit is over, whatever has happened meanwhile. */
    method FinishCommit()
      requires Valid()
      modifies this
      ensures Outcome(View(), None, None) == Step(Cfg(), old(View()), Event.FinishCommit)
      ensures Valid()
    {
      SectionStaysOk(View(), Event.FinishCommit);
      if inGap > 0 {
        inGap := inGap - 1;
        AdvanceHeight();
      }
    }
  }
}
