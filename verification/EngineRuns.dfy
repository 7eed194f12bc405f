/**
 The rules of single sections over whole runs: the counted vote of a voter is the first one delivered for
 its place, and an unlocked engine prevotes only proposals it made or accepted.
 */
module EngineRuns {
  import opened Text
  import opened Votes
  import opened Engine
  import opened EngineSafety
  import opened Folds
  import opened Network
  import opened Decisions
  import opened EngineRules

  /** In the second state p is at the height and round it has in the first. */
  ghost predicate At(s: Net, p: string, was: Net) {
    p in s.engines && p in was.engines && SamePosition(was.engines[p], s.engines[p])
  }

  /** From j to i engine p stays at its height and round, and does not begin to propose again. */
  ghost predicate Stays(states: seq<Net>, actions: seq<Action>, p: string, j: nat, i: nat)
    requires j <= i < |states| == |actions| + 1
  {
    && (forall m | j <= m <= i :: At(states[m], p, states[j]))
    && (forall m | j <= m < i :: !(actions[m].who == p && actions[m].event.BeginPropose?))
  }

  ghost predicate HasCounted(s: Net, p: string, v: Vote) {
    && p in s.engines && Lower(v.voter) in Tallied(s.engines[p], v.vtype)
    && Tallied(s.engines[p], v.vtype)[Lower(v.voter)] == v
  }

  /** One action of anyone: a counted vote of another voter stays while p stays. */
  lemma ActionKeeps(n: Setup, states: seq<Net>, actions: seq<Action>, i: nat, p: string, v: Vote)
    requires ValidSetup(n) && Run(n, states, actions) && i < |actions|
    requires HasCounted(states[i], p, v) && Lower(v.voter) != p
    requires p in states[i + 1].engines && SamePosition(states[i].engines[p], states[i + 1].engines[p])
    requires !(actions[i].who == p && actions[i].event.BeginPropose?)
    ensures HasCounted(states[i + 1], p, v)
  {
    RunStep(n, states, actions, i);
    if actions[i].who == p {
      EngineInRun(n, states, actions, i, p);
      CountedStays(ConfigOf(n, p), states[i].engines[p], actions[i].event, v.vtype, Lower(v.voter));
    }
  }

  lemma CountedOverRun(n: Setup, states: seq<Net>, actions: seq<Action>, j: nat, i: nat, p: string, v: Vote)
    requires ValidSetup(n) && Run(n, states, actions) && j <= i < |states| && Stays(states, actions, p, j, i)
    requires HasCounted(states[j], p, v) && Lower(v.voter) != p
    ensures HasCounted(states[i], p, v)
  {
    forall m: nat | j <= m < i && HasCounted(states[m], p, v) ensures HasCounted(states[m + 1], p, v) {
      StaysNext(states, actions, p, j, i, m);
      ActionKeeps(n, states, actions, m, p, v);
    }
    StillCounted(states, j, i, p, v);
  }

  lemma StillCounted(states: seq<Net>, j: nat, i: nat, p: string, v: Vote)
    requires j <= i < |states| && HasCounted(states[j], p, v)
    requires forall m: nat | j <= m < i && HasCounted(states[m], p, v) :: HasCounted(states[m + 1], p, v)
    ensures HasCounted(states[i], p, v)
  {
    Climb((d: nat) => j + d <= i ==> HasCounted(states[j + d], p, v), i - j);
  }

  lemma StaysNext(states: seq<Net>, actions: seq<Action>, p: string, j: nat, i: nat, m: nat)
    requires j <= m < i < |states| == |actions| + 1 && Stays(states, actions, p, j, i)
    ensures p in states[m + 1].engines && p in states[m].engines
    ensures SamePosition(states[m].engines[p], states[m + 1].engines[p])
    ensures !(actions[m].who == p && actions[m].event.BeginPropose?)
  {
    assert At(states[m], p, states[j]) && At(states[m + 1], p, states[j]);
  }

  /** THE FIRST VOTE COUNTS. When the first acceptable vote of another voter for the place is delivered to an
      engine, that vote is what the engine counts for that voter for as long as it stays at the place,
      whatever is delivered later. */
  lemma FirstVoteCounts(n: Setup, states: seq<Net>, actions: seq<Action>, j: nat, i: nat, p: string, v: Vote,
      sealOk: bool)
    requires ValidSetup(n) && Run(n, states, actions) && j < i < |states| && Stays(states, actions, p, j, i)
    requires actions[j] == Action(p, DeliverVote(v, true, sealOk)) && p in states[j].engines
    requires First(ConfigOf(n, p), states[j].engines[p], v) && Lower(v.voter) != p
    ensures HasCounted(states[i], p, v)
  {
    RunStep(n, states, actions, j);
    EngineInRun(n, states, actions, j, p);
    FirstIsCounted(ConfigOf(n, p), states[j].engines[p], v, sealOk);
    assert Stays(states, actions, p, j + 1, i);
    CountedOverRun(n, states, actions, j + 1, i, p, v);
  }

  // ---------------------------------------------------------------- where a proposal comes from

  /** Action of p that makes the proposal its own: it built it, or was delivered it and had to accept it. */
  ghost predicate Takes(n: Setup, s: Net, a: Action, p: string, x: Proposal) {
    && a.who == p && p in s.engines
    && ((a.event.InstallProposal? && x.proposer == p
         && Step(ConfigOf(n, p), s.engines[p], a.event).state.proposal == Some(x))
        || (a.event.DeliverProposal? && a.event.p == x
            && Acceptable(ConfigOf(n, p), s.engines[p], x, a.event.sigOk, a.event.leader, a.event.tip)))
  }

  ghost predicate TakenBefore(n: Setup, states: seq<Net>, actions: seq<Action>, i: nat, p: string, x: Proposal)
    requires i <= |actions| < |states|
  {
    exists j | 0 <= j < i :: Takes(n, states[j], actions[j], p, x)
  }

  /** A section leaves the engine with the proposal it had, with none, or with one it takes. */
  lemma ProposalMoves(c: Config, e: State, ev: Event)
    requires ValidConfig(c) && EngineOk(c, e)
    ensures var x := Step(c, e, ev).state.proposal;
            || x.None? || x == e.proposal || ev.InstallProposal?
            || (ev.DeliverProposal? && x == Some(ev.p) && Acceptable(c, e, ev.p, ev.sigOk, ev.leader, ev.tip))
  {
    match ev
    case DeliverProposal(p, sigOk, leader, tip) => ProposalRule(c, e, p, sigOk, leader, tip);
    case DeliverVote(v, sigOk, sealOk) => VoteMoves(c, e, v, sigOk, sealOk);
    case PollPrevotes => PollMoves(c, e, PollPrevotes, Prevote);
    case PollPrecommits(sealOk) => PollMoves(c, e, ev, Precommit);
    case _ =>
  }

  lemma PollMoves(c: Config, e: State, ev: Event, t: VoteType)
    requires ValidConfig(c) && EngineOk(c, e) && Examines(c, e, ev, t)
    ensures Step(c, e, ev).state.proposal.None? || Step(c, e, ev).state.proposal == e.proposal
  {
    if h :| Finds(c, e, ev, t, h) {
      if t == Prevote {
        PrevoteQuorum(c, e, ev, h);
      } else if h == "" {
        NilPrecommitQuorum(c, e, ev);
      } else {
        BlockPrecommitQuorum(c, e, ev, h);
      }
    } else {
      NothingFound(c, e, ev, t);
    }
  }

  lemma VoteMoves(c: Config, e: State, v: Vote, sigOk: bool, sealOk: bool)
    requires ValidConfig(c) && EngineOk(c, e)
    ensures var x := Step(c, e, DeliverVote(v, sigOk, sealOk)).state.proposal; x.None? || x == e.proposal
  {
    if !sigOk || Norm(v.voter) in e.jailed || v.height != e.height {
      VoteRefused(c, e, v, sigOk, sealOk);
    } else if !Registered(c, v.voter) {
      OutsiderVote(c, e, v, sealOk);
    } else if v.round > e.round {
      VoteAhead(c, e, v, sealOk);
    } else if First(c, e, v) {
      PollMoves(c, e, DeliverVote(v, sigOk, sealOk), v.vtype);
    } else {
      VoteNotCounted(c, e, v, sealOk);
    }
  }

  lemma ProposalStep(n: Setup, states: seq<Net>, actions: seq<Action>, i: nat, p: string)
    requires ValidSetup(n) && Run(n, states, actions) && i < |actions| && p in states[i + 1].engines
    ensures p in states[i].engines
    ensures var x := states[i + 1].engines[p].proposal;
            x.Some? ==> x == states[i].engines[p].proposal || Takes(n, states[i], actions[i], p, x.value)
  {
    RunStep(n, states, actions, i);
    if actions[i].who == p {
      EngineInRun(n, states, actions, i, p);
      ProposalMoves(ConfigOf(n, p), states[i].engines[p], actions[i].event);
      if actions[i].event.InstallProposal? {
        var ev := actions[i].event;
        InstallProposalRule(ConfigOf(n, p), states[i].engines[p], ev.height, ev.round, ev.prevHash, ev.merkleRoot,
                            ev.timestamp);
      }
    }
  }

  lemma {:induction false} ProposalWasTaken(n: Setup, states: seq<Net>, actions: seq<Action>, i: nat, p: string)
    requires ValidSetup(n) && Run(n, states, actions) && i < |states| && p in states[i].engines
    ensures var x := states[i].engines[p].proposal; x.Some? ==> TakenBefore(n, states, actions, i, p, x.value)
  {
    if i == 0 {
      assert states[0].engines[p] == Initial(states[0].engines[p].height);
    } else {
      ProposalStep(n, states, actions, i - 1, p);
      ProposalWasTaken(n, states, actions, i - 1, p);
    }
  }

  /** PREVOTES ARE FOR PROPOSALS. In every run a non-nil prevote of an engine without a lock is for a proposal that
      the engine built itself or that met every condition when it was delivered. */
  lemma PrevotesProposals(n: Setup, states: seq<Net>, actions: seq<Action>, i: nat)
    requires ValidSetup(n) && Run(n, states, actions) && i < |actions| && actions[i].who in states[i].engines
    requires var p := actions[i].who; var o := Step(ConfigOf(n, p), states[i].engines[p], actions[i].event);
             && o.sent.Some? && o.sent.value.vtype == Prevote && o.sent.value.hash != ""
             && states[i].engines[p].lockedHash == ""
    ensures var p := actions[i].who; var o := Step(ConfigOf(n, p), states[i].engines[p], actions[i].event);
            exists x: Proposal :: x.hash == o.sent.value.hash && TakenBefore(n, states, actions, i + 1, p, x)
  {
    var p, ev := actions[i].who, actions[i].event;
    var e := states[i].engines[p];
    EngineInRun(n, states, actions, i, p);
    PrevoteIsForProposal(ConfigOf(n, p), e, ev);
    if ev == ProposeTimeout {
      ProposalWasTaken(n, states, actions, i, p);
      TakenLater(n, states, actions, i, p, e.proposal.value);
    } else {
      assert Takes(n, states[i], actions[i], p, ev.p);
      assert TakenBefore(n, states, actions, i + 1, p, ev.p);
    }
  }

  lemma TakenLater(n: Setup, states: seq<Net>, actions: seq<Action>, i: nat, p: string, x: Proposal)
    requires i < |actions| < |states| && TakenBefore(n, states, actions, i, p, x)
    ensures TakenBefore(n, states, actions, i + 1, p, x)
  {
  }
}
