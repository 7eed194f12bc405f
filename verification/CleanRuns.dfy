/**
 Runs in which no delivered vote carries the literal "NIL": they jail no honest engine, decide only blocks,
 and agree without exception.
 */
module CleanRuns {
  import opened Text
  import opened Votes
  import opened Engine
  import opened EngineSafety
  import opened Network
  import opened NilVotes
  import opened Decisions
  import opened Jailing

  ghost predicate EnginesClean(s: Net) {
    forall p | p in s.engines :: Clean(s.engines[p])
  }

  ghost predicate DecisionsClean(s: Net) {
    forall d | d in s.decisions :: IsBlock(d.hash)
  }

  lemma KeepsClean(s: Net, p: string, o: Outcome)
    requires p in s.engines && EnginesClean(s) && DecisionsClean(s)
    requires CleanOutcome(o) && (o.decided.Some? ==> o.decided.value.hash != "")
    ensures var s' := After(s, p, o); EnginesClean(s') && DecisionsClean(s')
  {
  }

  lemma CleanStep(c: Config, e: State, ev: Event)
    requires ValidConfig(c) && EngineOk(c, e) && Clean(e) && CleanEvent(ev)
    ensures var o := Step(c, e, ev); CleanOutcome(o) && (o.decided.Some? ==> o.decided.value.hash != "")
  {
    StepClean(c, e, ev);
    StepCounts(c, e, ev);
  }

  ghost predicate CleanRun(n: Setup, states: seq<Net>, actions: seq<Action>) {
    Run(n, states, actions) && forall i | 0 <= i < |actions| :: CleanEvent(actions[i].event)
  }

  lemma CleanRunStep(n: Setup, states: seq<Net>, actions: seq<Action>, i: nat)
    requires ValidSetup(n) && CleanRun(n, states, actions) && i < |actions|
    requires EnginesClean(states[i]) && DecisionsClean(states[i])
    ensures EnginesClean(states[i + 1]) && DecisionsClean(states[i + 1])
  {
    var p, ev := actions[i].who, actions[i].event;
    RunStep(n, states, actions, i);
    EngineInRun(n, states, actions, i, p);
    CleanStep(ConfigOf(n, p), states[i].engines[p], ev);
    KeepsClean(states[i], p, Step(ConfigOf(n, p), states[i].engines[p], ev));
  }

  lemma {:induction false} CleanRunKeeps(n: Setup, states: seq<Net>, actions: seq<Action>, i: nat)
    requires ValidSetup(n) && CleanRun(n, states, actions) && i < |states|
    ensures EnginesClean(states[i]) && DecisionsClean(states[i])
  {
    if i == 0 {
      StartClean(n, states[0]);
    } else {
      CleanRunKeeps(n, states, actions, i - 1);
      CleanRunStep(n, states, actions, i - 1);
    }
  }

  lemma StartClean(n: Setup, s: Net)
    requires Start(n, s)
    ensures EnginesClean(s) && DecisionsClean(s)
  {
    forall p | p in s.engines ensures Clean(s.engines[p]) {
      assert s.engines[p] == Initial(s.engines[p].height);
    }
  }

  /** JAILING IS SOUND. In a run whose delivered votes never carry the literal, no engine ever jails an
      honest one. */
  lemma JailingIsSound(n: Setup, states: seq<Net>, actions: seq<Action>, i: nat, p: string, q: string)
    requires ValidSetup(n) && CleanRun(n, states, actions) && i < |states| && q in n.honest
    ensures !JailedAt(states[i], p, q)
  {
    JailedSince(n, states, actions, i, p, q);
    if JailedAt(states[i], p, q) {
      var j :| 0 <= j < i && DeliversOtherSpelling(states[j], actions[j], p, q);
      CleanRunKeeps(n, states, actions, j);
      NoOtherSpelling(states[j], actions[j], p, q);
    }
  }

  lemma NoOtherSpelling(s: Net, a: Action, p: string, q: string)
    requires EnginesClean(s) && CleanEvent(a.event)
    ensures !DeliversOtherSpelling(s, a, p, q)
  {
    if p in s.engines {
      assert Clean(s.engines[p]);
    }
  }

  /** In such a run every decision is on a block, so agreement has no exception. */
  lemma FullAgreement(n: Setup, states: seq<Net>, actions: seq<Action>, d1: Decision, d2: Decision, i: nat, j: nat)
    requires ValidSetup(n) && CleanRun(n, states, actions) && i < |states| && j < |states|
    requires d1 in states[i].decisions && d2 in states[j].decisions && d1.height == d2.height
    ensures d1.hash == d2.hash
  {
    CleanRunKeeps(n, states, actions, i);
    CleanRunKeeps(n, states, actions, j);
    Agreement(n, states, actions, d1, d2, i, j);
  }

  /** In such a run a signer of a decided block is locked on exactly that block until it leaves the height. */
  lemma FullLockPersistence(n: Setup, states: seq<Net>, actions: seq<Action>, i: nat, k: nat, height: nat, r: Int32,
      h: string, p: string)
    requires ValidSetup(n) && CleanRun(n, states, actions) && i <= k < |states| && IsBlock(h)
    requires HasQuorum(n, states[i].sent, Precommit, height, r, h)
    requires p in n.honest && Vote(Precommit, height, r, h, p) in states[i].sent
    requires p in states[k].engines && states[k].engines[p].height == height
    ensures states[k].engines[p].lockedHash == h
  {
    LockPersists(n, states, actions, i, k, height, r, h, p);
    CleanRunKeeps(n, states, actions, k);
    RunKeepsInv(n, states, actions, k);
    LockIsBlock(n, states[k], p);
  }

  lemma LockIsBlock(n: Setup, s: Net, p: string)
    requires EnginesOk(n, s) && EnginesClean(s) && p in s.engines
    ensures s.engines[p].lockedRound >= 0 ==> IsBlock(s.engines[p].lockedHash)
  {
    assert EngineOk(ConfigOf(n, p), s.engines[p]) && Clean(s.engines[p]);
  }
}
