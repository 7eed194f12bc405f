/**
 Double-sign evidence over whole runs: an honest voter is jailed exactly when the two spellings of its nil
 vote meet.
 */
module Jailing {
  import opened Text
  import opened Votes
  import opened Engine
  import opened EngineSafety
  import opened Folds
  import opened Network
  import opened NilVotes
  import opened Decisions

  // ---------------------------------------------------------------- jailing

  /** A record as the vote it was made from. */
  function RecordedVote(key: (string, VoteType), k: VoteKey): Vote {
    Vote(key.1, k.height, k.round, k.hash, key.0)
  }

  /** Every record about an honest voter has the message of a vote that voter signed. */
  ghost predicate RecordsSigned(n: Setup, sent: set<Vote>, e: State) {
    forall k | k in e.lastVotes && Lower(k.0) in n.honest :: SignedAs(sent, RecordedVote(k, e.lastVotes[k]))
  }

  ghost predicate AllRecordsSigned(n: Setup, s: Net) {
    forall p | p in s.engines :: RecordsSigned(n, s.sent, s.engines[p])
  }

  lemma SignedGrows(sent: set<Vote>, more: set<Vote>, v: Vote)
    requires sent <= more && SignedAs(sent, v)
    ensures SignedAs(more, v)
  {
  }

  lemma KeepsRecords(n: Setup, s: Net, p: string, o: Outcome, incoming: Option<Vote>)
    requires p in s.engines && AllRecordsSigned(n, s)
    requires RecordFacts(ConfigOf(n, p), s.engines[p], o, incoming)
    requires incoming.Some? ==> Authentic(n, s, incoming.value)
    ensures AllRecordsSigned(n, After(s, p, o))
  {
    var s' := After(s, p, o);
    forall q, k | q in s'.engines && k in s'.engines[q].lastVotes && Lower(k.0) in n.honest
      ensures SignedAs(s'.sent, RecordedVote(k, s'.engines[q].lastVotes[k]))
    {
      var r := RecordedVote(k, s'.engines[q].lastVotes[k]);
      if !(k in s.engines[q].lastVotes && s.engines[q].lastVotes[k] == s'.engines[q].lastVotes[k]) {
        assert r == incoming.value;
      } else {
        assert RecordsSigned(n, s.sent, s.engines[q]);
      }
      SignedGrows(s.sent, s'.sent, r);
    }
  }

  lemma RecordFactsInRun(n: Setup, states: seq<Net>, actions: seq<Action>, i: nat)
    requires ValidSetup(n) && Run(n, states, actions) && i < |actions|
    ensures var p, ev := actions[i].who, actions[i].event;
            && p in states[i].engines
            && (Incoming(ev).Some? ==> Authentic(n, states[i], Incoming(ev).value))
            && var o := Step(ConfigOf(n, p), states[i].engines[p], ev);
            && RecordFacts(ConfigOf(n, p), states[i].engines[p], o, Incoming(ev))
            && states[i + 1] == After(states[i], p, o)
  {
    var p, ev := actions[i].who, actions[i].event;
    RunStep(n, states, actions, i);
    EngineInRun(n, states, actions, i, p);
    StepRecords(ConfigOf(n, p), states[i].engines[p], ev);
  }

  ghost function RecordsInvariant(n: Setup): Net -> bool {
    (s: Net) => Inv(n, s) && AllRecordsSigned(n, s)
  }

  lemma RecordsStep(n: Setup, s: Net, p: string, ev: Event)
    requires ValidSetup(n) && Inv(n, s) && AllRecordsSigned(n, s) && Permitted(n, s, p, ev)
    ensures AllRecordsSigned(n, Next(n, s, p, ev))
  {
    StepRecords(ConfigOf(n, p), s.engines[p], ev);
    KeepsRecords(n, s, p, Step(ConfigOf(n, p), s.engines[p], ev), Incoming(ev));
  }

  lemma RecordsAreInductive(n: Setup)
    requires ValidSetup(n)
    ensures Preserves(Acting(n), RecordsInvariant(n))
  {
    forall s, a, s' | RecordsInvariant(n)(s) && Acting(n)(s, a, s') ensures RecordsInvariant(n)(s') {
      NextKeepsInv(n, s, a.who, a.event);
      RecordsStep(n, s, a.who, a.event);
    }
  }

  lemma RunKeepsRecords(n: Setup, states: seq<Net>, actions: seq<Action>, i: nat)
    requires ValidSetup(n) && Run(n, states, actions) && i < |states|
    ensures AllRecordsSigned(n, states[i])
  {
    StartInv(n, states[0]);
    StartHasNoRecords(n, states[0]);
    RecordsAreInductive(n);
    Invariance(Acting(n), RecordsInvariant(n), states, actions, i);
    assert RecordsInvariant(n)(states[i]);
  }

  lemma StartHasNoRecords(n: Setup, s: Net)
    requires Start(n, s)
    ensures AllRecordsSigned(n, s) && forall p | p in s.engines :: s.engines[p].jailed == {}
  {
    forall p | p in s.engines ensures s.engines[p].lastVotes == map[] && s.engines[p].jailed == {} {
      assert s.engines[p] == Initial(s.engines[p].height);
    }
  }

  predicate SeenHere(e: State, v: Vote) {
    var k := (v.voter, v.vtype);
    k in e.lastVotes && e.lastVotes[k].height == v.height && e.lastVotes[k].round == v.round
  }

  /** The vote and the record of its place spell nil differently. */
  predicate SpellsMeet(e: State, v: Vote) {
    SeenHere(e, v) && (v.hash == NIL) != (e.lastVotes[(v.voter, v.vtype)].hash == NIL)
  }

  /** Two votes of one honest voter for one place, both with a message it signed, differ in hash only by
      the spelling of nil. */
  lemma SameMessage(sent: set<Vote>, u: Vote, v: Vote)
    requires SignsOnce(sent) && SignedAs(sent, u) && SignedAs(sent, v) && SamePlace(u, v)
    ensures u.hash != v.hash <==> (u.hash == NIL) != (v.hash == NIL)
  {
    var x :| x in sent && x.voter == Lower(u.voter) && BuildVoteMessage(x) == BuildVoteMessage(u);
    var y :| y in sent && y.voter == Lower(v.voter) && BuildVoteMessage(y) == BuildVoteMessage(v);
    MessageInjective(x, u);
    MessageInjective(y, v);
    assert SamePlace(x, y);
  }

  lemma JailedByReceive(c: Config, e: State, v: Vote)
    requires Known(c, v.voter) && Norm(v.voter) !in e.jailed
    ensures Norm(v.voter) in ReceiveVote(c, e, v, true).0.jailed
       <==> v.height == e.height && SeenHere(e, v) && e.lastVotes[(v.voter, v.vtype)].hash != v.hash
  {
  }

  lemma JailsIff(n: Setup, s: Net, p: string, v: Vote, sealOk: bool)
    requires ValidSetup(n) && SignsOnce(s.sent) && AllRecordsSigned(n, s)
    requires p in s.engines && Lower(v.voter) in n.honest && p in n.honest && Authentic(n, s, v)
      && Norm(v.voter) !in s.engines[p].jailed
    ensures Norm(v.voter) in HandleVote(ConfigOf(n, p), s.engines[p], v, true, sealOk).state.jailed
       <==> v.height == s.engines[p].height && SpellsMeet(s.engines[p], v)
  {
    var e, c := s.engines[p], ConfigOf(n, p);
    assert ValidConfig(c) && RecordsSigned(n, s.sent, e);
    KnownMeansRegistered(c, v.voter);
    if SeenHere(e, v) {
      var k := (v.voter, v.vtype);
      SameMessage(s.sent, RecordedVote(k, e.lastVotes[k]), v);
    }
    JailedByReceive(c, e, v);
    PrevotesKeepRecords(c, ReceiveVote(c, e, v, true).0);
    PrecommitsKeepRecords(c, ReceiveVote(c, e, v, true).0, sealOk);
  }

  /** WHEN AN HONEST VOTER IS JAILED, one delivery. In every state of every run, an authentic vote of an
      honest voter that is not yet jailed gets it jailed if and only if a vote for the same place is on
      record and exactly one of the two carries the literal. */
  lemma JailsHonestExactlyOnNil(n: Setup, states: seq<Net>, actions: seq<Action>, i: nat, p: string, v: Vote,
      sealOk: bool)
    requires ValidSetup(n) && Run(n, states, actions) && i < |states|
    requires p in states[i].engines && Lower(v.voter) in n.honest && Authentic(n, states[i], v)
    requires Norm(v.voter) !in states[i].engines[p].jailed
    ensures Norm(v.voter) in HandleVote(ConfigOf(n, p), states[i].engines[p], v, true, sealOk).state.jailed
       <==> v.height == states[i].engines[p].height && SpellsMeet(states[i].engines[p], v)
  {
    RunKeepsInv(n, states, actions, i);
    RunKeepsRecords(n, states, actions, i);
    JailsIff(n, states[i], p, v, sealOk);
  }

  /** The action delivers to p a vote of q in the other spelling of nil than the one p has on record. */
  ghost predicate DeliversOtherSpelling(s: Net, a: Action, p: string, q: string) {
    && a.who == p && p in s.engines && q !in s.engines[p].jailed
    && a.event.DeliverVote? && a.event.sigOk && Lower(a.event.v.voter) == q
    && a.event.v.height == s.engines[p].height && SpellsMeet(s.engines[p], a.event.v)
  }

  predicate JailedAt(s: Net, p: string, q: string) {
    p in s.engines && q in s.engines[p].jailed
  }

  lemma OthersStayFree(c: Config, e: State, o: Outcome, incoming: Option<Vote>, q: string)
    requires RecordFacts(c, e, o, incoming) && q !in e.jailed && (incoming.Some? ==> Lower(incoming.value.voter) != q)
    ensures q !in o.state.jailed
  {
  }

  lemma JailingStep(n: Setup, states: seq<Net>, actions: seq<Action>, i: nat, p: string, q: string)
    requires ValidSetup(n) && Run(n, states, actions) && i < |actions| && q in n.honest
    ensures JailedAt(states[i + 1], p, q) && !JailedAt(states[i], p, q)
      <==> DeliversOtherSpelling(states[i], actions[i], p, q)
  {
    var s, who, ev := states[i], actions[i].who, actions[i].event;
    RecordFactsInRun(n, states, actions, i);
    if who == p && q !in s.engines[p].jailed {
      if ev.DeliverVote? && ev.sigOk && Lower(ev.v.voter) == q {
        HonestIsNormal(n, ev.v.voter);
        JailsHonestExactlyOnNil(n, states, actions, i, p, ev.v, ev.sealOk);
      } else {
        OthersStayFree(ConfigOf(n, p), s.engines[p], Step(ConfigOf(n, p), s.engines[p], ev), Incoming(ev), q);
      }
    }
  }

  lemma HonestIsNormal(n: Setup, voter: string)
    requires ValidSetup(n) && Lower(voter) in n.honest
    ensures Norm(voter) == Lower(voter)
  {
    NormOfLower(voter);
  }

  ghost predicate DeliveredBefore(states: seq<Net>, actions: seq<Action>, p: string, q: string, i: nat)
    requires i <= |actions| < |states|
  {
    exists j | 0 <= j < i :: DeliversOtherSpelling(states[j], actions[j], p, q)
  }

  lemma {:induction false} JailedSince(n: Setup, states: seq<Net>, actions: seq<Action>, i: nat, p: string, q: string)
    requires ValidSetup(n) && Run(n, states, actions) && i < |states| && q in n.honest
    ensures JailedAt(states[i], p, q) ==> DeliveredBefore(states, actions, p, q, i)
  {
    if i == 0 {
      StartHasNoRecords(n, states[0]);
    } else {
      JailedSince(n, states, actions, i - 1, p, q);
      JailingStep(n, states, actions, i - 1, p, q);
    }
  }

  ghost predicate EverJailed(states: seq<Net>, p: string, q: string) {
    exists i | 0 <= i < |states| :: JailedAt(states[i], p, q)
  }

  /** WHEN AN HONEST VOTER IS JAILED, whole runs. One engine jails an honest one at some point of a run if
      and only if it is delivered that engine's vote in both spellings of nil. */
  lemma EverJailedIff(n: Setup, states: seq<Net>, actions: seq<Action>, p: string, q: string)
    requires ValidSetup(n) && Run(n, states, actions) && q in n.honest
    ensures EverJailed(states, p, q) <==> DeliveredBefore(states, actions, p, q, |actions|)
  {
    if EverJailed(states, p, q) {
      var i :| 0 <= i < |states| && JailedAt(states[i], p, q);
      JailedSince(n, states, actions, i, p, q);
    }
    if DeliveredBefore(states, actions, p, q, |actions|) {
      var j :| 0 <= j < |actions| && DeliversOtherSpelling(states[j], actions[j], p, q);
      JailingStep(n, states, actions, j, p, q);
    }
  }
}
