/**
 A network of engines that share a validator set, some members of which may be faulty. A run is any
 interleaving of the engines' critical sections; what a handler is given is up to the adversary,
 except that nobody can sign for an honest engine.
 */
module Network {
  import opened Text
  import opened Votes
  import opened Engine
  import opened EngineSafety
  import opened Folds

  /** The validator set of a height and the honest members with their signing keys. */
  datatype Setup = Setup(validators: set<string>, honest: set<string>, keyed: set<string>, sha: Sha)

  function ConfigOf(n: Setup, p: string): Config {
    Config(n.validators, p, p in n.keyed, n.sha)
  }

  function Faulty(n: Setup): set<string> {
    n.validators - n.honest
  }

  ghost predicate ValidSetup(n: Setup) {
    && n.honest <= n.validators
    && 3 * |Faulty(n)| < |n.validators|
    && forall v | v in n.validators :: Canonical(v)
  }

  datatype Decision = Decision(who: string, height: nat, round: Int32, hash: string)

  /** All honest engines, every vote an honest engine has signed, every decision taken. */
  datatype Net = Net(engines: map<string, State>, sent: set<Vote>, decisions: set<Decision>)

  /** A vote as its voter signed it: the address in lower case. */
  function Canon(v: Vote): Vote {
    v.(voter := Lower(v.voter))
  }

  /** The voter signed the message of the vote, for this vote or one that spells it differently. */
  ghost predicate SignedAs(sent: set<Vote>, v: Vote) {
    exists u :: u in sent && u.voter == Lower(v.voter) && BuildVoteMessage(u) == BuildVoteMessage(v)
  }

  /** Unforgeability: a signature that checks out against an honest address was made by that engine
      over the same message. The fields themselves may have been rewritten on the way. */
  ghost predicate Authentic(n: Setup, s: Net, v: Vote) {
    Lower(v.voter) in n.honest ==> SignedAs(s.sent, v)
  }

  /** What is delivered is authentic. */
  ghost predicate Authorised(n: Setup, s: Net, p: string, ev: Event) {
    p in s.engines && (ev.DeliverVote? && ev.sigOk ==> Authentic(n, s, ev.v))
  }

  /** The engine gives up round 2147483647, and its int32 round counter runs over. */
  ghost predicate Overruns(n: Setup, s: Net, p: string, ev: Event) {
    p in s.engines && s.engines[p].round == MAX_INT32 && GivesUpRound(ConfigOf(n, p), s.engines[p], ev)
  }

  /** THE ASSUMPTIONS behind every run: nobody signs for an honest engine, and no round counter runs over. */
  ghost predicate Permitted(n: Setup, s: Net, p: string, ev: Event) {
    Authorised(n, s, p, ev) && !Overruns(n, s, p, ev)
  }

  /** The network after engine p ran a section with the given outcome. */
  function After(s: Net, p: string, o: Outcome): Net {
    Net(s.engines[p := o.state],
        if o.sent.Some? then s.sent + {o.sent.value} else s.sent,
        if o.decided.Some?
        then s.decisions + {Decision(p, o.decided.value.height, o.decided.value.round, o.decided.value.hash)}
        else s.decisions)
  }

  ghost function Next(n: Setup, s: Net, p: string, ev: Event): Net
    requires p in s.engines
  {
    After(s, p, Step(ConfigOf(n, p), s.engines[p], ev))
  }

  ghost predicate Start(n: Setup, s: Net) {
    && s.engines.Keys == n.honest
    && (forall p | p in s.engines :: s.engines[p] == Initial(s.engines[p].height))
    && s.sent == {} && s.decisions == {}
  }

  datatype Action = Action(who: string, event: Event)

  ghost predicate Acts(n: Setup, s: Net, a: Action, s': Net) {
    Permitted(n, s, a.who, a.event) && s' == Next(n, s, a.who, a.event)
  }

  ghost function Acting(n: Setup): (Net, Action, Net) -> bool {
    (s: Net, a: Action, s': Net) => Acts(n, s, a, s')
  }

  /** A run: states joined by permitted actions. */
  ghost predicate Run(n: Setup, states: seq<Net>, actions: seq<Action>) {
    Connected(Acting(n), states, actions) && Start(n, states[0])
  }

  /** A block hash, as opposed to either spelling of nil. */
  predicate IsBlock(hash: string) {
    hash != "" && hash != "NIL"
  }

  // ---------------------------------------------------------------- support

  /** Members that can be counted for a vote: the faulty ones and the honest ones that signed it. */
  ghost function Support(n: Setup, sent: set<Vote>, t: VoteType, height: nat, round: Int32, hash: string): set<string> {
    set p | p in n.validators && (p !in n.honest || Vote(t, height, round, hash, p) in sent)
  }

  ghost predicate HasQuorum(n: Setup, sent: set<Vote>, t: VoteType, height: nat, round: Int32, hash: string) {
    |Support(n, sent, t, height, round, hash)| >= QuorumSize(|n.validators|)
  }

  lemma QuorumGrows(n: Setup, sent: set<Vote>, more: set<Vote>, t: VoteType, height: nat, round: Int32, hash: string)
    requires sent <= more && HasQuorum(n, sent, t, height, round, hash)
    ensures HasQuorum(n, more, t, height, round, hash)
  {
    SubsetCard(Support(n, sent, t, height, round, hash), Support(n, more, t, height, round, hash));
  }

  /** Two quorums share an honest member that signed for both. */
  lemma SharedSigner(n: Setup, sent: set<Vote>, t1: VoteType, height: nat, r1: Int32, h1: string, t2: VoteType,
      r2: Int32, h2: string)
    returns (p: string)
    requires ValidSetup(n)
    requires HasQuorum(n, sent, t1, height, r1, h1) && HasQuorum(n, sent, t2, height, r2, h2)
    ensures p in n.honest && Vote(t1, height, r1, h1, p) in sent && Vote(t2, height, r2, h2, p) in sent
  {
    QuorumBounds(|n.validators|, |Faulty(n)|);
    p := CommonHonest(n.validators, Support(n, sent, t1, height, r1, h1), Support(n, sent, t2, height, r2, h2),
      Faulty(n));
  }

  // ---------------------------------------------------------------- the invariant

  ghost predicate EnginesOk(n: Setup, s: Net) {
    s.engines.Keys == n.honest && forall p | p in s.engines :: EngineOk(ConfigOf(n, p), s.engines[p])
  }

  predicate IsPast(e: State, v: Vote) {
    NotBefore(v.height, v.round, VoteRank(v.vtype), e.height, e.round, Rank(e.step))
  }

  /** Every signed vote lies at or before its signer's position. */
  ghost predicate VotesPast(s: Net) {
    forall v | v in s.sent :: v.voter in s.engines && v.round >= 0 && IsPast(s.engines[v.voter], v)
  }

  predicate SamePlace(u: Vote, v: Vote) {
    u.voter == v.voter && u.vtype == v.vtype && u.height == v.height && u.round == v.round
  }

  /** No honest engine signs two different votes for one place. */
  ghost predicate SignsOnce(sent: set<Vote>) {
    forall u, v {:trigger SamePlace(u, v)} | u in sent && v in sent && SamePlace(u, v) :: u == v
  }

  /** A counted block vote of an honest voter was signed by it. */
  ghost predicate Backed(n: Setup, sent: set<Vote>, votes: map<string, Vote>) {
    forall k | k in votes && k in n.honest && IsBlock(votes[k].hash) :: Canon(votes[k]) in sent
  }

  ghost predicate TalliesBacked(n: Setup, s: Net) {
    forall p | p in s.engines :: Backed(n, s.sent, s.engines[p].prevotes) && Backed(n, s.sent, s.engines[p].precommits)
  }

  ghost predicate LockJustified(n: Setup, sent: set<Vote>, e: State) {
    e.lockedRound >= 0 && IsBlock(e.lockedHash) ==> HasQuorum(n, sent, Prevote, e.height, e.lockedRound, e.lockedHash)
  }

  ghost predicate LocksJustified(n: Setup, s: Net) {
    forall p | p in s.engines :: LockJustified(n, s.sent, s.engines[p])
  }

  predicate BlockPrecommit(v: Vote) {
    v.vtype == Precommit && IsBlock(v.hash)
  }

  predicate BlockPrevote(v: Vote) {
    v.vtype == Prevote && IsBlock(v.hash)
  }

  /** A precommit for a block rests on a prevote quorum of its round. */
  ghost predicate PrecommitsJustified(n: Setup, sent: set<Vote>) {
    forall v | v in sent && BlockPrecommit(v) :: HasQuorum(n, sent, Prevote, v.height, v.round, v.hash)
  }

  predicate Remembers(e: State, v: Vote) {
    e.height == v.height ==> e.lockedRound >= v.round && (e.lockedRound == v.round ==> e.lockedHash == v.hash)
  }

  /** While its height lasts, the signer of a block precommit stays locked at that round or later. */
  ghost predicate LocksRemembered(s: Net) {
    forall v | v in s.sent && BlockPrecommit(v) && v.voter in s.engines :: Remembers(s.engines[v.voter], v)
  }

  ghost predicate QuorumBetween(n: Setup, sent: set<Vote>, height: nat, lo: int, hi: int, hash: string) {
    exists r: Int32 :: lo <= r < hi && HasQuorum(n, sent, Prevote, height, r, hash)
  }

  /** After precommitting a block, an engine prevotes a block later in that height only if that block
      had a prevote quorum in between. */
  ghost predicate PrevotesJustified(n: Setup, sent: set<Vote>) {
    forall u, w {:trigger PrevotesAfter(u, w)} | u in sent && w in sent && PrevotesAfter(u, w) ::
      QuorumBetween(n, sent, w.height, u.round, w.round, w.hash)
  }

  /** One engine's precommit for a block and a later prevote of it for a block, in one height. */
  predicate PrevotesAfter(u: Vote, w: Vote) {
    BlockPrecommit(u) && BlockPrevote(w) && u.voter == w.voter && u.height == w.height && u.round < w.round
  }

  ghost predicate DecisionsCertified(n: Setup, s: Net) {
    forall d | d in s.decisions && IsBlock(d.hash) ::
      d.round >= 0 && HasQuorum(n, s.sent, Precommit, d.height, d.round, d.hash)
  }

  ghost predicate Inv(n: Setup, s: Net) {
    && EnginesOk(n, s) && VotesPast(s) && SignsOnce(s.sent)
    && TalliesBacked(n, s) && LocksJustified(n, s)
    && PrecommitsJustified(n, s.sent) && LocksRemembered(s)
    && PrevotesJustified(n, s.sent) && DecisionsCertified(n, s)
  }

  // ---------------------------------------------------------------- preservation

  lemma KeepsVotesPast(n: Setup, s: Net, p: string, o: Outcome)
    requires p in s.engines && VotesPast(s) && 0 <= o.state.round
    requires Progress(s.engines[p], o.state) && SendsForward(ConfigOf(n, p), s.engines[p], o)
    ensures VotesPast(After(s, p, o))
  {
    var s' := After(s, p, o);
    forall v | v in s'.sent ensures v.voter in s'.engines && v.round >= 0 && IsPast(s'.engines[v.voter], v) {
      if v in s.sent {
        assert IsPast(s.engines[v.voter], v);
      }
    }
  }

  lemma KeepsSignsOnce(n: Setup, s: Net, p: string, o: Outcome)
    requires p in s.engines && VotesPast(s) && SignsOnce(s.sent)
    requires SendsForward(ConfigOf(n, p), s.engines[p], o)
    ensures SignsOnce(After(s, p, o).sent)
  {
    if o.sent.Some? {
      var w := o.sent.value;
      forall v | v in s.sent ensures !SamePlace(v, w) && !SamePlace(w, v) {
        assert IsPast(s.engines[v.voter], v);
      }
    }
  }

  /** A block vote accepted as authentic was signed in exactly that form. */
  lemma AuthenticBlockVote(n: Setup, s: Net, v: Vote)
    requires Authentic(n, s, v) && Lower(v.voter) in n.honest && IsBlock(v.hash)
    ensures Canon(v) in s.sent
  {
    var u :| u in s.sent && u.voter == Lower(v.voter) && BuildVoteMessage(u) == BuildVoteMessage(v);
    MessageInjective(u, v);
    assert u == Canon(v);
  }

  lemma BackedAfter(n: Setup, s: Net, c: Config, votes: map<string, Vote>, before: map<string, Vote>,
                    incoming: Option<Vote>, own: Option<Vote>, sent': set<Vote>, t: VoteType, height: nat, round: int)
    requires Backed(n, s.sent, before) && ComesFrom(votes, before, incoming, own) && TallyOk(c, votes, t, height, round)
    requires incoming.Some? ==> Authentic(n, s, incoming.value)
    requires s.sent <= sent' && (own.Some? ==> own.value in sent' && Lower(own.value.voter) == own.value.voter)
    ensures Backed(n, sent', votes)
  {
    forall k | k in votes && k in n.honest && IsBlock(votes[k].hash) ensures Canon(votes[k]) in sent' {
      if incoming == Some(votes[k]) {
        AuthenticBlockVote(n, s, votes[k]);
      }
    }
  }

  lemma KeepsBacked(n: Setup, s: Net, p: string, o: Outcome, incoming: Option<Vote>)
    requires p in s.engines && TalliesBacked(n, s)
    requires CountsOnly(s.engines[p], o, incoming) && EngineOk(ConfigOf(n, p), o.state)
    requires incoming.Some? ==> Authentic(n, s, incoming.value)
    requires o.sent.Some? ==> Lower(o.sent.value.voter) == o.sent.value.voter
    ensures TalliesBacked(n, After(s, p, o))
  {
    var s' := After(s, p, o);
    var c, e := ConfigOf(n, p), s.engines[p];
    BackedAfter(n, s, c, o.state.prevotes, e.prevotes, incoming, o.sent, s'.sent, Prevote, o.state.height,
      o.state.round);
    BackedAfter(n, s, c, o.state.precommits, e.precommits, incoming, o.sent, s'.sent, Precommit, o.state.height,
      o.state.round);
    forall q | q in s'.engines
      ensures Backed(n, s'.sent, s'.engines[q].prevotes) && Backed(n, s'.sent, s'.engines[q].precommits)
    {
      if q != p {
        assert Backed(n, s.sent, s.engines[q].prevotes) && Backed(n, s.sent, s.engines[q].precommits);
      }
    }
  }

  /** A quorum in a backed tally is a quorum of the network. */
  lemma TallyIsQuorum(n: Setup, sent: set<Vote>, c: Config, votes: map<string, Vote>, t: VoteType, height: nat,
      round: Int32, hash: string)
    requires c.validators == n.validators && |n.validators| >= 1
    requires TallyOk(c, votes, t, height, round) && Backed(n, sent, votes) && IsBlock(hash)
    requires Tally(votes, hash) >= Quorum(c)
    ensures HasQuorum(n, sent, t, height, round, hash)
  {
    forall k | k in Backers(votes, hash) ensures k in Support(n, sent, t, height, round, hash) {
      if k in n.honest {
        assert Canon(votes[k]) == Vote(t, height, round, hash, k);
      }
    }
    SubsetCard(Backers(votes, hash), Support(n, sent, t, height, round, hash));
  }

  lemma KeepsLocks(n: Setup, s: Net, p: string, o: Outcome)
    requires p in s.engines && |n.validators| >= 1 && LocksJustified(n, s)
    requires LockMoves(ConfigOf(n, p), s.engines[p], o) && EngineOk(ConfigOf(n, p), o.state)
    requires Backed(n, After(s, p, o).sent, o.state.prevotes)
    ensures LocksJustified(n, After(s, p, o))
  {
    var s' := After(s, p, o);
    forall q | q in s'.engines ensures LockJustified(n, s'.sent, s'.engines[q]) {
      var e, e' := s.engines[q], s'.engines[q];
      if e'.lockedRound >= 0 && IsBlock(e'.lockedHash) {
        if e'.height == e.height && e'.lockedRound == e.lockedRound && e'.lockedHash == e.lockedHash {
          assert LockJustified(n, s.sent, e);
          QuorumGrows(n, s.sent, s'.sent, Prevote, e.height, e.lockedRound, e.lockedHash);
        } else {
          TallyIsQuorum(n, s'.sent, ConfigOf(n, p), e'.prevotes, Prevote, e'.height, e'.round, e'.lockedHash);
        }
      }
    }
  }

  lemma KeepsPrecommits(n: Setup, s: Net, p: string, o: Outcome)
    requires p in s.engines && |n.validators| >= 1 && PrecommitsJustified(n, s.sent)
    requires PrecommitsWhatItLocks(ConfigOf(n, p), o) && SendsForward(ConfigOf(n, p), s.engines[p], o)
    requires TallyOk(ConfigOf(n, p), o.state.prevotes, Prevote, o.state.height, o.state.round)
    requires Backed(n, After(s, p, o).sent, o.state.prevotes)
    ensures PrecommitsJustified(n, After(s, p, o).sent)
  {
    var s' := After(s, p, o);
    forall v | v in s'.sent && BlockPrecommit(v) ensures HasQuorum(n, s'.sent, Prevote, v.height, v.round, v.hash) {
      if v in s.sent {
        QuorumGrows(n, s.sent, s'.sent, Prevote, v.height, v.round, v.hash);
      } else {
        TallyIsQuorum(n, s'.sent, ConfigOf(n, p), o.state.prevotes, Prevote, v.height, v.round, v.hash);
      }
    }
  }

  predicate LockOrder(e: State) {
    e.lockedRound <= e.round && (e.lockedRound == e.round ==> Rank(e.step) >= Rank(StepPrecommit))
  }

  /** A lock taken now is from the current round, which no earlier precommit of the engine exceeds; it
      can coincide with one only if that precommit is the lock itself. */
  lemma KeepsRemembered(n: Setup, s: Net, p: string, o: Outcome)
    requires p in s.engines && LocksRemembered(s) && VotesPast(s)
    requires Progress(s.engines[p], o.state) && LockOrder(s.engines[p])
    requires PrecommitsWhatItLocks(ConfigOf(n, p), o) && SendsForward(ConfigOf(n, p), s.engines[p], o)
    requires LockMoves(ConfigOf(n, p), s.engines[p], o) && LocksWithVote(s.engines[p], o)
    ensures LocksRemembered(After(s, p, o))
  {
    var s' := After(s, p, o);
    forall v | v in s'.sent && BlockPrecommit(v) && v.voter in s'.engines ensures Remembers(s'.engines[v.voter], v) {
      if v in s.sent && v.voter == p {
        assert Remembers(s.engines[p], v);
        assert IsPast(s.engines[p], v);
      }
    }
  }

  lemma KeepsPrevotes(n: Setup, s: Net, p: string, o: Outcome)
    requires p in s.engines && PrevotesJustified(n, s.sent) && VotesPast(s)
    requires LocksRemembered(s) && LockJustified(n, s.sent, s.engines[p])
    requires SendsForward(ConfigOf(n, p), s.engines[p], o) && PrevotesItsLock(s.engines[p], o)
    ensures PrevotesJustified(n, After(s, p, o).sent)
  {
    var s' := After(s, p, o);
    forall u, w | u in s'.sent && w in s'.sent && PrevotesAfter(u, w)
      ensures QuorumBetween(n, s'.sent, w.height, u.round, w.round, w.hash)
    {
      assert w in s.sent ==> w.voter in s.engines && IsPast(s.engines[w.voter], w);
      if u in s.sent && w in s.sent {
        assert QuorumBetween(n, s.sent, w.height, u.round, w.round, w.hash);
        var r: Int32 :| u.round <= r < w.round && HasQuorum(n, s.sent, Prevote, w.height, r, w.hash);
        QuorumGrows(n, s.sent, s'.sent, Prevote, w.height, r, w.hash);
      } else if u in s.sent {
        var e := s.engines[p];
        assert Remembers(e, u);
        QuorumGrows(n, s.sent, s'.sent, Prevote, e.height, e.lockedRound, e.lockedHash);
      } else {
        assert false;
      }
    }
  }

  lemma KeepsDecisions(n: Setup, s: Net, p: string, o: Outcome, incoming: Option<Vote>)
    requires p in s.engines && |n.validators| >= 1 && DecisionsCertified(n, s)
    requires DecidesOnQuorum(ConfigOf(n, p), s.engines[p], o, incoming) && Backed(n, s.sent, s.engines[p].precommits)
    requires incoming.Some? ==> Authentic(n, s, incoming.value)
    ensures DecisionsCertified(n, After(s, p, o))
  {
    var s' := After(s, p, o);
    forall d | d in s'.decisions && IsBlock(d.hash)
      ensures d.round >= 0 && HasQuorum(n, s'.sent, Precommit, d.height, d.round, d.hash)
    {
      if d in s.decisions {
        QuorumGrows(n, s.sent, s'.sent, Precommit, d.height, d.round, d.hash);
      } else {
        var c, cert := ConfigOf(n, p), o.decided.value.votes;
        BackedAfter(n, s, c, cert, s.engines[p].precommits, incoming, None, s'.sent, Precommit, d.height, d.round);
        CertificateIsQuorum(n, s'.sent, c, cert, d.height, d.round, d.hash);
      }
    }
  }

  lemma CertificateIsQuorum(n: Setup, sent: set<Vote>, c: Config, cert: map<string, Vote>, height: nat,
      round: Int32, hash: string)
    requires c.validators == n.validators && |n.validators| >= 1 && IsBlock(hash)
    requires TallyOk(c, cert, Precommit, height, round) && Backed(n, sent, cert)
    requires |cert| >= Quorum(c) && forall k | k in cert :: cert[k].hash == hash
    ensures HasQuorum(n, sent, Precommit, height, round, hash)
  {
    assert Backers(cert, hash) == cert.Keys;
    TallyIsQuorum(n, sent, c, cert, Precommit, height, round, hash);
  }

  /** What one action contributes to the proof. */
  lemma ActionFacts(n: Setup, s: Net, p: string, ev: Event)
    requires ValidSetup(n) && EnginesOk(n, s) && Permitted(n, s, p, ev)
    ensures var c, e, o := ConfigOf(n, p), s.engines[p], Step(ConfigOf(n, p), s.engines[p], ev);
            && EngineOk(c, o.state) && Progress(e, o.state)
            && VoteFacts(c, e, o) && CountFacts(c, e, o, Incoming(ev))
            && (o.sent.Some? ==> Lower(o.sent.value.voter) == o.sent.value.voter)
            && |n.validators| >= 1
  {
    var c, e := ConfigOf(n, p), s.engines[p];
    assert ValidConfig(c);
    assert EngineOk(c, e);
    StepKeepsOk(c, e, ev);
    StepVotes(c, e, ev);
    StepCounts(c, e, ev);
  }

  /** Every action of every run keeps the invariant. */
  lemma NextKeepsInv(n: Setup, s: Net, p: string, ev: Event)
    requires ValidSetup(n) && Inv(n, s) && Permitted(n, s, p, ev)
    ensures Inv(n, Next(n, s, p, ev))
  {
    var o := Step(ConfigOf(n, p), s.engines[p], ev);
    ActionFacts(n, s, p, ev);
    KeepsInv(n, s, p, o, Incoming(ev));
  }

  lemma KeepsInv(n: Setup, s: Net, p: string, o: Outcome, incoming: Option<Vote>)
    requires Inv(n, s) && p in s.engines && |n.validators| >= 1
    requires EngineOk(ConfigOf(n, p), o.state) && Progress(s.engines[p], o.state)
    requires VoteFacts(ConfigOf(n, p), s.engines[p], o) && CountFacts(ConfigOf(n, p), s.engines[p], o, incoming)
    requires o.sent.Some? ==> Lower(o.sent.value.voter) == o.sent.value.voter
    requires incoming.Some? ==> Authentic(n, s, incoming.value)
    ensures Inv(n, After(s, p, o))
  {
    KeepsPositions(n, s, p, o);
    KeepsBacked(n, s, p, o, incoming);
    KeepsJustified(n, s, p, o);
    KeepsMemory(n, s, p, o);
    KeepsCertified(n, s, p, o, incoming);
  }

  lemma KeepsPositions(n: Setup, s: Net, p: string, o: Outcome)
    requires p in s.engines && EnginesOk(n, s) && VotesPast(s) && SignsOnce(s.sent)
    requires EngineOk(ConfigOf(n, p), o.state) && Progress(s.engines[p], o.state)
    requires SendsForward(ConfigOf(n, p), s.engines[p], o)
    ensures var s' := After(s, p, o); EnginesOk(n, s') && VotesPast(s') && SignsOnce(s'.sent)
  {
    KeepsVotesPast(n, s, p, o);
    KeepsSignsOnce(n, s, p, o);
  }

  lemma KeepsJustified(n: Setup, s: Net, p: string, o: Outcome)
    requires p in s.engines && |n.validators| >= 1 && LocksJustified(n, s) && PrecommitsJustified(n, s.sent)
    requires EngineOk(ConfigOf(n, p), o.state) && LockMoves(ConfigOf(n, p), s.engines[p], o)
    requires PrecommitsWhatItLocks(ConfigOf(n, p), o) && SendsForward(ConfigOf(n, p), s.engines[p], o)
    requires TalliesBacked(n, After(s, p, o))
    ensures LocksJustified(n, After(s, p, o)) && PrecommitsJustified(n, After(s, p, o).sent)
  {
    var s' := After(s, p, o);
    assert Backed(n, s'.sent, s'.engines[p].prevotes);
    KeepsLocks(n, s, p, o);
    KeepsPrecommits(n, s, p, o);
  }

  lemma KeepsMemory(n: Setup, s: Net, p: string, o: Outcome)
    requires p in s.engines && EnginesOk(n, s) && VotesPast(s) && LocksRemembered(s)
    requires LocksJustified(n, s) && PrevotesJustified(n, s.sent) && Progress(s.engines[p], o.state)
    requires VoteFacts(ConfigOf(n, p), s.engines[p], o)
    ensures LocksRemembered(After(s, p, o)) && PrevotesJustified(n, After(s, p, o).sent)
  {
    assert EngineOk(ConfigOf(n, p), s.engines[p]);
    assert LockJustified(n, s.sent, s.engines[p]);
    KeepsRemembered(n, s, p, o);
    KeepsPrevotes(n, s, p, o);
  }

  lemma KeepsCertified(n: Setup, s: Net, p: string, o: Outcome, incoming: Option<Vote>)
    requires p in s.engines && |n.validators| >= 1 && DecisionsCertified(n, s) && TalliesBacked(n, s)
    requires DecidesOnQuorum(ConfigOf(n, p), s.engines[p], o, incoming)
    requires incoming.Some? ==> Authentic(n, s, incoming.value)
    ensures DecisionsCertified(n, After(s, p, o))
  {
    assert Backed(n, s.sent, s.engines[p].precommits);
    KeepsDecisions(n, s, p, o, incoming);
  }

  lemma StartInv(n: Setup, s: Net)
    requires Start(n, s)
    ensures Inv(n, s)
  {
    forall p | p in s.engines ensures EngineOk(ConfigOf(n, p), s.engines[p]) && s.engines[p].lockedRound == -1 {
      assert s.engines[p] == Initial(s.engines[p].height);
    }
  }

  lemma RunStep(n: Setup, states: seq<Net>, actions: seq<Action>, i: nat)
    requires Run(n, states, actions) && i < |actions|
    ensures Permitted(n, states[i], actions[i].who, actions[i].event)
    ensures states[i + 1] == Next(n, states[i], actions[i].who, actions[i].event)
  {
    assert Acting(n)(states[i], actions[i], states[i + 1]);
  }

  ghost function Invariant(n: Setup): Net -> bool {
    (s: Net) => Inv(n, s)
  }

  lemma InvIsInductive(n: Setup)
    requires ValidSetup(n)
    ensures Preserves(Acting(n), Invariant(n))
  {
    forall s, a, s' | Invariant(n)(s) && Acting(n)(s, a, s') ensures Invariant(n)(s') {
      NextKeepsInv(n, s, a.who, a.event);
    }
  }

  /** The invariant holds in every state of every run. */
  lemma RunKeepsInv(n: Setup, states: seq<Net>, actions: seq<Action>, i: nat)
    requires ValidSetup(n) && Run(n, states, actions) && i < |states|
    ensures Inv(n, states[i])
  {
    StartInv(n, states[0]);
    InvIsInductive(n);
    Invariance(Acting(n), Invariant(n), states, actions, i);
    assert Invariant(n)(states[i]);
  }

  // ---------------------------------------------------------------- agreement

  /** Once a quorum precommits a block, no other block gets a prevote quorum in that round or any
      later one of the height. */
  lemma {:induction false} LockedIn(n: Setup, s: Net, height: nat, r: Int32, h: string, r': Int32, h': string)
    requires ValidSetup(n) && Inv(n, s) && IsBlock(h) && IsBlock(h')
    requires HasQuorum(n, s.sent, Precommit, height, r, h)
    requires r <= r' && HasQuorum(n, s.sent, Prevote, height, r', h')
    ensures h == h'
    decreases r' - r
  {
    var p := SharedSigner(n, s.sent, Precommit, height, r, h, Prevote, r', h');
    var u, w := Vote(Precommit, height, r, h, p), Vote(Prevote, height, r', h', p);
    if r == r' {
      assert HasQuorum(n, s.sent, Prevote, u.height, u.round, u.hash);
      var q := SharedSigner(n, s.sent, Prevote, height, r, h, Prevote, r, h');
      assert SamePlace(Vote(Prevote, height, r, h, q), Vote(Prevote, height, r, h', q));
    } else {
      assert PrevotesAfter(u, w);
      assert QuorumBetween(n, s.sent, w.height, u.round, w.round, w.hash);
      var m: Int32 :| u.round <= m < w.round && HasQuorum(n, s.sent, Prevote, height, m, h');
      LockedIn(n, s, height, r, h, m, h');
    }
  }

  lemma QuorumsAgree(n: Setup, s: Net, height: nat, r: Int32, h: string, r': Int32, h': string)
    requires ValidSetup(n) && Inv(n, s) && IsBlock(h) && IsBlock(h') && r <= r'
    requires HasQuorum(n, s.sent, Precommit, height, r, h) && HasQuorum(n, s.sent, Precommit, height, r', h')
    ensures h == h'
  {
    var p := SharedSigner(n, s.sent, Precommit, height, r', h', Precommit, r', h');
    assert BlockPrecommit(Vote(Precommit, height, r', h', p));
    LockedIn(n, s, height, r, h, r', h');
  }

  /** AGREEMENT. In every run with fewer than a third of the members faulty, in which no round counter runs
      over, any two decisions of honest engines on blocks of one height, in whatever rounds, are for the same
      block. */
  lemma Agreement(n: Setup, states: seq<Net>, actions: seq<Action>, d1: Decision, d2: Decision, i: nat, j: nat)
    requires ValidSetup(n) && Run(n, states, actions) && i < |states| && j < |states|
    requires d1 in states[i].decisions && d2 in states[j].decisions && d1.height == d2.height
    requires IsBlock(d1.hash) && IsBlock(d2.hash)
    ensures d1.hash == d2.hash
  {
    var k := if i < j then j else i;
    DecisionsStay(n, states, actions, i, k);
    DecisionsStay(n, states, actions, j, k);
    RunKeepsInv(n, states, actions, k);
    if d1.round <= d2.round {
      QuorumsAgree(n, states[k], d1.height, d1.round, d1.hash, d2.round, d2.hash);
    } else {
      QuorumsAgree(n, states[k], d1.height, d2.round, d2.hash, d1.round, d1.hash);
    }
  }

  lemma StepAddsOnly(n: Setup, states: seq<Net>, actions: seq<Action>, i: nat)
    requires Run(n, states, actions) && i < |actions|
    ensures states[i].decisions <= states[i + 1].decisions && states[i].sent <= states[i + 1].sent
  {
    RunStep(n, states, actions, i);
  }

  lemma {:induction false} DecisionsStay(n: Setup, states: seq<Net>, actions: seq<Action>, i: nat, k: nat)
    requires Run(n, states, actions) && i <= k < |states|
    ensures states[i].decisions <= states[k].decisions
    ensures states[i].sent <= states[k].sent
    decreases k - i
  {
    if i < k {
      DecisionsStay(n, states, actions, i, k - 1);
      StepAddsOnly(n, states, actions, k - 1);
    }
  }

  /** LOCK PERSISTENCE. In a reachable state, once a quorum precommitted a block, every honest engine
      that signed that precommit is locked at that round or a later one for as long as it stays at the
      height, and on no other block. The literal "NIL" is the exception: see `Decisions.LockPersistsExactly`. */
  lemma LockPersists(n: Setup, states: seq<Net>, actions: seq<Action>, i: nat, k: nat, height: nat, r: Int32,
      h: string, p: string)
    requires ValidSetup(n) && Run(n, states, actions) && i <= k < |states| && IsBlock(h)
    requires HasQuorum(n, states[i].sent, Precommit, height, r, h)
    requires p in n.honest && Vote(Precommit, height, r, h, p) in states[i].sent
    requires p in states[k].engines && states[k].engines[p].height == height
    ensures states[k].engines[p].lockedRound >= r >= 0
    ensures IsBlock(states[k].engines[p].lockedHash) ==> states[k].engines[p].lockedHash == h
  {
    var s := states[k];
    RunKeepsInv(n, states, actions, k);
    DecisionsStay(n, states, actions, i, k);
    QuorumGrows(n, states[i].sent, s.sent, Precommit, height, r, h);
    LockedOn(n, s, height, r, h, p);
  }

  lemma LockedOn(n: Setup, s: Net, height: nat, r: Int32, h: string, p: string)
    requires ValidSetup(n) && Inv(n, s) && IsBlock(h) && HasQuorum(n, s.sent, Precommit, height, r, h)
    requires Vote(Precommit, height, r, h, p) in s.sent && p in s.engines && s.engines[p].height == height
    ensures s.engines[p].lockedRound >= r >= 0
    ensures IsBlock(s.engines[p].lockedHash) ==> s.engines[p].lockedHash == h
  {
    var e := s.engines[p];
    assert Remembers(e, Vote(Precommit, height, r, h, p));
    if IsBlock(e.lockedHash) {
      assert LockJustified(n, s.sent, e);
      LockedIn(n, s, height, r, h, e.lockedRound, e.lockedHash);
    }
  }

  /** NO EQUIVOCATION. Over a whole run, in which no round counter runs over, an honest engine signs at most
      one prevote and one precommit for a (height, round). */
  lemma NoEquivocation(n: Setup, states: seq<Net>, actions: seq<Action>, i: nat, j: nat, u: Vote, v: Vote)
    requires ValidSetup(n) && Run(n, states, actions) && i < |states| && j < |states|
    requires u in states[i].sent && v in states[j].sent && SamePlace(u, v)
    ensures u == v
  {
    var k := if i < j then j else i;
    DecisionsStay(n, states, actions, i, k);
    DecisionsStay(n, states, actions, j, k);
    RunKeepsInv(n, states, actions, k);
  }

  lemma ActionAdvances(n: Setup, s: Net, who: string, ev: Event, p: string)
    requires Permitted(n, s, who, ev) && p in s.engines
    ensures p in Next(n, s, who, ev).engines && Progress(s.engines[p], Next(n, s, who, ev).engines[p])
  {
    ProgressUnlessRoundWraps(ConfigOf(n, who), s.engines[who], ev);
  }

  /** Positions never go back, from any state of a run to any later one; a run lets no round counter run
      over. */
  lemma {:induction false} PositionsAdvance(n: Setup, states: seq<Net>, actions: seq<Action>, i: nat, j: nat, p: string)
    requires ValidSetup(n) && Run(n, states, actions) && i <= j < |states| && p in states[i].engines
    ensures p in states[j].engines && Progress(states[i].engines[p], states[j].engines[p])
    decreases j
  {
    if i < j {
      PositionsAdvance(n, states, actions, i, j - 1, p);
      StepAdvances(n, states, actions, j - 1, p);
      ProgressTransitive(states[i].engines[p], states[j - 1].engines[p], states[j].engines[p]);
    }
  }

  lemma StepAdvances(n: Setup, states: seq<Net>, actions: seq<Action>, i: nat, p: string)
    requires Run(n, states, actions) && i < |actions| && p in states[i].engines
    ensures p in states[i + 1].engines && Progress(states[i].engines[p], states[i + 1].engines[p])
  {
    RunStep(n, states, actions, i);
    ActionAdvances(n, states[i], actions[i].who, actions[i].event, p);
  }

  lemma ProgressTransitive(a: State, b: State, c: State)
    requires Progress(a, b) && Progress(b, c)
    ensures Progress(a, c)
  {
  }
}
