/**
 Sealing and replaying blocks (internal/consensus/producer.go:176-239, internal/consensus/seal.go:95-188).
 A node is its books and its chain. The leader applies what it can and seals that; a follower checks
 the announced block and applies all of it, or stops at the first failure.
 */
module Blocks {
  import opened Text
  import opened Accounts
  import opened BlockHash
  import opened Merkle
  import opened Ledger
  import opened Chain
  import opened Folds

  datatype Node = Node(books: Books, chain: Chain)

  /** "0x" and the 64 digits of a transaction's SHA-256. */
  type TxHash = s: string | |s| == 66 witness "000000000000000000000000000000000000000000000000000000000000000000"

  /** The hash functions a node uses: for blocks, for its account table, for transactions. */
  datatype Env = Env(blockHash: Hashing, stateRoot: map<string, Account> -> string, txHash: Tx -> TxHash)

  /** The ones in use: the block hash and the Merkle state root, both from SHA-256. */
  ghost function EnvOf(sha: Sha, txHash: Tx -> TxHash): Env {
    Env(HashOf(sha), (m: map<string, Account>) => HashHex(StateRoot(Hash(sha), m)), txHash)
  }

  /** What signing a block came to. */
  datatype Signing = NoKey | Signed(signature: string) | SigningFails

  /** A gossiped block. */
  datatype Block = Block(height: nat, hash: string, prevHash: string, timestamp: int, proposer: string,
    signature: string, txs: seq<Tx>)

  /** What a follower finds out about a block outside this model: who may propose, whether the proposer
      is jailed, whether the signature verifies, and the signature checks of each transaction. */
  datatype Verdict = Verdict(allowed: seq<string>, jailed: bool, signatureOk: bool, checks: Tx -> Checks)

  ghost function Applying(): (Books, Tx) -> Option<Books> {
    (b: Books, t: Tx) => Apply(b, t)
  }

  function HashList(env: Env, txs: seq<Tx>): (r: seq<TxHash>)
    ensures |r| == |txs| && TxHashList(r)
  {
    seq<TxHash>(|txs|, i requires 0 <= i < |txs| => env.txHash(txs[i]))
  }

  function BlockHashOf(env: Env, height: nat, prevHash: string, txs: seq<Tx>, timestamp: int,
      proposer: string): string {
    env.blockHash(Covered(height, prevHash, HashList(env, txs), timestamp, proposer))
  }

  function HeaderFor(env: Env, height: nat, prevHash: string, stateRoot: string, txs: seq<Tx>, timestamp: int,
      proposer: string, signature: string): Header {
    Header(height, BlockHashOf(env, height, prevHash, txs, timestamp, proposer), prevHash, stateRoot,
           HashList(env, txs), timestamp, proposer, |txs|, signature)
  }

  // ---------------------------------------------------------------- sealing

  datatype SealResult = SealResult(node: Node, sealed: Option<(Header, seq<Tx>)>)

  /** `SealBlockWithTxs`. */
  ghost function Seal(env: Env, n: Node, proposer: string, txs: seq<Tx>, timestamp: int, signing: Signing): SealResult {
    var prev := ExpectedPrev(n.chain);
    if prev.None? then SealResult(n, None)
    else
      var books := Lenient(Applying(), n.books, txs);
      if signing.SigningFails? then SealResult(n.(books := books), None)
      else
        var header := SealedHeader(env, n, prev.value, proposer, txs, timestamp, signing);
        SealResult(Node(books, Append(n.chain, header)), Some((header, Passed(Applying(), n.books, txs))))
  }

  ghost function SealedHeader(env: Env, n: Node, prevHash: string, proposer: string, txs: seq<Tx>, timestamp: int,
      signing: Signing): Header {
    HeaderFor(env, n.chain.tip + 1, prevHash, env.stateRoot(Lenient(Applying(), n.books, txs).accounts),
              Passed(Applying(), n.books, txs), timestamp, proposer, if signing.Signed? then signing.signature else "")
  }

  // ---------------------------------------------------------------- importing

  ghost predicate ProposerAllowed(allowed: seq<string>, proposer: string) {
    allowed == [] || exists a | a in allowed :: Lower(a) == Lower(proposer)
  }

  predicate SignatureAccepted(blk: Block, v: Verdict) {
    if blk.signature != "" then blk.proposer != "" && v.signatureOk else |v.allowed| <= 1
  }

  ghost predicate AllValid(txs: seq<Tx>, checks: Tx -> Checks) {
    forall t | t in txs :: ValidateBasic(t, checks(t))
  }

  /** Every check before the first transaction is applied. */
  ghost predicate Admits(env: Env, n: Node, blk: Block, v: Verdict) {
    && blk.height == n.chain.tip + 1
    && ExpectedPrev(n.chain) == Some(blk.prevHash)
    && ProposerAllowed(v.allowed, blk.proposer) && !v.jailed
    && AllValid(blk.txs, v.checks)
    && BlockHashOf(env, blk.height, blk.prevHash, blk.txs, blk.timestamp, blk.proposer) == blk.hash
    && SignatureAccepted(blk, v)
  }

  datatype ImportResult = ImportResult(node: Node, ok: bool)

  /** `VerifyAndSaveGossipedBlockStrict`. Transactions are applied one by one, so a block refused half
      way leaves the part before the failing transaction behind. */
  ghost function Import(env: Env, n: Node, blk: Block, v: Verdict): ImportResult {
    if !Admits(env, n, blk, v) then ImportResult(n, false)
    else
      var (books, ok) := Strict(Applying(), n.books, blk.txs);
      if !ok then ImportResult(n.(books := books), false)
      else ImportResult(Node(books, Append(n.chain, ImportedHeader(env, blk.height, blk))), true)
  }

  function ImportedHeader(env: Env, height: nat, blk: Block): Header {
    HeaderFor(env, height, blk.prevHash, "", blk.txs, blk.timestamp, blk.proposer, blk.signature)
  }

  // ---------------------------------------------------------------- replication

  /** The announcement of a sealed block. */
  function Announce(sealed: (Header, seq<Tx>)): Block {
    var h := sealed.0;
    Block(h.height, h.hash, h.prevHash, h.timestamp, h.proposer, h.signature, sealed.1)
  }

  /** LEADER AND FOLLOWER AGREE. A follower with the leader's books, height and tip hash that accepts the
      proposer, the signature and each sealed transaction imports the announced block without fail, and
      ends with equal accounts, buckets, height and block, and with the state root the leader sealed. */
  lemma Replication(env: Env, leader: Node, follower: Node, proposer: string, txs: seq<Tx>, timestamp: int,
      signing: Signing, v: Verdict)
    requires leader.books == follower.books && leader.chain.tip == follower.chain.tip
    requires ExpectedPrev(leader.chain) == ExpectedPrev(follower.chain)
    requires Seal(env, leader, proposer, txs, timestamp, signing).sealed.Some?
    requires var sealed := Seal(env, leader, proposer, txs, timestamp, signing).sealed.value;
             && ProposerAllowed(v.allowed, proposer) && !v.jailed && AllValid(sealed.1, v.checks)
             && SignatureAccepted(Announce(sealed), v)
    ensures var l := Seal(env, leader, proposer, txs, timestamp, signing);
            var f := Import(env, follower, Announce(l.sealed.value), v);
            && f.ok && f.node.books == l.node.books && f.node.chain.tip == l.node.chain.tip
            && l.node.chain.tip in l.node.chain.blocks && f.node.chain.tip in f.node.chain.blocks
            && SameBlock(l.node.chain.blocks[l.node.chain.tip], f.node.chain.blocks[f.node.chain.tip])
            && env.stateRoot(f.node.books.accounts) == l.sealed.value.0.stateRoot
  {
    ReplayPassed(Applying(), leader.books, txs);
    AnnouncedIsAdmitted(env, leader, follower, proposer, txs, timestamp, signing, v);
  }

  lemma AnnouncedIsAdmitted(env: Env, leader: Node, follower: Node, proposer: string, txs: seq<Tx>, timestamp: int,
      signing: Signing, v: Verdict)
    requires leader.chain.tip == follower.chain.tip && ExpectedPrev(leader.chain) == ExpectedPrev(follower.chain)
    requires Seal(env, leader, proposer, txs, timestamp, signing).sealed.Some?
    requires var sealed := Seal(env, leader, proposer, txs, timestamp, signing).sealed.value;
             && ProposerAllowed(v.allowed, proposer) && !v.jailed && AllValid(sealed.1, v.checks)
             && SignatureAccepted(Announce(sealed), v)
    ensures Admits(env, follower, Announce(Seal(env, leader, proposer, txs, timestamp, signing).sealed.value), v)
  {
  }

  /** A sealed header pins down the accounts behind it: another table has the sealed state root if and
      only if it is the leader's table after sealing, unless SHA-256 collides on the two trees. */
  lemma SealedRootFixesAccounts(sha: Sha, txHash: Tx -> TxHash, n: Node, proposer: string, txs: seq<Tx>,
      timestamp: int, signing: Signing, accounts: map<string, Account>)
    requires Seal(EnvOf(sha, txHash), n, proposer, txs, timestamp, signing).sealed.Some?
    requires var after := Seal(EnvOf(sha, txHash), n, proposer, txs, timestamp, signing).node.books.accounts;
             && NormalKeys(after) && NormalKeys(accounts)
             && Injective(sha, Encodings(Inputs(Hash(sha), SortedLeaves(accounts))
                                         + Inputs(Hash(sha), SortedLeaves(after))))
    ensures var r := Seal(EnvOf(sha, txHash), n, proposer, txs, timestamp, signing);
            HashHex(StateRoot(Hash(sha), accounts)) == r.sealed.value.0.stateRoot <==> accounts == r.node.books.accounts
  {
    var r := Seal(EnvOf(sha, txHash), n, proposer, txs, timestamp, signing);
    SealedRootIsStateRoot(sha, txHash, n, proposer, txs, timestamp, signing);
    RootTextFixesAccounts(sha, accounts, r.node.books.accounts);
  }

  lemma SealedRootIsStateRoot(sha: Sha, txHash: Tx -> TxHash, n: Node, proposer: string, txs: seq<Tx>,
      timestamp: int, signing: Signing)
    requires Seal(EnvOf(sha, txHash), n, proposer, txs, timestamp, signing).sealed.Some?
    ensures var r := Seal(EnvOf(sha, txHash), n, proposer, txs, timestamp, signing);
            r.sealed.value.0.stateRoot == HashHex(StateRoot(Hash(sha), r.node.books.accounts))
  {
  }

  lemma RootTextFixesAccounts(sha: Sha, m1: map<string, Account>, m2: map<string, Account>)
    requires NormalKeys(m1) && NormalKeys(m2)
    requires Injective(sha, Encodings(Inputs(Hash(sha), SortedLeaves(m1)) + Inputs(Hash(sha), SortedLeaves(m2))))
    ensures HashHex(StateRoot(Hash(sha), m1)) == HashHex(StateRoot(Hash(sha), m2)) <==> m1 == m2
  {
    if HashHex(StateRoot(Hash(sha), m1)) == HashHex(StateRoot(Hash(sha), m2)) {
      HashHexInjective(StateRoot(Hash(sha), m1), StateRoot(Hash(sha), m2));
      StateRootCommits(sha, m1, m2);
    }
  }

  // ---------------------------------------------------------------- what blocks keep

  lemma HeaderExtends(env: Env, c: Chain, prevHash: string, root: string, txs: seq<Tx>, timestamp: int,
      proposer: string, sig: string)
    requires ExpectedPrev(c) == Some(prevHash)
    ensures Extends(env.blockHash, c, HeaderFor(env, c.tip + 1, prevHash, root, txs, timestamp, proposer, sig))
  {
  }

  lemma ExtendingMoves(f: Hashing, c: Chain, h: Header)
    requires Extends(f, c, h)
    ensures Moves(f, c, Append(c, h))
  {
  }

  lemma SealedHeaderExtends(env: Env, n: Node, prevHash: string, proposer: string, txs: seq<Tx>, timestamp: int,
      signing: Signing)
    requires ExpectedPrev(n.chain) == Some(prevHash)
    ensures Extends(env.blockHash, n.chain, SealedHeader(env, n, prevHash, proposer, txs, timestamp, signing))
  {
    HeaderExtends(env, n.chain, prevHash, env.stateRoot(Lenient(Applying(), n.books, txs).accounts),
                  Passed(Applying(), n.books, txs), timestamp, proposer,
                  if signing.Signed? then signing.signature else "");
  }

  /** Sealing and importing extend the chain by a fitting block or leave it alone. */
  lemma SealMovesChain(env: Env, n: Node, proposer: string, txs: seq<Tx>, timestamp: int, signing: Signing)
    ensures Moves(env.blockHash, n.chain, Seal(env, n, proposer, txs, timestamp, signing).node.chain)
  {
    if ExpectedPrev(n.chain).Some? && !signing.SigningFails? {
      var prev := ExpectedPrev(n.chain).value;
      SealedHeaderExtends(env, n, prev, proposer, txs, timestamp, signing);
      ExtendingMoves(env.blockHash, n.chain, SealedHeader(env, n, prev, proposer, txs, timestamp, signing));
    }
  }

  lemma ImportMovesChain(env: Env, n: Node, blk: Block, v: Verdict)
    ensures Moves(env.blockHash, n.chain, Import(env, n, blk, v).node.chain)
  {
    if ExpectedPrev(n.chain) == Some(blk.prevHash) {
      HeaderExtends(env, n.chain, blk.prevHash, "", blk.txs, blk.timestamp, blk.proposer, blk.signature);
      ExtendingMoves(env.blockHash, n.chain, ImportedHeader(env, n.chain.tip + 1, blk));
    }
  }

  // ---------------------------------------------------------------- books over blocks

  /** What a leader's pass over its transactions does to the books is the run of them. */
  lemma {:induction false} LenientIsRun(b: Books, txs: seq<Tx>, k: nat)
    requires k <= |txs|
    ensures Lenient(Applying(), b, txs[..k]) == BooksAt(b, txs, k)
    decreases k
  {
    if k > 0 {
      LenientIsRun(b, txs, k - 1);
      assert txs[..k][..k - 1] == txs[..k - 1];
      ApplyIsStep(BooksAt(b, txs, k - 1), txs, k - 1);
    }
  }

  lemma ApplyIsStep(b: Books, txs: seq<Tx>, i: nat)
    requires i < |txs|
    ensures ApplyOne(b, Keys(txs)[i]) == Applying()(b, txs[i])
  {
  }

  /** CONSERVATION OVER BLOCKS. Sealing a block from validated transactions without self-transfers keeps
      the books sound and mints only from the mining bucket. */
  lemma SealConserves(env: Env, n: Node, proposer: string, txs: seq<Tx>, timestamp: int, signing: Signing)
    requires Sound(n.books) && forall t | t in txs :: Validated(t) && !SelfTransfer(t)
    ensures var b, b' := n.books, Seal(env, n, proposer, txs, timestamp, signing).node.books;
            && Sound(b') && Potential(b') == Potential(b)
            && Total(b'.accounts) == Total(b.accounts) + InSubunits(MintedBy(b, b'))
  {
    LenientIsRun(n.books, txs, |txs|);
    assert txs[..|txs|] == txs;
    RunConserves(n.books, txs, |txs|);
  }

  lemma {:induction false} StrictConserves(b: Books, txs: seq<Tx>)
    requires Sound(b) && forall t | t in txs :: Validated(t) && !SelfTransfer(t)
    ensures var b' := Strict(Applying(), b, txs).0;
            && Sound(b') && Potential(b') == Potential(b)
            && Total(b'.accounts) == Total(b.accounts) + InSubunits(MintedBy(b, b'))
    decreases |txs|
  {
    if txs != [] {
      var n := |txs| - 1;
      StrictConserves(b, txs[..n]);
      var b1 := Strict(Applying(), b, txs[..n]).0;
      if Apply(b1, txs[n]).Some? {
        ApplyConserves(b1, txs[n]);
      }
    }
  }

  lemma ValidTxsAreValidated(txs: seq<Tx>, checks: Tx -> Checks)
    requires AllValid(txs, checks)
    ensures forall t | t in txs :: Validated(t)
  {
  }

  /** Importing a block without self-transfers conserves in the same way, whether it is accepted, refused
      by the checks, or refused half way: the check of each transaction is part of the import. */
  lemma ImportConserves(env: Env, n: Node, blk: Block, v: Verdict)
    requires Sound(n.books) && forall t | t in blk.txs :: !SelfTransfer(t)
    ensures var b, b' := n.books, Import(env, n, blk, v).node.books;
            && Sound(b') && Potential(b') == Potential(b)
            && Total(b'.accounts) == Total(b.accounts) + InSubunits(MintedBy(b, b'))
  {
    if Admits(env, n, blk, v) {
      ValidTxsAreValidated(blk.txs, v.checks);
      StrictConserves(n.books, blk.txs);
    }
  }

  // ---------------------------------------------------------------- whole runs of a node

  /** What a node does to its store. */
  datatype NodeOp =
    | Sealing(proposer: string, txs: seq<Tx>, timestamp: int, signing: Signing)
    | Importing(blk: Block, verdict: Verdict)
    | Pruning(keep: int)

  ghost function After(env: Env, n: Node, op: NodeOp): Node {
    match op
    case Sealing(proposer, txs, timestamp, signing) => Seal(env, n, proposer, txs, timestamp, signing).node
    case Importing(blk, v) => Import(env, n, blk, v).node
    case Pruning(keep) => n.(chain := Prune(n.chain, keep))
  }

  ghost function Operating(env: Env): (Node, NodeOp, Node) -> bool {
    (n: Node, op: NodeOp, n': Node) => n' == After(env, n, op)
  }

  lemma OpMovesChain(env: Env, n: Node, op: NodeOp)
    ensures Moves(env.blockHash, n.chain, After(env, n, op).chain)
  {
    match op
    case Sealing(proposer, txs, timestamp, signing) => SealMovesChain(env, n, proposer, txs, timestamp, signing);
    case Importing(blk, v) => ImportMovesChain(env, n, blk, v);
    case Pruning(keep) =>
  }

  /** CHAIN INTEGRITY of a node. However a node that starts without blocks seals, imports and prunes, its
      chain stays contiguous, linked and hashed over its own fields with SHA-256. */
  lemma NodeKeepsChain(sha: Sha, txHash: Tx -> TxHash, nodes: seq<Node>, ops: seq<NodeOp>, i: nat)
    requires Connected(Operating(EnvOf(sha, txHash)), nodes, ops) && nodes[0].chain == Chain(map[], 0) && i < |nodes|
    ensures ChainOk(HashOf(sha), nodes[i].chain)
  {
    HashOfIsPlain(sha);
    var chains := seq(|nodes|, k requires 0 <= k < |nodes| => nodes[k].chain);
    forall k | 0 <= k < |chains| - 1 ensures Moves(HashOf(sha), chains[k], chains[k + 1]) {
      assert Operating(EnvOf(sha, txHash))(nodes[k], ops[k], nodes[k + 1]);
      OpMovesChain(EnvOf(sha, txHash), nodes[k], ops[k]);
    }
    RunKeepsChain(HashOf(sha), chains, i);
  }

  /** No transaction in the operation is a self-transfer, and those to be sealed were validated. */
  ghost predicate Regular(op: NodeOp) {
    match op
    case Sealing(_, txs, _, _) => forall t | t in txs :: Validated(t) && !SelfTransfer(t)
    case Importing(blk, _) => forall t | t in blk.txs :: !SelfTransfer(t)
    case Pruning(_) => true
  }

  ghost predicate Conserves(b: Books, b': Books) {
    Sound(b') && Potential(b') == Potential(b) && Total(b'.accounts) == Total(b.accounts) + InSubunits(MintedBy(b, b'))
  }

  lemma OpConserves(env: Env, n: Node, op: NodeOp)
    requires Sound(n.books) && Regular(op)
    ensures Conserves(n.books, After(env, n, op).books)
  {
    match op
    case Sealing(proposer, txs, timestamp, signing) => SealConserves(env, n, proposer, txs, timestamp, signing);
    case Importing(blk, v) => ImportConserves(env, n, blk, v);
    case Pruning(keep) =>
  }

  /** CONSERVATION of a node. However it seals, imports and prunes, blocks refused half way included, the
      supply is the initial one plus what the mining bucket minted. */
  lemma {:induction false} NodeConserves(env: Env, nodes: seq<Node>, ops: seq<NodeOp>, i: nat)
    requires Connected(Operating(env), nodes, ops) && Sound(nodes[0].books) && i < |nodes|
    requires forall k | 0 <= k < |ops| :: Regular(ops[k])
    ensures Conserves(nodes[0].books, nodes[i].books)
  {
    if i > 0 {
      NodeConserves(env, nodes, ops, i - 1);
      assert Operating(env)(nodes[i - 1], ops[i - 1], nodes[i - 1 + 1]);
      OpConserves(env, nodes[i - 1], ops[i - 1]);
    }
  }

  // ---------------------------------------------------------------- refused half way

  /** Some nonce has risen. */
  ghost predicate NonceRose(b: Books, b': Books) {
    exists k :: At(b'.accounts, k).nonce > At(b.accounts, k).nonce
  }

  ghost predicate NoNonceFell(b: Books, b': Books) {
    forall k :: At(b'.accounts, k).nonce >= At(b.accounts, k).nonce
  }

  /** The balance has grown, or has run over into the negative. */
  ghost predicate Grew(b: Books, b': Books, k: string) {
    At(b'.accounts, k).balance > At(b.accounts, k).balance || At(b'.accounts, k).balance < 0
  }

  ghost predicate OnlyGrew(b: Books, b': Books) {
    && (forall k :: At(b'.accounts, k).balance == At(b.accounts, k).balance || Grew(b, b', k))
    && exists k :: Grew(b, b', k)
  }

  ghost predicate BalancesFit(b: Books) {
    forall k :: At(b.accounts, k).balance <= MAX_INT64
  }

  /** What numbered transactions leave behind and never take back: a risen nonce, or, as long as only
      self-transfers went through, a grown balance. */
  ghost predicate Trace(b: Books, b': Books) {
    NoNonceFell(b, b') && BalancesFit(b') && (NonceRose(b, b') || OnlyGrew(b, b'))
  }

  lemma FitStays(b: Books, t: Tx, f: string, g: string)
    requires BalancesFit(b) && ApplyKeyed(b, t, f, g).Some?
    ensures BalancesFit(ApplyKeyed(b, t, f, g).value)
  {
    var b' := ApplyKeyed(b, t, f, g).value;
    forall k ensures At(b'.accounts, k).balance <= MAX_INT64 {
      assert At(b.accounts, k).balance <= MAX_INT64 && At(b.accounts, f).balance <= MAX_INT64;
    }
  }

  /** A numbered transaction that is no self-transfer. */
  lemma NumberedLeavesTrace(b: Books, b1: Books, t: Tx)
    requires NoNonceFell(b, b1) && BalancesFit(b1) && Apply(b1, t).Some? && t.nonce >= 1 && !SelfTransfer(t)
    ensures Trace(b, Apply(b1, t).value)
  {
    var b2 := Apply(b1, t).value;
    NonceRises(b1, t);
    FitStays(b1, t, Norm(t.from), Norm(t.to));
    assert At(b2.accounts, Norm(t.from)).nonce > At(b.accounts, Norm(t.from)).nonce;
  }

  lemma SelfTransferEffect(b: Books, t: Tx, f: string)
    requires t.ttype == Transfer && t.amount > 0 && BalancesFit(b) && ApplyKeyed(b, t, f, f).Some?
    ensures var b', from := ApplyKeyed(b, t, f, f).value, At(b.accounts, f);
            && from.balance > 0
            && (At(b'.accounts, f).balance > from.balance || At(b'.accounts, f).balance < 0)
            && At(b'.accounts, f).nonce == from.nonce
            && forall k | k != f :: At(b'.accounts, k) == At(b.accounts, k)
  {
    var from := At(b.accounts, f);
    var credited := from.(balance := Wrap64(from.balance + t.amount));
    assert from.balance <= MAX_INT64;
    assert ApplyKeyed(b, t, f, f).value.accounts == b.accounts[f := credited];
  }

  /** A self-transfer, on books that are as they were or bear a trace already. */
  lemma SelfTransferLeavesTrace(b: Books, b1: Books, t: Tx)
    requires (b1 == b && BalancesFit(b)) || Trace(b, b1)
    requires Apply(b1, t).Some? && t.amount > 0 && SelfTransfer(t)
    ensures Trace(b, Apply(b1, t).value)
  {
    var f, b2 := Norm(t.from), Apply(b1, t).value;
    SelfTransferEffect(b1, t, f);
    FitStays(b1, t, f, f);
    SelfKeepsNonces(b, b1, b2, f);
    if !NonceRose(b, b1) {
      SelfGrows(b, b1, b2, f);
    }
  }

  lemma SelfKeepsNonces(b: Books, b1: Books, b2: Books, f: string)
    requires NoNonceFell(b, b1) && At(b2.accounts, f).nonce == At(b1.accounts, f).nonce
    requires forall k | k != f :: At(b2.accounts, k) == At(b1.accounts, k)
    ensures NoNonceFell(b, b2) && (NonceRose(b, b1) ==> NonceRose(b, b2))
  {
    forall k ensures At(b2.accounts, k).nonce == At(b1.accounts, k).nonce {
    }
    if NonceRose(b, b1) {
      var k :| At(b1.accounts, k).nonce > At(b.accounts, k).nonce;
      assert At(b2.accounts, k).nonce > At(b.accounts, k).nonce;
    }
  }

  lemma SelfGrows(b: Books, b1: Books, b2: Books, f: string)
    requires b1 == b || OnlyGrew(b, b1)
    requires At(b1.accounts, f).balance > 0
    requires At(b2.accounts, f).balance > At(b1.accounts, f).balance || At(b2.accounts, f).balance < 0
    requires forall k | k != f :: At(b2.accounts, k) == At(b1.accounts, k)
    ensures OnlyGrew(b, b2)
  {
    assert Grew(b, b2, f);
    forall k ensures At(b2.accounts, k).balance == At(b.accounts, k).balance || Grew(b, b2, k) {
      if k != f {
        assert At(b1.accounts, k).balance == At(b.accounts, k).balance || Grew(b, b1, k);
      }
    }
  }

  lemma OneLeavesTrace(b: Books, b1: Books, t: Tx)
    requires (b1 == b && BalancesFit(b)) || Trace(b, b1)
    requires Apply(b1, t).Some? && t.nonce >= 1 && t.amount > 0
    ensures Trace(b, Apply(b1, t).value)
  {
    if SelfTransfer(t) {
      SelfTransferLeavesTrace(b, b1, t);
    } else {
      NumberedLeavesTrace(b, b1, t);
    }
  }

  /** Later numbered transactions do not take a trace back. */
  lemma {:induction false} TraceStays(b: Books, b1: Books, txs: seq<Tx>)
    requires Trace(b, b1) && forall t | t in txs :: t.nonce >= 1 && t.amount > 0
    ensures Trace(b, Strict(Applying(), b1, txs).0)
    decreases |txs|
  {
    if txs != [] {
      var n := |txs| - 1;
      TraceStays(b, b1, txs[..n]);
      var b2 := Strict(Applying(), b1, txs[..n]).0;
      if Apply(b2, txs[n]).Some? {
        OneLeavesTrace(b, b2, txs[n]);
      }
    }
  }

  lemma TraceShows(b: Books, b': Books)
    requires Trace(b, b') && forall k :: At(b.accounts, k).balance >= 0
    ensures b' != b
  {
    if !NonceRose(b, b') {
      var k :| Grew(b, b', k);
      assert At(b.accounts, k).balance >= 0;
    }
  }

  lemma FirstLeavesTrace(b: Books, t: Tx, rest: seq<Tx>)
    requires Sound(b) && Apply(b, t).Some? && t.nonce >= 1 && t.amount > 0
    requires forall u | u in rest :: u.nonce >= 1 && u.amount > 0
    ensures Strict(Applying(), b, [t] + rest).0 != b
  {
    forall k ensures 0 <= At(b.accounts, k).balance <= MAX_INT64 {
      AccountBounds(b, k, k);
    }
    StrictFront(Applying(), b, t, rest);
    OneLeavesTrace(b, b, t);
    TraceStays(b, Apply(b, t).value, rest);
    TraceShows(b, Strict(Applying(), b, [t] + rest).0);
  }

  /** "No partial apply" does not hold: on sound books, a block of numbered transactions that passes the checks
      and is then refused leaves the books as they were if and only if its very first transaction is the one
      that fails. */
  lemma RefusedBlockLeavesTrace(env: Env, n: Node, blk: Block, v: Verdict)
    requires Sound(n.books) && Admits(env, n, blk, v) && !Import(env, n, blk, v).ok
    requires forall t | t in blk.txs :: t.nonce >= 1
    ensures blk.txs != []
    ensures Import(env, n, blk, v).node == n <==> Apply(n.books, blk.txs[0]).None?
  {
    var t, rest := blk.txs[0], blk.txs[1..];
    assert blk.txs == [t] + rest;
    StrictFront(Applying(), n.books, t, rest);
    if Apply(n.books, t).Some? {
      FirstLeavesTrace(n.books, t, rest);
    }
  }

  /** One such block: a stake of 1 goes through, the stake of 100 after it does not. */
  lemma PartialApplyExample(env: Env)
    ensures var n := Node(Books(map["a" := Account(10, 0, 0, 0)], map[]), Chain(map[], 0));
            var good := Tx(Stake, "a", "", 1, 1, 1, "s", NoPayload);
            var txs := [good, good.(amount := 100, nonce := 2)];
            var blk := Block(1, BlockHashOf(env, 1, GENESIS, txs, 1, "p"), GENESIS, 1, "p", "", txs);
            var v := Verdict([], false, true, t => Checks(true, true, true));
            Admits(env, n, blk, v) && !Import(env, n, blk, v).ok && Import(env, n, blk, v).node.books != n.books
  {
    var b := Books(map["a" := Account(10, 0, 0, 0)], map[]);
    var good := Tx(Stake, "a", "", 1, 1, 1, "s", NoPayload);
    var bad := good.(amount := 100, nonce := 2);
    assert Norm("a") == "a";
    StrictFront(Applying(), b, good, [bad]);
    var b1 := Apply(b, good).value;
    StrictFront(Applying(), b1, bad, []);
    assert [bad] + [] == [bad] && [good] + [bad] == [good, bad];
    assert At(b1.accounts, "a").balance == 9;
    assert Apply(b1, bad).None?;
  }

  function StakeOne(): Tx {
    Tx(Stake, "a", "", 1, 0, 1, "s", NoPayload)
  }

  /** Without numbers: stake 1, request it back, claim it, and stake more than there is. */
  function Unnumbered(): seq<Tx> {
    [StakeOne(), StakeOne().(ttype := RequestUnstake), StakeOne().(ttype := ClaimUnstake), StakeOne().(amount := 100)]
  }

  function FirstBlock(env: Env, txs: seq<Tx>): Block {
    Block(1, BlockHashOf(env, 1, GENESIS, txs, 1, "p"), GENESIS, 1, "p", "", txs)
  }

  function AllGood(): Verdict {
    Verdict([], false, true, t => Checks(true, true, true))
  }

  lemma UnnumberedIsAdmitted(env: Env, b: Books)
    ensures Admits(env, Node(b, Chain(map[], 0)), FirstBlock(env, Unnumbered()), AllGood())
  {
  }

  /** Numbering is needed for that: with nonce 0, a stake, an unstake request and its claim bring the books
      back to where they were before a failing transaction ends the block. */
  lemma UnnumberedTraceVanishes(env: Env)
    ensures var n, blk := Node(Just(Account(10, 0, 0, 0)), Chain(map[], 0)), FirstBlock(env, Unnumbered());
            && Admits(env, n, blk, AllGood()) && !Import(env, n, blk, AllGood()).ok
            && Apply(n.books, blk.txs[0]).Some? && Import(env, n, blk, AllGood()).node == n
  {
    var b := Just(Account(10, 0, 0, 0));
    UnnumberedIsAdmitted(env, b);
    UnnumberedComesBack(b);
  }

  lemma UnnumberedComesBack(b: Books)
    requires b == Just(Account(10, 0, 0, 0))
    ensures Strict(Applying(), b, Unnumbered()) == (b, false) && Apply(b, StakeOne()).Some?
  {
    var stake := StakeOne();
    var request, claim, last := stake.(ttype := RequestUnstake), stake.(ttype := ClaimUnstake), stake.(amount := 100);
    StakeAndBack(b, stake);
    StakeTooMuch(b, last);
    StrictBack(Applying(), b, [stake, request, claim], last);
    assert [stake, request, claim] + [last] == Unnumbered();
  }

  lemma StakeTooMuch(b: Books, t: Tx)
    requires b == Just(Account(10, 0, 0, 0)) && t.ttype == Stake && t.from == "a" && t.nonce == 0 && t.amount == 100
    ensures Apply(b, t).None?
  {
    assert Norm("a") == "a";
  }

  function Just(a: Account): Books {
    Books(map["a" := a], map[])
  }

  lemma AppliesTo(t: Tx, a: Account, a': Account)
    requires t.from == "a" && t.nonce == 0 && 0 <= t.amount <= 10
    requires 0 <= a.balance <= 10 && 0 <= a.staked <= 10 && 0 <= a.pending <= 10
    requires match t.ttype
             case Stake => a.balance >= t.amount
               && a' == a.(balance := a.balance - t.amount, staked := a.staked + t.amount, nonce := 0)
             case RequestUnstake => a.staked >= t.amount
               && a' == a.(staked := a.staked - t.amount, pending := a.pending + t.amount, nonce := 0)
             case ClaimUnstake => a.pending >= t.amount
               && a' == a.(pending := a.pending - t.amount, balance := a.balance + t.amount, nonce := 0)
             case _ => false
    ensures Apply(Just(a), t) == Some(Just(a'))
  {
    assert Norm("a") == "a";
    assert Just(a).accounts["a" := a'] == Just(a').accounts;
  }

  lemma StakeAndBack(b: Books, stake: Tx)
    requires b == Just(Account(10, 0, 0, 0)) && stake == Tx(Stake, "a", "", 1, 0, 1, "s", NoPayload)
    ensures Apply(b, stake).Some?
    ensures Strict(Applying(), b, [stake, stake.(ttype := RequestUnstake), stake.(ttype := ClaimUnstake)]) == (b, true)
  {
    var request, claim := stake.(ttype := RequestUnstake), stake.(ttype := ClaimUnstake);
    AppliesTo(stake, Account(10, 0, 0, 0), Account(9, 1, 0, 0));
    AppliesTo(request, Account(9, 1, 0, 0), Account(9, 0, 1, 0));
    AppliesTo(claim, Account(9, 0, 1, 0), Account(10, 0, 0, 0));
    ThreePass(b, stake, Just(Account(9, 1, 0, 0)), request, Just(Account(9, 0, 1, 0)), claim, b);
  }

  lemma ThreePass(b0: Books, t0: Tx, b1: Books, t1: Tx, b2: Books, t2: Tx, b3: Books)
    requires Apply(b0, t0) == Some(b1) && Apply(b1, t1) == Some(b2) && Apply(b2, t2) == Some(b3)
    ensures Strict(Applying(), b0, [t0, t1, t2]) == (b3, true)
  {
    StrictBack(Applying(), b0, [], t0);
    StrictBack(Applying(), b0, [t0], t1);
    StrictBack(Applying(), b0, [t0, t1], t2);
    assert [] + [t0] == [t0] && [t0] + [t1] == [t0, t1] && [t0, t1] + [t2] == [t0, t1, t2];
  }
}
