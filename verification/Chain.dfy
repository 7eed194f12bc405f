/**
 Stored block headers (internal/state/state.go:344-355, 407-442, 476-503): appending, pruning, and the
 shape every run of them keeps. A block is retained under its height; `tip` is the latest height.
 */
module Chain {
  import opened Text
  import opened BlockHash

  datatype Header = Header(
    height: nat, hash: string, prevHash: string, stateRoot: string, txHashes: seq<string>,
    timestamp: int, proposer: string, txCount: nat, signature: string)

  /** The fields the block hash covers. */
  datatype Covered = Covered(height: nat, prevHash: string, txHashes: seq<string>, timestamp: int, proposer: string)

  function CoveredBy(h: Header): Covered {
    Covered(h.height, h.prevHash, h.txHashes, h.timestamp, h.proposer)
  }

  datatype Chain = Chain(blocks: map<nat, Header>, tip: nat)

  const GENESIS := "GENESIS"

  /** The hash the next block must name, unless the tip block is missing. */
  function ExpectedPrev(c: Chain): Option<string> {
    if c.tip == 0 then Some(GENESIS)
    else if c.tip in c.blocks then Some(c.blocks[c.tip].hash)
    else None
  }

  /** Saving a block makes it the tip. */
  function Append(c: Chain, h: Header): Chain {
    Chain(c.blocks[h.height := h], h.height)
  }

  function Kept(blocks: map<nat, Header>, cutoff: nat): map<nat, Header> {
    map k | k in blocks && k >= cutoff :: blocks[k]
  }

  /** `PruneOldBlocks`. */
  function Prune(c: Chain, keep: int): Chain {
    if keep <= 0 || c.tip <= keep then c else c.(blocks := Kept(c.blocks, c.tip - keep))
  }

  // ---------------------------------------------------------------- well-formed chains

  /** How a header's hash is computed. The chain proofs are about any such function; `HashOf` is the
      one in use. */
  type Hashing = Covered -> string

  function HashOf(sha: Sha): Hashing {
    (c: Covered) => RecomputeBlockHash(sha, c.height, c.prevHash, RecomputeMerkleRoot(sha, c.txHashes), c.timestamp,
      c.proposer)
  }

  predicate Plain(s: string) {
    '|' !in s
  }

  ghost predicate PlainHashes(f: Hashing) {
    forall c :: Plain(f(c))
  }

  lemma HashOfIsPlain(sha: Sha)
    ensures PlainHashes(HashOf(sha))
  {
  }

  /** A header on its own: it carries the hash of its own fields, and hashes where hashes belong. */
  ghost predicate HeaderOk(f: Hashing, h: Header) {
    h.hash == f(CoveredBy(h)) && TxHashList(h.txHashes) && Plain(h.prevHash)
  }

  /** Exactly the heights from low to the tip are retained. */
  ghost predicate Contiguous(c: Chain, low: nat) {
    && 1 <= low && (c.tip > 0 ==> low <= c.tip)
    && forall k: nat :: k in c.blocks <==> low <= k <= c.tip
  }

  ghost predicate HeadersOk(f: Hashing, c: Chain) {
    forall k | k in c.blocks :: c.blocks[k].height == k && HeaderOk(f, c.blocks[k])
  }

  /** Every retained block names the one before it. */
  ghost predicate Linked(c: Chain) {
    && (forall j, k | j in c.blocks && k in c.blocks && k == j + 1 :: c.blocks[k].prevHash == c.blocks[j].hash)
    && (1 in c.blocks ==> c.blocks[1].prevHash == GENESIS)
  }

  ghost predicate ChainOk(f: Hashing, c: Chain) {
    (exists low: nat :: Contiguous(c, low)) && HeadersOk(f, c) && Linked(c)
  }

  /** The tip block is there whenever anything has been sealed. */
  lemma TipExists(f: Hashing, c: Chain)
    requires ChainOk(f, c)
    ensures c.tip > 0 ==> c.tip in c.blocks && ExpectedPrev(c) == Some(c.blocks[c.tip].hash)
    ensures ExpectedPrev(c).Some?
  {
  }

  /** A block that fits on the tip. */
  ghost predicate Extends(f: Hashing, c: Chain, h: Header) {
    h.height == c.tip + 1 && ExpectedPrev(c) == Some(h.prevHash) && h.hash == f(CoveredBy(h)) && TxHashList(h.txHashes)
  }

  lemma PrevIsPlain(f: Hashing, c: Chain)
    requires HeadersOk(f, c) && ExpectedPrev(c).Some? && PlainHashes(f)
    ensures Plain(ExpectedPrev(c).value)
  {
    if c.tip > 0 {
      assert Plain(f(CoveredBy(c.blocks[c.tip])));
    }
  }

  lemma AppendKeepsChain(f: Hashing, c: Chain, h: Header)
    requires PlainHashes(f) && ChainOk(f, c) && Extends(f, c, h)
    ensures ChainOk(f, Append(c, h))
  {
    PrevIsPlain(f, c);
    var low: nat :| Contiguous(c, low);
    assert Contiguous(Append(c, h), if c.tip == 0 then 1 else low);
    AppendKeepsLinks(c, low, h);
  }

  lemma AppendKeepsLinks(c: Chain, low: nat, h: Header)
    requires Contiguous(c, low) && Linked(c) && h.height == c.tip + 1 && ExpectedPrev(c) == Some(h.prevHash)
    ensures Linked(Append(c, h))
  {
  }

  /** Pruning keeps the newest keep + 1 blocks, or all when there are fewer. */
  lemma PruneKeepsNewest(c: Chain, keep: int, low: nat)
    requires Contiguous(c, low) && keep > 0
    ensures Contiguous(Prune(c, keep), if c.tip - keep > low then c.tip - keep else low)
    ensures Prune(c, keep).tip == c.tip
    ensures forall k | k in Prune(c, keep).blocks :: k in c.blocks && Prune(c, keep).blocks[k] == c.blocks[k]
  {
  }

  lemma PruneKeepsChain(f: Hashing, c: Chain, keep: int)
    requires ChainOk(f, c)
    ensures ChainOk(f, Prune(c, keep))
  {
    if keep > 0 {
      var low: nat :| Contiguous(c, low);
      PruneKeepsNewest(c, keep, low);
    }
  }

  // ---------------------------------------------------------------- runs

  /** What one operation may do to the stored chain. */
  ghost predicate Moves(f: Hashing, c: Chain, c': Chain) {
    || c' == c
    || (exists h :: Extends(f, c, h) && c' == Append(c, h))
    || (exists keep :: c' == Prune(c, keep))
  }

  lemma MoveKeepsChain(f: Hashing, c: Chain, c': Chain)
    requires PlainHashes(f) && ChainOk(f, c) && Moves(f, c, c')
    ensures ChainOk(f, c') && c'.tip >= c.tip
  {
    if c' != c {
      if h :| Extends(f, c, h) && c' == Append(c, h) {
        AppendKeepsChain(f, c, h);
      } else {
        var keep :| c' == Prune(c, keep);
        PruneKeepsChain(f, c, keep);
      }
    }
  }

  /** CHAIN INTEGRITY. Any run of sealing, importing and pruning from an empty store keeps the retained
      blocks contiguous up to the tip, linked, and hashed over their own fields. */
  lemma {:induction false} RunKeepsChain(f: Hashing, run: seq<Chain>, i: nat)
    requires PlainHashes(f) && i < |run| && run[0] == Chain(map[], 0)
    requires forall j | 0 <= j < |run| - 1 :: Moves(f, run[j], run[j + 1])
    ensures ChainOk(f, run[i])
  {
    if i == 0 {
      assert Contiguous(run[0], 1);
    } else {
      RunKeepsChain(f, run, i - 1);
      assert Moves(f, run[i - 1], run[i - 1 + 1]);
      MoveKeepsChain(f, run[i - 1], run[i]);
    }
  }

  // ---------------------------------------------------------------- one tip hash, one history

  predicate SameBlock(g: Header, h: Header) {
    g.hash == h.hash && CoveredBy(g) == CoveredBy(h)
  }

  /** What is hashed for a header. */
  function HeaderPayload(sha: Sha, h: Header): string {
    BlockPayload(h.height, h.prevHash, RecomputeMerkleRoot(sha, h.txHashes), h.timestamp, h.proposer)
  }

  /** Everything hashed for the headers of a chain. */
  ghost function ChainPayloads(sha: Sha, c: Chain): set<string> {
    (set k | k in c.blocks :: HeaderPayload(sha, c.blocks[k]))
    + (set k | k in c.blocks :: MerklePayload(c.blocks[k].txHashes))
  }

  lemma PayloadsOf(sha: Sha, c: Chain, k: nat)
    requires k in c.blocks
    ensures HeaderPayload(sha, c.blocks[k]) in ChainPayloads(sha, c)
    ensures MerklePayload(c.blocks[k].txHashes) in ChainPayloads(sha, c)
  {
  }

  lemma SameHashSamePayload(sha: Sha, g: Header, h: Header, hashed: set<string>)
    requires HashOf(sha)(CoveredBy(g)) == HashOf(sha)(CoveredBy(h))
    requires HeaderPayload(sha, g) in hashed && HeaderPayload(sha, h) in hashed && Injective(sha, hashed)
    ensures HeaderPayload(sha, g) == HeaderPayload(sha, h)
  {
    HashHexInjective(sha(HeaderPayload(sha, g)), sha(HeaderPayload(sha, h)));
  }

  lemma SameRootSameTxs(sha: Sha, a: seq<string>, b: seq<string>, hashed: set<string>)
    requires TxHashList(a) && TxHashList(b) && RecomputeMerkleRoot(sha, a) == RecomputeMerkleRoot(sha, b)
    requires MerklePayload(a) in hashed && MerklePayload(b) in hashed && Injective(sha, hashed)
    ensures a == b
  {
    HashHexInjective(sha(MerklePayload(a)), sha(MerklePayload(b)));
    MerklePayloadInjective(a, b);
  }

  lemma SamePayloadSameBlock(sha: Sha, g: Header, h: Header, hashed: set<string>)
    requires Plain(g.prevHash) && Plain(h.prevHash) && TxHashList(g.txHashes) && TxHashList(h.txHashes)
      && g.hash == h.hash
    requires HeaderPayload(sha, g) == HeaderPayload(sha, h) && Injective(sha, hashed)
    requires MerklePayload(g.txHashes) in hashed && MerklePayload(h.txHashes) in hashed
    ensures SameBlock(g, h)
  {
    BlockPayloadInjective(g.height, g.prevHash, RecomputeMerkleRoot(sha, g.txHashes), g.timestamp, g.proposer,
                          h.height, h.prevHash, RecomputeMerkleRoot(sha, h.txHashes), h.timestamp, h.proposer);
    SameRootSameTxs(sha, g.txHashes, h.txHashes, hashed);
  }

  /** A block hash fixes the covered fields, down to the list of transactions. */
  lemma SameHashSameBlock(sha: Sha, g: Header, h: Header, hashed: set<string>)
    requires HeaderOk(HashOf(sha), g) && HeaderOk(HashOf(sha), h) && g.hash == h.hash && Injective(sha, hashed)
    requires HeaderPayload(sha, g) in hashed && HeaderPayload(sha, h) in hashed
    requires MerklePayload(g.txHashes) in hashed && MerklePayload(h.txHashes) in hashed
    ensures SameBlock(g, h)
  {
    SameHashSamePayload(sha, g, h, hashed);
    SamePayloadSameBlock(sha, g, h, hashed);
  }

  /** Across two chains, equal hashes mean equal blocks. */
  ghost predicate HashesIdentify(a: Chain, b: Chain) {
    forall i, j | i in a.blocks && j in b.blocks && a.blocks[i].hash == b.blocks[j].hash ::
      SameBlock(a.blocks[i], b.blocks[j])
  }

  lemma HashesIdentifyBlocks(sha: Sha, a: Chain, b: Chain)
    requires HeadersOk(HashOf(sha), a) && HeadersOk(HashOf(sha), b)
    requires Injective(sha, ChainPayloads(sha, a) + ChainPayloads(sha, b))
    ensures HashesIdentify(a, b)
  {
    forall i, j | i in a.blocks && j in b.blocks && a.blocks[i].hash == b.blocks[j].hash
      ensures SameBlock(a.blocks[i], b.blocks[j])
    {
      PayloadsOf(sha, a, i);
      PayloadsOf(sha, b, j);
      SameHashSameBlock(sha, a.blocks[i], b.blocks[j], ChainPayloads(sha, a) + ChainPayloads(sha, b));
    }
  }

  /** If two stores agree on a block, they agree on the one before it. */
  lemma AgreeBefore(a: Chain, b: Chain, p: nat)
    requires Linked(a) && Linked(b) && HashesIdentify(a, b)
    requires p in a.blocks && p in b.blocks && p + 1 in a.blocks && p + 1 in b.blocks
    requires SameBlock(a.blocks[p + 1], b.blocks[p + 1])
    ensures SameBlock(a.blocks[p], b.blocks[p])
  {
    assert a.blocks[p + 1].prevHash == a.blocks[p].hash && b.blocks[p + 1].prevHash == b.blocks[p].hash;
  }

  lemma {:induction false} AgreeDown(a: Chain, la: nat, b: Chain, lb: nat, top: nat, k: nat)
    requires Contiguous(a, la) && Contiguous(b, lb) && Linked(a) && Linked(b) && HashesIdentify(a, b)
    requires la <= k && lb <= k && k <= top <= a.tip && top <= b.tip
    requires SameBlock(a.blocks[top], b.blocks[top])
    ensures SameBlock(a.blocks[k], b.blocks[k])
    decreases top - k
  {
    if k < top {
      AgreeBefore(a, b, top - 1);
      AgreeDown(a, la, b, lb, top - 1, k);
    }
  }

  /** ONE TIP, ONE HISTORY. Two stores with the same tip hash have the same height and agree on the
      hash-covered fields of every block both retain, unless SHA-256 collides on what their headers hash. */
  lemma ChainsAgree(sha: Sha, a: Chain, b: Chain, k: nat)
    requires ChainOk(HashOf(sha), a) && ChainOk(HashOf(sha), b)
    requires a.tip in a.blocks && b.tip in b.blocks && a.blocks[a.tip].hash == b.blocks[b.tip].hash
    requires Injective(sha, ChainPayloads(sha, a) + ChainPayloads(sha, b))
    ensures a.tip == b.tip
    ensures k in a.blocks && k in b.blocks ==> SameBlock(a.blocks[k], b.blocks[k])
  {
    HashesIdentifyBlocks(sha, a, b);
    SameTipSameHistory(HashOf(sha), a, b, k);
  }

  lemma SameTipSameHistory(f: Hashing, a: Chain, b: Chain, k: nat)
    requires ChainOk(f, a) && ChainOk(f, b) && HashesIdentify(a, b)
    requires a.tip in a.blocks && b.tip in b.blocks && a.blocks[a.tip].hash == b.blocks[b.tip].hash
    ensures a.tip == b.tip
    ensures k in a.blocks && k in b.blocks ==> SameBlock(a.blocks[k], b.blocks[k])
  {
    assert SameBlock(a.blocks[a.tip], b.blocks[b.tip]);
    if k in a.blocks && k in b.blocks {
      var la: nat :| Contiguous(a, la);
      var lb: nat :| Contiguous(b, lb);
      AgreeDown(a, la, b, lb, a.tip, k);
    }
  }
}
