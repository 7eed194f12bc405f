/**
 Inclusion proofs (internal/state/merkle.go:113-316): the layer builder, the prover and the verifier
 as the loops they are, and what an accepted proof means.
 */
module MerkleProofs {
  import opened Text
  import opened Accounts
  import opened Merkle

  datatype MerkleProof = MerkleProof(
    address: string, account: Account, leafHash: string, leafIndex: int, leafCount: nat,
    path: seq<string>, sides: seq<string>, stateRoot: string)

  // ---------------------------------------------------------------- what the verifier computes

  /** A sibling on the way up, on the left or on the right. */
  datatype Hop = Hop(sibling: Digest, left: bool)

  function JoinInput(h: Hop, current: Digest): Preimage {
    if h.left then NodeOf(h.sibling, current) else NodeOf(current, h.sibling)
  }

  /** The digest reached from a leaf after the given hops. */
  function Walk(hash: Hasher, leaf: Digest, hops: seq<Hop>): Digest {
    if hops == [] then leaf
    else hash(JoinInput(hops[|hops| - 1], Walk(hash, leaf, hops[..|hops| - 1])))
  }

  function DecodeHop(sibling: string, side: string): Option<Hop> {
    var d := DecodeHex32(sibling);
    if d.None? || (side != "L" && side != "R") then None else Some(Hop(d.value, side == "L"))
  }

  function DecodePath(path: seq<string>, sides: seq<string>): (r: Option<seq<Hop>>)
    requires |path| == |sides|
    ensures r.Some? ==> |r.value| == |path|
  {
    if path == [] then Some([])
    else
      var n := |path| - 1;
      var init, last := DecodePath(path[..n], sides[..n]), DecodeHop(path[n], sides[n]);
      if init.None? || last.None? then None else Some(init.value + [last.value])
  }

  /** A proof is accepted when it is an inclusion proof, its leaf hash is that of its account, every
      hop decodes, and the walk ends in its root. */
  predicate Accepts(hash: Hasher, p: MerkleProof) {
    && p.leafIndex >= 0
    && DecodeHex32(p.leafHash) == Some(LeafHash(hash, Leaf(p.address, p.account)))
    && |p.path| == |p.sides|
    && DecodePath(p.path, p.sides).Some?
    && DecodeHex32(p.stateRoot)
      == Some(Walk(hash, LeafHash(hash, Leaf(p.address, p.account)), DecodePath(p.path, p.sides).value))
  }

  lemma {:induction false} DecodePrefix(path: seq<string>, sides: seq<string>, i: nat)
    requires |path| == |sides| && i < |path|
    ensures DecodePath(path[..i + 1], sides[..i + 1]).Some? <==>
              DecodePath(path[..i], sides[..i]).Some? && DecodeHop(path[i], sides[i]).Some?
    ensures DecodePath(path[..i + 1], sides[..i + 1]).Some? ==>
              DecodePath(path[..i + 1], sides[..i + 1]).value
                == DecodePath(path[..i], sides[..i]).value + [DecodeHop(path[i], sides[i]).value]
  {
    assert path[..i + 1][..i] == path[..i] && sides[..i + 1][..i] == sides[..i];
  }

  lemma {:induction false} DecodeFails(path: seq<string>, sides: seq<string>, i: nat)
    requires |path| == |sides| && i <= |path|
    requires DecodePath(path[..i], sides[..i]).None?
    ensures DecodePath(path, sides).None?
    decreases |path| - i
  {
    if i == |path| {
      assert path[..i] == path && sides[..i] == sides;
    } else {
      DecodePrefix(path, sides, i);
      DecodeFails(path, sides, i + 1);
    }
  }

  /** Comparison of a computed digest with one given in hexadecimal. */
  method Matches(d: Digest, text: string) returns (same: bool)
    ensures same <==> DecodeHex32(text) == Some(d)
  {
    var got := DecodeHex32(text);
    if got.None? {
      return false;
    }
    HexRoundTrip(d);
    HexRoundTrip(got.value);
    same := HexEncode(d) == HexEncode(got.value);
  }

  /** The fold along the path; any entry that does not decode stops it. */
  method FoldPath(hash: Hasher, leaf: Digest, path: seq<string>, sides: seq<string>) returns (r: Option<Digest>)
    requires |path| == |sides|
    ensures r == if DecodePath(path, sides).Some? then Some(Walk(hash, leaf, DecodePath(path, sides).value)) else None
  {
    var current := leaf;
    var i := 0;
    while i < |path|
      invariant 0 <= i <= |path|
      invariant DecodePath(path[..i], sides[..i]).Some?
      invariant current == Walk(hash, leaf, DecodePath(path[..i], sides[..i]).value)
    {
      DecodePrefix(path, sides, i);
      var sib := DecodeHex32(path[i]);
      if sib.None? || (sides[i] != "L" && sides[i] != "R") {
        DecodeFails(path, sides, i + 1);
        return None;
      }
      ghost var h := Hop(sib.value, sides[i] == "L");
      WalkBack(hash, leaf, DecodePath(path[..i], sides[..i]).value, h);
      if sides[i] == "L" {
        current := ParentHash(hash, sib.value, current);
      } else {
        current := ParentHash(hash, current, sib.value);
      }
      i := i + 1;
    }
    assert path[..i] == path && sides[..i] == sides;
    r := Some(current);
  }

  lemma WalkBack(hash: Hasher, leaf: Digest, hops: seq<Hop>, h: Hop)
    ensures Walk(hash, leaf, hops + [h]) == hash(JoinInput(h, Walk(hash, leaf, hops)))
  {
    assert (hops + [h])[..|hops|] == hops;
  }

  /** The standalone verifier. */
  method VerifyMerkleProof(hash: Hasher, p: MerkleProof) returns (ok: bool)
    ensures ok <==> Accepts(hash, p)
  {
    if p.leafIndex < 0 {
      return false;
    }
    var expectedLeaf := LeafHash(hash, Leaf(p.address, p.account));
    var same := Matches(expectedLeaf, p.leafHash);
    if !same || |p.path| != |p.sides| {
      return false;
    }
    var reached := FoldPath(hash, expectedLeaf, p.path, p.sides);
    if reached.None? {
      return false;
    }
    ok := Matches(reached.value, p.stateRoot);
  }

  // ---------------------------------------------------------------- soundness

  ghost function WalkInputs(hash: Hasher, leaf: Digest, hops: seq<Hop>): set<Preimage> {
    if hops == [] then {}
    else
      var n := |hops| - 1;
      {JoinInput(hops[n], Walk(hash, leaf, hops[..n]))} + WalkInputs(hash, leaf, hops[..n])
  }

  /** A parent in a layer has its children in the layer below, whichever side the walk came from. */
  lemma ChildBelow(hash: Hasher, level: seq<Digest>, k: nat, i: nat, h: Hop, z: Digest, hashed: set<Preimage>)
    requires level != [] && 1 <= k <= Depth(|level|) && i < |LayerAt(hash, level, k)|
    requires LayerAt(hash, level, k)[i] == hash(JoinInput(h, z))
    requires JoinInput(h, z) in hashed && NodeInputs(hash, level) <= hashed && NoCollision(hash, hashed)
    ensures z in LayerAt(hash, level, k - 1)
  {
    var below := LayerAt(hash, level, k - 1);
    LayerAbove(hash, level, k - 1);
    PairsAreHashed(hash, level, k - 1);
    assert PairInput(below, i) in Pairs(below);
    assert PairInput(below, i) == JoinInput(h, z);
    var l, r := below[2 * i], below[RightOf(i, |below|)];
    assert z == l || z == r;
  }

  lemma {:induction false} WalkInputOf(hash: Hasher, leaf: Digest, hops: seq<Hop>, m: nat)
    requires 1 <= m <= |hops|
    ensures JoinInput(hops[m - 1], Walk(hash, leaf, hops[..m - 1])) in WalkInputs(hash, leaf, hops)
    ensures Walk(hash, leaf, hops[..m]) == hash(JoinInput(hops[m - 1], Walk(hash, leaf, hops[..m - 1])))
    decreases |hops|
  {
    var n := |hops| - 1;
    assert hops[..m][..m - 1] == hops[..m - 1];
    if m <= n {
      assert hops[..n][..m] == hops[..m] && hops[..n][..m - 1] == hops[..m - 1];
      WalkInputOf(hash, leaf, hops[..n], m);
    }
  }

  lemma WalkBackOnce(hash: Hasher, level: seq<Digest>, leaf: Digest, hops: seq<Hop>, m: nat, k: nat,
      hashed: set<Preimage>)
    requires level != [] && 1 <= k <= Depth(|level|) && 1 <= m <= |hops|
      && Walk(hash, leaf, hops[..m]) in LayerAt(hash, level, k)
    requires WalkInputs(hash, leaf, hops) <= hashed && NodeInputs(hash, level) <= hashed && NoCollision(hash, hashed)
    ensures Walk(hash, leaf, hops[..m - 1]) in LayerAt(hash, level, k - 1)
  {
    var i :| 0 <= i < |LayerAt(hash, level, k)| && LayerAt(hash, level, k)[i] == Walk(hash, leaf, hops[..m]);
    WalkInputOf(hash, leaf, hops, m);
    ChildBelow(hash, level, k, i, hops[m - 1], Walk(hash, leaf, hops[..m - 1]), hashed);
  }

  /** Backwards from a layer, a long enough walk passed through a leaf of the tree. */
  lemma {:induction false} LongWalk(hash: Hasher, level: seq<Digest>, leaf: Digest, hops: seq<Hop>, m: nat, k: nat,
      hashed: set<Preimage>)
    requires level != [] && k <= Depth(|level|) && k <= m <= |hops|
      && Walk(hash, leaf, hops[..m]) in LayerAt(hash, level, k)
    requires WalkInputs(hash, leaf, hops) <= hashed && NodeInputs(hash, level) <= hashed && NoCollision(hash, hashed)
    ensures Walk(hash, leaf, hops[..m - k]) in level
    decreases k
  {
    if k > 0 {
      WalkBackOnce(hash, level, leaf, hops, m, k, hashed);
      LongWalk(hash, level, leaf, hops, m - 1, k - 1, hashed);
    }
  }

  /** A shorter one started inside the tree. */
  lemma {:induction false} ShortWalk(hash: Hasher, level: seq<Digest>, leaf: Digest, hops: seq<Hop>, m: nat, k: nat,
      hashed: set<Preimage>)
    requires level != [] && m <= k <= Depth(|level|) && m <= |hops|
      && Walk(hash, leaf, hops[..m]) in LayerAt(hash, level, k)
    requires WalkInputs(hash, leaf, hops) <= hashed && NodeInputs(hash, level) <= hashed && NoCollision(hash, hashed)
    ensures leaf in LayerAt(hash, level, k - m)
    decreases m
  {
    if m > 0 {
      WalkBackOnce(hash, level, leaf, hops, m, k, hashed);
      ShortWalk(hash, level, leaf, hops, m - 1, k - 1, hashed);
    } else {
      assert hops[..0] == [];
    }
  }

  /** A walk into the root from a digest that lies nowhere inside the tree passes through a leaf. */
  lemma WalkMeetsTree(hash: Hasher, level: seq<Digest>, x: Digest, hops: seq<Hop>,
      hashed: set<Preimage>) returns (m: nat)
    requires level != [] && Walk(hash, x, hops) == RootOf(hash, level)
    requires WalkInputs(hash, x, hops) <= hashed && NodeInputs(hash, level) <= hashed && NoCollision(hash, hashed)
    requires forall k | 1 <= k <= Depth(|level|) :: x !in LayerAt(hash, level, k)
    ensures m <= |hops| && Walk(hash, x, hops[..m]) in level
  {
    var d := Depth(|level|);
    TopLayer(hash, level);
    assert hops[..|hops|] == hops;
    assert LayerAt(hash, level, d)[0] == Walk(hash, x, hops);
    m := 0;
    if |hops| < d {
      ShortWalk(hash, level, x, hops, |hops|, d, hashed);
    } else {
      LongWalk(hash, level, x, hops, |hops|, d, hashed);
      m := |hops| - d;
    }
  }

  /** A walk from a leaf digest that ends in the root of a tree starts at one of the tree's leaves. */
  lemma WalkStartsAtLeaf(hash: Hasher, leaves: seq<Leaf>, l: Leaf, hops: seq<Hop>, hashed: set<Preimage>)
    requires leaves != [] && Walk(hash, LeafHash(hash, l), hops) == Root(hash, leaves)
    requires LeafInput(l) in hashed && WalkInputs(hash, LeafHash(hash, l), hops) <= hashed
    requires Inputs(hash, leaves) <= hashed && NoCollision(hash, hashed)
    ensures exists i | 0 <= i < |leaves| :: LeafInput(leaves[i]) == LeafInput(l)
  {
    var level, x := LeafHashes(hash, leaves), LeafHash(hash, l);
    InputParts(hash, leaves, hashed);
    forall k | 1 <= k <= Depth(|level|) ensures x !in LayerAt(hash, level, k) {
      LeafNotInside(hash, l, level, k, hashed);
    }
    var m := WalkMeetsTree(hash, level, x, hops, hashed);
    WalkFromLeaf(hash, leaves, l, hops, m, hashed);
  }

  lemma LeafNotInside(hash: Hasher, l: Leaf, level: seq<Digest>, k: nat, hashed: set<Preimage>)
    requires level != [] && 1 <= k <= Depth(|level|)
    requires LeafInput(l) in hashed && NodeInputs(hash, level) <= hashed && NoCollision(hash, hashed)
    ensures LeafHash(hash, l) !in LayerAt(hash, level, k)
  {
    forall i | 0 <= i < |LayerAt(hash, level, k)| ensures LayerAt(hash, level, k)[i] != LeafHash(hash, l) {
      LeafIsNoNode(hash, l, level, k, i, hashed);
    }
  }

  /** A walk that passes through a leaf digest has not left it yet: nothing but a leaf hashes to it. */
  lemma WalkFromLeaf(hash: Hasher, leaves: seq<Leaf>, l: Leaf, hops: seq<Hop>, m: nat, hashed: set<Preimage>)
    requires m <= |hops| && Walk(hash, LeafHash(hash, l), hops[..m]) in LeafHashes(hash, leaves)
    requires LeafInput(l) in hashed && WalkInputs(hash, LeafHash(hash, l), hops) <= hashed
    requires LeafInputs(leaves) <= hashed && NoCollision(hash, hashed)
    ensures exists i | 0 <= i < |leaves| :: LeafInput(leaves[i]) == LeafInput(l)
  {
    var x, level := LeafHash(hash, l), LeafHashes(hash, leaves);
    var i :| 0 <= i < |level| && level[i] == Walk(hash, x, hops[..m]);
    assert LeafInput(leaves[i]) in LeafInputs(leaves);
    if m == 0 {
      assert LeafInput(leaves[i]) == LeafInput(l);
    } else {
      WalkInputOf(hash, x, hops, m);
    }
  }

  /** Everything the verifier hashes for a proof. */
  ghost function ProofInputs(hash: Hasher, p: MerkleProof): set<Preimage>
    requires |p.path| == |p.sides| && DecodePath(p.path, p.sides).Some?
  {
    var l := Leaf(p.address, p.account);
    {LeafInput(l)} + WalkInputs(hash, LeafHash(hash, l), DecodePath(p.path, p.sides).value)
  }

  lemma AcceptedLeaf(hash: Hasher, leaves: seq<Leaf>, p: MerkleProof)
    requires ValidLeaves(leaves) && Accepts(hash, p) && DecodeHex32(p.stateRoot) == Some(Root(hash, leaves))
    requires NoCollision(hash, Inputs(hash, leaves) + ProofInputs(hash, p))
    ensures Leaf(Norm(p.address), p.account) in leaves
  {
    var l, hops := Leaf(p.address, p.account), DecodePath(p.path, p.sides).value;
    var hashed := Inputs(hash, leaves) + ProofInputs(hash, p);
    if leaves == [] {
      EmptyRootUnreachable(hash, l, hops, hashed);
    } else {
      WalkStartsAtLeaf(hash, leaves, l, hops, hashed);
      var i :| 0 <= i < |leaves| && LeafInput(leaves[i]) == LeafInput(l);
      assert leaves[i] == Leaf(Norm(p.address), p.account);
    }
  }

  /** PROOF SOUNDNESS. A proof accepted against the root of a state, of whatever length and shape, is
      about an account that is in the state with exactly those fields, unless SHA-256 collides on what
      the tree and the verifier hashed. In particular none is accepted against the empty state. */
  lemma ProofSoundness(sha: Sha, leaves: seq<Leaf>, p: MerkleProof)
    requires ValidLeaves(leaves) && Accepts(Hash(sha), p) && DecodeHex32(p.stateRoot) == Some(Root(Hash(sha), leaves))
    requires Injective(sha, Encodings(Inputs(Hash(sha), leaves) + ProofInputs(Hash(sha), p)))
    ensures Leaf(Norm(p.address), p.account) in leaves
  {
    NoCollisionOf(sha, Inputs(Hash(sha), leaves) + ProofInputs(Hash(sha), p));
    AcceptedLeaf(Hash(sha), leaves, p);
  }

  lemma EmptyRootUnreachable(hash: Hasher, l: Leaf, hops: seq<Hop>, hashed: set<Preimage>)
    requires LeafInput(l) in hashed && WalkInputs(hash, LeafHash(hash, l), hops) <= hashed
    requires EmptyTree in hashed && NoCollision(hash, hashed)
    ensures Walk(hash, LeafHash(hash, l), hops) != hash(EmptyTree)
  {
    var x := LeafHash(hash, l);
    if hops != [] {
      var n := |hops| - 1;
      assert JoinInput(hops[n], Walk(hash, x, hops[..n])) in WalkInputs(hash, x, hops);
    }
  }

  /** A root fixes one account per address: two accepted proofs about one address agree. */
  lemma NoTwoAccounts(sha: Sha, leaves: seq<Leaf>, p: MerkleProof, q: MerkleProof)
    requires ValidLeaves(leaves) && Accepts(Hash(sha), p) && Accepts(Hash(sha), q) && Norm(p.address) == Norm(q.address)
    requires DecodeHex32(p.stateRoot) == DecodeHex32(q.stateRoot) == Some(Root(Hash(sha), leaves))
    requires Injective(sha, Encodings(Inputs(Hash(sha), leaves) + ProofInputs(Hash(sha), p)))
    requires Injective(sha, Encodings(Inputs(Hash(sha), leaves) + ProofInputs(Hash(sha), q)))
    ensures p.account == q.account
  {
    ProofSoundness(sha, leaves, p);
    ProofSoundness(sha, leaves, q);
  }

  // ---------------------------------------------------------------- completeness

  /** The index next to i in its pair (i xor 1), or i itself at an odd end. */
  function SiblingOf(i: nat, size: nat): nat {
    var s := if i % 2 == 0 then i + 1 else i - 1;
    if s >= size then i else s
  }

  function HopAt(level: seq<Digest>, i: nat): Hop
    requires i < |level|
  {
    Hop(level[SiblingOf(i, |level|)], SiblingOf(i, |level|) < i)
  }

  /** The hops from leaf i to the root. */
  function HopsFrom(hash: Hasher, level: seq<Digest>, i: nat): (r: seq<Hop>)
    requires i < |level|
    ensures |r| == Depth(|level|)
    decreases |level|
  {
    if |level| == 1 then [] else [HopAt(level, i)] + HopsFrom(hash, NextLevel(hash, level), i / 2)
  }

  lemma {:induction false} WalkFront(hash: Hasher, leaf: Digest, h: Hop, hops: seq<Hop>)
    ensures Walk(hash, leaf, [h] + hops) == Walk(hash, hash(JoinInput(h, leaf)), hops)
    decreases |hops|
  {
    var all := [h] + hops;
    if hops == [] {
      assert all[..0] == [];
    } else {
      var n := |hops| - 1;
      assert all[..|all| - 1] == [h] + hops[..n] && all[|all| - 1] == hops[n];
      WalkFront(hash, leaf, h, hops[..n]);
    }
  }

  /** One hop from node i leads to its parent, also at an odd end. */
  lemma HopToParent(hash: Hasher, level: seq<Digest>, i: nat)
    requires i < |level|
    ensures i / 2 < |NextLevel(hash, level)|
    ensures hash(JoinInput(HopAt(level, i), level[i])) == NextLevel(hash, level)[i / 2]
  {
    assert NextLevel(hash, level)[i / 2] == hash(PairInput(level, i / 2));
  }

  lemma {:induction false} WalkReachesRoot(hash: Hasher, level: seq<Digest>, i: nat)
    requires i < |level|
    ensures Walk(hash, level[i], HopsFrom(hash, level, i)) == RootOf(hash, level)
    decreases |level|
  {
    if |level| > 1 {
      var next := NextLevel(hash, level);
      HopToParent(hash, level, i);
      WalkFront(hash, level[i], HopAt(level, i), HopsFrom(hash, next, i / 2));
      WalkReachesRoot(hash, next, i / 2);
    }
  }

  function EncodePath(hops: seq<Hop>): (r: seq<string>)
    ensures |r| == |hops|
  {
    seq(|hops|, j requires 0 <= j < |hops| => HashHex(hops[j].sibling))
  }

  function EncodeSides(hops: seq<Hop>): (r: seq<string>)
    ensures |r| == |hops|
  {
    seq(|hops|, j requires 0 <= j < |hops| => if hops[j].left then "L" else "R")
  }

  lemma HopRoundTrip(h: Hop)
    ensures DecodeHop(HashHex(h.sibling), if h.left then "L" else "R") == Some(h)
  {
    HashHexRoundTrip(h.sibling);
  }

  lemma EncodedPrefix(hops: seq<Hop>, n: nat)
    requires n <= |hops|
    ensures EncodePath(hops)[..n] == EncodePath(hops[..n]) && EncodeSides(hops)[..n] == EncodeSides(hops[..n])
  {
  }

  lemma {:induction false} PathRoundTrip(hops: seq<Hop>)
    ensures DecodePath(EncodePath(hops), EncodeSides(hops)) == Some(hops)
    decreases |hops|
  {
    if hops != [] {
      var n := |hops| - 1;
      PathRoundTrip(hops[..n]);
      EncodedPrefix(hops, n);
      HopRoundTrip(hops[n]);
      assert hops == hops[..n] + [hops[n]];
    }
  }

  /** PROOF COMPLETENESS. For every non-empty list and every leaf in it, the sibling path is accepted. */
  lemma ProofCompleteness(hash: Hasher, leaves: seq<Leaf>, i: nat, p: MerkleProof)
    requires i < |leaves| && Norm(leaves[i].addr) == leaves[i].addr
    requires Norm(p.address) == leaves[i].addr && p.account == leaves[i].acc && p.leafIndex == i
    requires p.leafHash == HashHex(LeafHash(hash, leaves[i])) && p.stateRoot == HashHex(Root(hash, leaves))
    requires var hops := HopsFrom(hash, LeafHashes(hash, leaves), i);
             p.path == EncodePath(hops) && p.sides == EncodeSides(hops)
    ensures Accepts(hash, p)
  {
    var level := LeafHashes(hash, leaves);
    assert LeafInput(Leaf(p.address, p.account)) == LeafInput(leaves[i]);
    HashHexRoundTrip(LeafHash(hash, leaves[i]));
    HashHexRoundTrip(Root(hash, leaves));
    PathRoundTrip(HopsFrom(hash, level, i));
    WalkReachesRoot(hash, level, i);
  }

  // ---------------------------------------------------------------- the loops

  method BuildNext(hash: Hasher, level: seq<Digest>) returns (next: seq<Digest>)
    ensures next == NextLevel(hash, level)
  {
    next := [];
    var i := 0;
    while i < |level|
      invariant i == 2 * |next| && |next| <= (|level| + 1) / 2
      invariant forall j | 0 <= j < |next| :: next[j] == NextLevel(hash, level)[j]
    {
      var left := level[i];
      var right := left;
      if i + 1 < |level| {
        right := level[i + 1];
      }
      assert NextLevel(hash, level)[i / 2] == hash(PairInput(level, i / 2));
      next := next + [ParentHash(hash, left, right)];
      i := i + 2;
    }
  }

  /** The layer builder; the loop ends because every layer is shorter than the one below. */
  method BuildMerkleLayers(hash: Hasher, leafHashes: seq<Digest>) returns (layers: seq<seq<Digest>>)
    ensures layers == if leafHashes == [] then [[hash(EmptyTree)]] else Layers(hash, leafHashes)
  {
    if leafHashes == [] {
      return [[hash(EmptyTree)]];
    }
    var level := leafHashes;
    layers := [level];
    while |level| > 1
      invariant level != [] && |layers| >= 1
      invariant level == LayerAt(hash, leafHashes, |layers| - 1)
      invariant |layers| - 1 + Depth(|level|) == Depth(|leafHashes|)
      invariant forall k | 0 <= k < |layers| :: layers[k] == LayerAt(hash, leafHashes, k)
      decreases |level|
    {
      LayerAbove(hash, leafHashes, |layers| - 1);
      level := BuildNext(hash, level);
      layers := layers + [level];
    }
    LayersAreLayers(hash, leafHashes);
  }

  /** The index of leaf i's ancestor in layer k. */
  function IndexAt(i: nat, k: nat): nat {
    if k == 0 then i else IndexAt(i, k - 1) / 2
  }

  lemma {:induction false} IndexHalves(i: nat, k: nat)
    ensures IndexAt(i / 2, k) == IndexAt(i, k + 1)
    decreases k
  {
    if k > 0 {
      IndexHalves(i, k - 1);
    }
  }

  lemma {:induction false} HopInLayer(hash: Hasher, level: seq<Digest>, i: nat, k: nat)
    requires i < |level| && k < Depth(|level|)
    ensures IndexAt(i, k) < |LayerAt(hash, level, k)|
    ensures HopsFrom(hash, level, i)[k] == HopAt(LayerAt(hash, level, k), IndexAt(i, k))
    decreases k
  {
    if k > 0 {
      HopInLayer(hash, NextLevel(hash, level), i / 2, k - 1);
      IndexHalves(i, k - 1);
    }
  }

  lemma HopsPrefix(hops: seq<Hop>, k: nat)
    requires k < |hops|
    ensures EncodePath(hops[..k + 1]) == EncodePath(hops[..k]) + [HashHex(hops[k].sibling)]
    ensures EncodeSides(hops[..k + 1]) == EncodeSides(hops[..k]) + [if hops[k].left then "L" else "R"]
  {
    assert hops[..k + 1] == hops[..k] + [hops[k]];
  }

  /** One entry of the sibling path. */
  method SiblingIn(level: seq<Digest>, index: nat) returns (sibling: Digest, left: bool)
    requires index < |level|
    ensures Hop(sibling, left) == HopAt(level, index)
  {
    var s := if index % 2 == 0 then index + 1 else index - 1;
    if s >= |level| {
      s := index;
    }
    return level[s], s < index;
  }

  /** The sibling path, read off the layers from the leaf up. */
  method BuildPath(hash: Hasher, layers: seq<seq<Digest>>, leafHashes: seq<Digest>,
      idx: nat) returns (path: seq<string>, sides: seq<string>)
    requires idx < |leafHashes| && layers == Layers(hash, leafHashes)
    ensures path == EncodePath(HopsFrom(hash, leafHashes, idx)) && sides == EncodeSides(HopsFrom(hash, leafHashes, idx))
    ensures |path| == |layers| - 1
  {
    path, sides := [], [];
    var index: nat := idx;
    var layer := 0;
    LayersAreLayers(hash, leafHashes);
    ghost var hops := HopsFrom(hash, leafHashes, idx);
    while layer < |layers| - 1
      invariant 0 <= layer <= |layers| - 1 == |hops|
      invariant index == IndexAt(idx, layer)
      invariant path == EncodePath(hops[..layer]) && sides == EncodeSides(hops[..layer])
    {
      HopInLayer(hash, leafHashes, idx, layer);
      var sibling, left := SiblingIn(layers[layer], index);
      HopsPrefix(hops, layer);
      path := path + [HashHex(sibling)];
      sides := sides + [if left then "L" else "R"];
      index := index / 2;
      layer := layer + 1;
    }
    assert hops[..layer] == hops;
  }

  /** ProveAccountMerkle on the sorted leaves. A present account gets a proof that is accepted, one hop per
      layer; an absent one is marked as not included, or gets the empty root of an empty store. */
  method ProveAccount(hash: Hasher, leaves: seq<Leaf>, rawAddr: string) returns (p: MerkleProof)
    requires ValidLeaves(leaves)
    ensures p.address == Norm(rawAddr) && p.stateRoot == HashHex(Root(hash, leaves)) && p.leafCount == |leaves|
    ensures p.leafHash == HashHex(LeafHash(hash, Leaf(p.address, p.account))) && |p.path| == |p.sides|
    ensures (exists acc :: Leaf(Norm(rawAddr), acc) in leaves) ==>
              && 0 <= p.leafIndex < |leaves| && leaves[p.leafIndex] == Leaf(p.address, p.account)
              && Accepts(hash, p) && |p.path| == Depth(|leaves|)
    ensures !(exists acc :: Leaf(Norm(rawAddr), acc) in leaves) ==>
              p.account == Zero() && p.path == [] && p.leafIndex == (if leaves == [] then 0 else -1)
  {
    var addr := Norm(rawAddr);
    NormIdempotent(rawAddr);
    var empty := NewAccount();
    if leaves == [] {
      return MerkleProof(addr, empty, HashHex(LeafHash(hash, Leaf(addr, empty))), 0, 0, [], [],
        HashHex(hash(EmptyTree)));
    }
    var idx := 0;
    while idx < |leaves| && leaves[idx].addr != addr
      invariant 0 <= idx <= |leaves|
      invariant forall j | 0 <= j < idx :: leaves[j].addr != addr
    {
      idx := idx + 1;
    }
    var hashes := LeafHashes(hash, leaves);
    var layers := BuildMerkleLayers(hash, hashes);
    LayersAreLayers(hash, hashes);
    var root := layers[|layers| - 1][0];
    assert root == RootOf(hash, hashes) == Root(hash, leaves);
    if idx == |leaves| {
      return MerkleProof(addr, empty, HashHex(LeafHash(hash, Leaf(addr, empty))), -1, |leaves|, [], [], HashHex(root));
    }
    var path, sides := BuildPath(hash, layers, hashes, idx);
    p := MerkleProof(addr, leaves[idx].acc, HashHex(LeafHash(hash, leaves[idx])), idx, |leaves|, path, sides,
      HashHex(root));
    assert leaves[idx] == Leaf(p.address, p.account);
    ProofCompleteness(hash, leaves, idx, p);
  }

  /** Prover and verifier together: what `ProveAccount` returns is accepted exactly when the account
      is in the state. */
  method ProveThenVerify(hash: Hasher, leaves: seq<Leaf>, rawAddr: string) returns (p: MerkleProof, ok: bool)
    requires ValidLeaves(leaves)
    requires leaves == [] ==> NoCollision(hash, {EmptyTree, LeafInput(Leaf(Norm(rawAddr), Zero()))})
    ensures ok <==> exists acc :: Leaf(Norm(rawAddr), acc) in leaves
    ensures ok ==> Leaf(Norm(rawAddr), p.account) in leaves
  {
    p := ProveAccount(hash, leaves, rawAddr);
    ok := VerifyMerkleProof(hash, p);
    if leaves == [] && ok {
      HashHexRoundTrip(Root(hash, leaves));
      EmptyRootUnreachable(hash, Leaf(p.address, Zero()), [], {EmptyTree, LeafInput(Leaf(Norm(rawAddr), Zero()))});
      assert false;
    }
  }
}
