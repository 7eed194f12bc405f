/**
 The Merkle tree over accounts (internal/state/merkle.go): what it hashes, the layers it builds, and
 the proof that its root pins down the whole account list. SHA-256 is a parameter; each theorem asks
 only that it does not collide on the finitely many inputs hashed for the trees and proofs at hand.
 */
module Merkle {
  import opened Text
  import opened Accounts

  datatype Leaf = Leaf(addr: string, acc: Account)

  // ---------------------------------------------------------------- what is hashed

  /** The three kinds of input the tree hashes. */
  datatype Preimage = LeafOf(addr: string, acc: Account) | NodeOf(left: Digest, right: Digest) | EmptyTree

  const LEAF_PREFIX := "EAST_LEAF|"
  const NODE_PREFIX := "EAST_NODE|"
  const EMPTY_TAG := "EAST_EMPTY"

  function LeafFields(addr: string, acc: Account): string {
    addr + "|" + Decimal(acc.balance) + "|" + Decimal(acc.staked) + "|" + Decimal(acc.pending) + "|" + Digits(acc.nonce)
  }

  /** The bytes given to SHA-256. */
  function Encode(p: Preimage): string {
    match p
    case LeafOf(addr, acc) => LEAF_PREFIX + LeafFields(addr, acc)
    case NodeOf(left, right) => NODE_PREFIX + (left + right)
    case EmptyTree => EMPTY_TAG
  }

  function Tag(p: Preimage): char {
    match p
    case LeafOf(_, _) => 'L'
    case NodeOf(_, _) => 'N'
    case EmptyTree => 'E'
  }

  /** The sixth byte tells the kinds apart. */
  lemma EncodeTag(p: Preimage)
    ensures |Encode(p)| > 5 && Encode(p)[5] == Tag(p)
  {
    match p
    case LeafOf(addr, acc) => TagStays(LEAF_PREFIX, LeafFields(addr, acc));
    case NodeOf(left, right) => TagStays(NODE_PREFIX, left + right);
    case EmptyTree =>
  }

  lemma TagStays(prefix: string, rest: string)
    requires |prefix| > 5
    ensures (prefix + rest)[5] == prefix[5]
  {
  }

  lemma NodesApart(a: Digest, b: Digest, c: Digest, d: Digest)
    requires NODE_PREFIX + (a + b) == NODE_PREFIX + (c + d)
    ensures a == c && b == d
  {
    CancelFront(NODE_PREFIX, a + b, c + d);
    assert a == (a + b)[..32] == (c + d)[..32] == c;
    CancelFront(a, b, d);
  }

  /** Reading from the right, the numbers of a leaf separate from each other and from the address,
      whatever characters the address holds. */
  lemma LeafFieldsInjective(x: string, a: Account, y: string, b: Account)
    requires LeafFields(x, a) == LeafFields(y, b)
    ensures x == y && a == b
  {
    var x2, y2 := x + "|" + Decimal(a.balance), y + "|" + Decimal(b.balance);
    var x3, y3 := x2 + "|" + Decimal(a.staked), y2 + "|" + Decimal(b.staked);
    var x4, y4 := x3 + "|" + Decimal(a.pending), y3 + "|" + Decimal(b.pending);
    SplitBack(x4, Digits(a.nonce), y4, Digits(b.nonce));
    DigitsInjective(a.nonce, b.nonce);
    SplitBack(x3, Decimal(a.pending), y3, Decimal(b.pending));
    DecimalInjective(a.pending, b.pending);
    SplitBack(x2, Decimal(a.staked), y2, Decimal(b.staked));
    DecimalInjective(a.staked, b.staked);
    SplitBack(x, Decimal(a.balance), y, Decimal(b.balance));
    DecimalInjective(a.balance, b.balance);
  }

  /** No two inputs are encoded alike: neither two of one kind nor two of different kinds. */
  lemma EncodeInjective(p: Preimage, q: Preimage)
    requires Encode(p) == Encode(q)
    ensures p == q
  {
    EncodeTag(p);
    EncodeTag(q);
    match p
    case LeafOf(x, a) =>
      CancelFront(LEAF_PREFIX, LeafFields(x, a), LeafFields(q.addr, q.acc));
      LeafFieldsInjective(x, a, q.addr, q.acc);
    case NodeOf(a, b) => NodesApart(a, b, q.left, q.right);
    case EmptyTree =>
  }

  /** How digests are made. The tree proofs are about any such function; `Hash` is the one in use. */
  type Hasher = Preimage -> Digest

  function Hash(sha: Sha): Hasher {
    p => sha(Encode(p))
  }

  ghost predicate NoCollision(hash: Hasher, hashed: set<Preimage>) {
    forall a, b | a in hashed && b in hashed && hash(a) == hash(b) :: a == b
  }

  ghost function Encodings(hashed: set<Preimage>): set<string> {
    set p | p in hashed :: Encode(p)
  }

  /** If SHA-256 does not collide on the bytes hashed, the tree's hash does not collide either. */
  lemma NoCollisionOf(sha: Sha, hashed: set<Preimage>)
    requires Injective(sha, Encodings(hashed))
    ensures NoCollision(Hash(sha), hashed)
  {
    forall a, b | a in hashed && b in hashed && Hash(sha)(a) == Hash(sha)(b) ensures a == b {
      assert Encode(a) in Encodings(hashed) && Encode(b) in Encodings(hashed);
      EncodeInjective(a, b);
    }
  }

  function LeafInput(l: Leaf): Preimage {
    LeafOf(Norm(l.addr), l.acc)
  }

  function LeafHash(hash: Hasher, l: Leaf): Digest {
    hash(LeafInput(l))
  }

  function ParentHash(hash: Hasher, left: Digest, right: Digest): Digest {
    hash(NodeOf(left, right))
  }

  // ---------------------------------------------------------------- layers

  /** Index of the right child of node i in a layer of the given size: the odd last node is its own
      right sibling. */
  function RightOf(i: nat, size: nat): nat {
    if 2 * i + 1 < size then 2 * i + 1 else 2 * i
  }

  /** The payload hashed for node i of the next layer. */
  function PairInput(level: seq<Digest>, i: nat): Preimage
    requires 2 * i < |level|
  {
    NodeOf(level[2 * i], level[RightOf(i, |level|)])
  }

  function NextLevel(hash: Hasher, level: seq<Digest>): (r: seq<Digest>)
    ensures |r| == (|level| + 1) / 2
  {
    seq<Digest>((|level| + 1) / 2, i requires 0 <= i < (|level| + 1) / 2 => hash(PairInput(level, i)))
  }

  /** All layers from the leaves up to a single node. */
  function Layers(hash: Hasher, level: seq<Digest>): (r: seq<seq<Digest>>)
    requires level != []
    ensures |r| >= 1 && r[0] == level && |r[|r| - 1]| == 1
    decreases |level|
  {
    if |level| == 1 then [level] else [level] + Layers(hash, NextLevel(hash, level))
  }

  function Depth(size: nat): nat
    requires size >= 1
    decreases size
  {
    if size == 1 then 0 else 1 + Depth((size + 1) / 2)
  }

  /** The layer k steps above the given one. */
  function LayerAt(hash: Hasher, level: seq<Digest>, k: nat): (r: seq<Digest>)
    requires level != []
    ensures r != []
    decreases k
  {
    if k == 0 then level else LayerAt(hash, NextLevel(hash, level), k - 1)
  }

  function RootOf(hash: Hasher, level: seq<Digest>): Digest
    requires level != []
    decreases |level|
  {
    if |level| == 1 then level[0] else RootOf(hash, NextLevel(hash, level))
  }

  lemma {:induction false} LayersAreLayers(hash: Hasher, level: seq<Digest>)
    requires level != []
    ensures |Layers(hash, level)| == Depth(|level|) + 1
    ensures forall k | 0 <= k <= Depth(|level|) :: Layers(hash, level)[k] == LayerAt(hash, level, k)
    ensures Layers(hash, level)[Depth(|level|)] == [RootOf(hash, level)]
    decreases |level|
  {
    if |level| > 1 {
      LayersAreLayers(hash, NextLevel(hash, level));
      forall k | 0 <= k <= Depth(|level|) ensures Layers(hash, level)[k] == LayerAt(hash, level, k) {
        if k > 0 {
          assert Layers(hash, level)[k] == Layers(hash, NextLevel(hash, level))[k - 1];
        }
      }
    }
  }

  lemma {:induction false} LayerAbove(hash: Hasher, level: seq<Digest>, k: nat)
    requires level != []
    ensures LayerAt(hash, level, k + 1) == NextLevel(hash, LayerAt(hash, level, k))
    decreases k
  {
    if k > 0 {
      LayerAbove(hash, NextLevel(hash, level), k - 1);
    }
  }

  lemma {:induction false} TopLayer(hash: Hasher, level: seq<Digest>)
    requires level != []
    ensures LayerAt(hash, level, Depth(|level|)) == [RootOf(hash, level)]
    decreases |level|
  {
    if |level| > 1 {
      TopLayer(hash, NextLevel(hash, level));
    }
  }

  // ---------------------------------------------------------------- what a tree hashes

  function LeafHashes(hash: Hasher, leaves: seq<Leaf>): (r: seq<Digest>)
    ensures |r| == |leaves|
  {
    seq<Digest>(|leaves|, i requires 0 <= i < |leaves| => LeafHash(hash, leaves[i]))
  }

  /** The state root over a list of leaves. */
  function Root(hash: Hasher, leaves: seq<Leaf>): Digest {
    if leaves == [] then hash(EmptyTree) else RootOf(hash, LeafHashes(hash, leaves))
  }

  ghost function Pairs(level: seq<Digest>): set<Preimage> {
    set i | 0 <= i < (|level| + 1) / 2 :: PairInput(level, i)
  }

  /** Every node payload hashed above a layer. */
  ghost function NodeInputs(hash: Hasher, level: seq<Digest>): set<Preimage>
    requires level != []
    decreases |level|
  {
    if |level| == 1 then {} else Pairs(level) + NodeInputs(hash, NextLevel(hash, level))
  }

  ghost function LeafInputs(leaves: seq<Leaf>): set<Preimage> {
    set i | 0 <= i < |leaves| :: LeafInput(leaves[i])
  }

  /** Everything hashed to compute the root of a list. */
  ghost function Inputs(hash: Hasher, leaves: seq<Leaf>): set<Preimage> {
    if leaves == [] then {EmptyTree} else LeafInputs(leaves) + NodeInputs(hash, LeafHashes(hash, leaves))
  }

  lemma {:induction false} PairsAreHashed(hash: Hasher, level: seq<Digest>, k: nat)
    requires level != [] && k < Depth(|level|)
    ensures Pairs(LayerAt(hash, level, k)) <= NodeInputs(hash, level)
    decreases k
  {
    if k > 0 {
      PairsAreHashed(hash, NextLevel(hash, level), k - 1);
    }
  }

  // ---------------------------------------------------------------- one layer determines the one below

  /** Distinct nodes have distinct parents. */
  lemma DistinctLifts(hash: Hasher, level: seq<Digest>, hashed: set<Preimage>)
    requires Distinct(level) && Pairs(level) <= hashed && NoCollision(hash, hashed)
    ensures Distinct(NextLevel(hash, level))
  {
    var next := NextLevel(hash, level);
    forall i, j | 0 <= i < j < |next| ensures next[i] != next[j] {
      assert PairInput(level, i) in Pairs(level) && PairInput(level, j) in Pairs(level);
      assert PairInput(level, i) != PairInput(level, j);
    }
  }

  lemma {:induction false} DistinctAt(hash: Hasher, level: seq<Digest>, k: nat, hashed: set<Preimage>)
    requires level != [] && Distinct(level) && k <= Depth(|level|)
    requires NodeInputs(hash, level) <= hashed && NoCollision(hash, hashed)
    ensures Distinct(LayerAt(hash, level, k))
    decreases k
  {
    if k > 0 {
      InputsAbove(hash, level, hashed);
      DistinctLifts(hash, level, hashed);
      DistinctAt(hash, NextLevel(hash, level), k - 1, hashed);
    }
  }

  lemma InputsAbove(hash: Hasher, level: seq<Digest>, hashed: set<Preimage>)
    requires |level| > 1 && NodeInputs(hash, level) <= hashed
    ensures Pairs(level) <= hashed && NodeInputs(hash, NextLevel(hash, level)) <= hashed
  {
  }

  /** Two layers without repetitions and with equal parents are equal: had one an odd last node where
      the other has two, the other would repeat a node. */
  lemma PairUp(hash: Hasher, a: seq<Digest>, b: seq<Digest>, hashed: set<Preimage>)
    requires Distinct(a) && Distinct(b) && NextLevel(hash, a) == NextLevel(hash, b)
    requires Pairs(a) <= hashed && Pairs(b) <= hashed && NoCollision(hash, hashed)
    ensures a == b
  {
    var m := |NextLevel(hash, a)|;
    forall i | 0 <= i < m ensures a[2 * i] == b[2 * i] && a[RightOf(i, |a|)] == b[RightOf(i, |b|)] {
      assert PairInput(a, i) in Pairs(a) && PairInput(b, i) in Pairs(b);
      assert hash(PairInput(a, i)) == NextLevel(hash, a)[i] == NextLevel(hash, b)[i] == hash(PairInput(b, i));
    }
    if m > 0 {
      assert a[2 * (m - 1)] == b[2 * (m - 1)] && a[RightOf(m - 1, |a|)] == b[RightOf(m - 1, |b|)];
    }
    if |a| != |b| {
      assert false;
    }
    forall j | 0 <= j < |a| ensures a[j] == b[j] {
      var i := j / 2;
      assert a[2 * i] == b[2 * i] && a[RightOf(i, |a|)] == b[RightOf(i, |b|)];
    }
  }

  /** Equal layers have equal layers below them, in two trees of whatever depths. */
  lemma StepDown(hash: Hasher, a: seq<Digest>, ka: nat, b: seq<Digest>, kb: nat, hashed: set<Preimage>)
    requires a != [] && b != [] && Distinct(a) && Distinct(b) && ka < Depth(|a|) && kb < Depth(|b|)
    requires LayerAt(hash, a, ka + 1) == LayerAt(hash, b, kb + 1)
    requires NodeInputs(hash, a) <= hashed && NodeInputs(hash, b) <= hashed && NoCollision(hash, hashed)
    ensures LayerAt(hash, a, ka) == LayerAt(hash, b, kb)
  {
    LayerAbove(hash, a, ka);
    LayerAbove(hash, b, kb);
    DistinctAt(hash, a, ka, hashed);
    DistinctAt(hash, b, kb, hashed);
    PairsAreHashed(hash, a, ka);
    PairsAreHashed(hash, b, kb);
    PairUp(hash, LayerAt(hash, a, ka), LayerAt(hash, b, kb), hashed);
  }

  lemma SameTop(hash: Hasher, a: seq<Digest>, b: seq<Digest>)
    requires a != [] && b != [] && RootOf(hash, a) == RootOf(hash, b)
    ensures LayerAt(hash, a, Depth(|a|)) == LayerAt(hash, b, Depth(|b|))
  {
    TopLayer(hash, a);
    TopLayer(hash, b);
  }

  /** Layers at one distance from a common root are equal. */
  lemma {:induction false} Descend(hash: Hasher, a: seq<Digest>, ka: nat, b: seq<Digest>, kb: nat,
      hashed: set<Preimage>)
    requires a != [] && b != [] && Distinct(a) && Distinct(b) && RootOf(hash, a) == RootOf(hash, b)
    requires ka <= Depth(|a|) && kb <= Depth(|b|) && Depth(|a|) - ka == Depth(|b|) - kb
    requires NodeInputs(hash, a) <= hashed && NodeInputs(hash, b) <= hashed && NoCollision(hash, hashed)
    ensures LayerAt(hash, a, ka) == LayerAt(hash, b, kb)
    decreases Depth(|a|) - ka
  {
    if ka == Depth(|a|) {
      SameTop(hash, a, b);
    } else {
      Descend(hash, a, ka + 1, b, kb + 1, hashed);
      StepDown(hash, a, ka, b, kb, hashed);
    }
  }

  // ---------------------------------------------------------------- the root commits to the list

  /** Addresses are in normal form and none occurs twice, as in a store's account table. */
  ghost predicate ValidLeaves(leaves: seq<Leaf>) {
    && (forall i | 0 <= i < |leaves| :: Norm(leaves[i].addr) == leaves[i].addr)
    && (forall i, j | 0 <= i < j < |leaves| :: leaves[i].addr != leaves[j].addr)
  }

  lemma LeafHashesDistinct(hash: Hasher, leaves: seq<Leaf>, hashed: set<Preimage>)
    requires ValidLeaves(leaves) && LeafInputs(leaves) <= hashed && NoCollision(hash, hashed)
    ensures Distinct(LeafHashes(hash, leaves))
  {
    var h := LeafHashes(hash, leaves);
    forall i, j | 0 <= i < j < |h| ensures h[i] != h[j] {
      assert LeafInput(leaves[i]) in LeafInputs(leaves) && LeafInput(leaves[j]) in LeafInputs(leaves);
      assert LeafInput(leaves[i]) != LeafInput(leaves[j]);
    }
  }

  /** Which kind of payload a digest in a tree comes from. */
  lemma LayerPreimage(hash: Hasher, level: seq<Digest>, k: nat, i: nat)
    requires level != [] && 1 <= k <= Depth(|level|) && i < |LayerAt(hash, level, k)|
    ensures exists l: Digest, r: Digest ::
              LayerAt(hash, level, k)[i] == hash(NodeOf(l, r)) && NodeOf(l, r) in NodeInputs(hash, level)
  {
    LayerAbove(hash, level, k - 1);
    PairsAreHashed(hash, level, k - 1);
    var below := LayerAt(hash, level, k - 1);
    assert LayerAt(hash, level, k)[i] == hash(PairInput(below, i));
    assert PairInput(below, i) in Pairs(below);
  }

  /** A leaf digest is never a node digest of a tree hashed without collisions. */
  lemma LeafIsNoNode(hash: Hasher, l: Leaf, level: seq<Digest>, k: nat, i: nat, hashed: set<Preimage>)
    requires level != [] && 1 <= k <= Depth(|level|) && i < |LayerAt(hash, level, k)|
    requires LeafInput(l) in hashed && NodeInputs(hash, level) <= hashed && NoCollision(hash, hashed)
    ensures LayerAt(hash, level, k)[i] != LeafHash(hash, l)
  {
    LayerPreimage(hash, level, k, i);
    var a: Digest, b: Digest :| LayerAt(hash, level, k)[i] == hash(NodeOf(a, b))
      && NodeOf(a, b) in NodeInputs(hash, level);
  }

  lemma RootOfEmpty(hash: Hasher, leaves: seq<Leaf>, hashed: set<Preimage>)
    requires leaves != [] && Inputs(hash, leaves) <= hashed && EmptyTree in hashed && NoCollision(hash, hashed)
    ensures Root(hash, leaves) != hash(EmptyTree)
  {
    var level := LeafHashes(hash, leaves);
    TopLayer(hash, level);
    if Depth(|level|) == 0 {
      assert LeafInput(leaves[0]) in LeafInputs(leaves);
    } else {
      LayerPreimage(hash, level, Depth(|level|), 0);
      var a: Digest, b: Digest :| RootOf(hash, level) == hash(NodeOf(a, b)) && NodeOf(a, b) in NodeInputs(hash, level);
    }
  }

  /** Distinct leaf digests under one root: the shallower list is the deeper one. */
  lemma LevelsMatch(hash: Hasher, a: seq<Digest>, b: seq<Digest>, first: Leaf, hashed: set<Preimage>)
    requires a != [] && b != [] && Distinct(a) && Distinct(b) && Depth(|a|) <= Depth(|b|)
    requires RootOf(hash, a) == RootOf(hash, b) && a[0] == LeafHash(hash, first) && LeafInput(first) in hashed
    requires NodeInputs(hash, a) <= hashed && NodeInputs(hash, b) <= hashed && NoCollision(hash, hashed)
    ensures a == b
  {
    var k := Depth(|b|) - Depth(|a|);
    Descend(hash, a, 0, b, k, hashed);
    if k > 0 {
      LeafIsNoNode(hash, first, b, k, 0, hashed);
    }
  }

  lemma RootsOrdered(hash: Hasher, xs: seq<Leaf>, ys: seq<Leaf>, hashed: set<Preimage>)
    requires ValidLeaves(xs) && ValidLeaves(ys) && xs != [] && ys != []
    requires Inputs(hash, xs) <= hashed && Inputs(hash, ys) <= hashed && NoCollision(hash, hashed)
    requires Root(hash, xs) == Root(hash, ys) && Depth(|xs|) <= Depth(|ys|)
    ensures xs == ys
  {
    InputParts(hash, xs, hashed);
    InputParts(hash, ys, hashed);
    LeafHashesDistinct(hash, xs, hashed);
    LeafHashesDistinct(hash, ys, hashed);
    LevelsMatch(hash, LeafHashes(hash, xs), LeafHashes(hash, ys), xs[0], hashed);
    SameHashesSameLeaves(hash, xs, ys, hashed);
  }

  lemma InputParts(hash: Hasher, leaves: seq<Leaf>, hashed: set<Preimage>)
    requires leaves != [] && Inputs(hash, leaves) <= hashed
    ensures LeafInputs(leaves) <= hashed && LeafInput(leaves[0]) in hashed
    ensures NodeInputs(hash, LeafHashes(hash, leaves)) <= hashed
  {
    assert LeafInput(leaves[0]) in LeafInputs(leaves);
  }

  lemma SameHashesSameLeaves(hash: Hasher, xs: seq<Leaf>, ys: seq<Leaf>, hashed: set<Preimage>)
    requires ValidLeaves(xs) && ValidLeaves(ys) && LeafHashes(hash, xs) == LeafHashes(hash, ys)
    requires LeafInputs(xs) <= hashed && LeafInputs(ys) <= hashed && NoCollision(hash, hashed)
    ensures xs == ys
  {
    assert |xs| == |LeafHashes(hash, xs)| == |ys|;
    forall i | 0 <= i < |xs| ensures xs[i] == ys[i] {
      assert LeafInput(xs[i]) in LeafInputs(xs) && LeafInput(ys[i]) in LeafInputs(ys);
      assert hash(LeafInput(xs[i])) == LeafHashes(hash, xs)[i] == LeafHashes(hash, ys)[i] == hash(LeafInput(ys[i]));
    }
  }

  lemma ListCommits(hash: Hasher, xs: seq<Leaf>, ys: seq<Leaf>)
    requires ValidLeaves(xs) && ValidLeaves(ys)
    requires NoCollision(hash, Inputs(hash, xs) + Inputs(hash, ys))
    requires Root(hash, xs) == Root(hash, ys)
    ensures xs == ys
  {
    var hashed := Inputs(hash, xs) + Inputs(hash, ys);
    if xs == [] || ys == [] {
      if xs != [] {
        RootOfEmpty(hash, xs, hashed);
      }
      if ys != [] {
        RootOfEmpty(hash, ys, hashed);
      }
    } else if Depth(|xs|) <= Depth(|ys|) {
      RootsOrdered(hash, xs, ys, hashed);
    } else {
      RootsOrdered(hash, ys, xs, hashed);
    }
  }

  /** THE ROOT COMMITS TO THE STATE. Two account lists with equal roots are equal, unless SHA-256
      collides on what was hashed to compute the two roots; duplicating odd nodes does no harm. */
  lemma RootCommits(sha: Sha, xs: seq<Leaf>, ys: seq<Leaf>)
    requires ValidLeaves(xs) && ValidLeaves(ys)
    requires Injective(sha, Encodings(Inputs(Hash(sha), xs) + Inputs(Hash(sha), ys)))
    requires Root(Hash(sha), xs) == Root(Hash(sha), ys)
    ensures xs == ys
  {
    NoCollisionOf(sha, Inputs(Hash(sha), xs) + Inputs(Hash(sha), ys));
    ListCommits(Hash(sha), xs, ys);
  }

  /** The distinct addresses are needed: repeating the last of an odd number of leaves leaves the root
      as it was. */
  lemma RepeatedLeafKeepsRoot(hash: Hasher, a: Leaf, b: Leaf, c: Leaf)
    ensures Root(hash, [a, b, c]) == Root(hash, [a, b, c, c])
  {
    var x, y := LeafHashes(hash, [a, b, c]), LeafHashes(hash, [a, b, c, c]);
    SameParents(hash, x, y);
  }

  lemma SameParents(hash: Hasher, x: seq<Digest>, y: seq<Digest>)
    requires |x| == 3 && y == x + [x[2]]
    ensures NextLevel(hash, x) == NextLevel(hash, y) && RootOf(hash, x) == RootOf(hash, y)
  {
    forall i | 0 <= i < 2 ensures PairInput(x, i) == PairInput(y, i) {
    }
    assert NextLevel(hash, x) == NextLevel(hash, y);
  }

  // ---------------------------------------------------------------- the root of an account table

  function LeavesOf(m: map<string, Account>, keys: seq<string>): (r: seq<Leaf>)
    requires forall k | k in keys :: k in m
    ensures |r| == |keys|
  {
    seq(|keys|, i requires 0 <= i < |keys| => Leaf(keys[i], m[keys[i]]))
  }

  /** `loadSortedLeaves`: the accounts in address order. */
  ghost function SortedLeaves(m: map<string, Account>): seq<Leaf> {
    var keys := Listing(m.Keys);
    assert forall k | k in keys :: k in Elements(keys);
    LeavesOf(m, keys)
  }

  ghost function StateRoot(hash: Hasher, m: map<string, Account>): Digest {
    Root(hash, SortedLeaves(m))
  }

  ghost predicate NormalKeys(m: map<string, Account>) {
    forall k | k in m :: Norm(k) == k
  }

  lemma SortedLeavesFacts(m: map<string, Account>)
    requires NormalKeys(m)
    ensures ValidLeaves(SortedLeaves(m)) && Lists(SortedLeaves(m), m)
  {
    var keys := Listing(m.Keys);
    SortedDistinct(keys);
    forall i | 0 <= i < |keys| ensures keys[i] in m {
      assert keys[i] in Elements(keys);
    }
    forall a | a in m ensures a in keys {
      assert a in Elements(keys);
    }
    LeavesListTable(m, keys);
  }

  lemma LeavesListTable(m: map<string, Account>, keys: seq<string>)
    requires (forall k | k in keys :: k in m) && (forall a | a in m :: a in keys)
    ensures Lists(LeavesOf(m, keys), m)
  {
    var leaves := LeavesOf(m, keys);
    forall a | a in m ensures Leaf(a, m[a]) in leaves {
      var i :| 0 <= i < |keys| && keys[i] == a;
      assert leaves[i] == Leaf(a, m[a]);
    }
  }

  /** The state root determines every account of the table. */
  lemma StateRootCommits(sha: Sha, m1: map<string, Account>, m2: map<string, Account>)
    requires NormalKeys(m1) && NormalKeys(m2)
    requires Injective(sha, Encodings(Inputs(Hash(sha), SortedLeaves(m1)) + Inputs(Hash(sha), SortedLeaves(m2))))
    requires StateRoot(Hash(sha), m1) == StateRoot(Hash(sha), m2)
    ensures m1 == m2
  {
    SortedLeavesFacts(m1);
    SortedLeavesFacts(m2);
    RootCommits(sha, SortedLeaves(m1), SortedLeaves(m2));
    SameLeavesSameTable(m1, m2, SortedLeaves(m1));
  }

  /** The leaves are exactly the entries of the table. */
  ghost predicate Lists(leaves: seq<Leaf>, m: map<string, Account>) {
    && (forall l | l in leaves :: l.addr in m && m[l.addr] == l.acc)
    && (forall a | a in m :: Leaf(a, m[a]) in leaves)
  }

  lemma SameLeavesSameTable(m1: map<string, Account>, m2: map<string, Account>, leaves: seq<Leaf>)
    requires Lists(leaves, m1) && Lists(leaves, m2)
    ensures m1 == m2
  {
    forall a | a in m1 ensures a in m2 && m1[a] == m2[a] {
      assert Leaf(a, m1[a]) in leaves;
    }
    forall a | a in m2 ensures a in m1 {
      assert Leaf(a, m2[a]) in leaves;
    }
  }
}
