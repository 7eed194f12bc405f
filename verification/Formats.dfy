/**
 The texts that are signed and hashed, written out as field lists, and the shapes of the smallest trees: the
 formats other implementations have to reproduce byte by byte.
 */
module Formats {
  import opened Text
  import opened Accounts
  import opened Votes
  import opened BlockHash
  import opened Merkle
  import opened MerkleProofs

  /** The fields with a bar between any two. */
  function Joined(fields: seq<string>): string {
    if fields == [] then ""
    else if |fields| == 1 then fields[0]
    else fields[0] + "|" + Joined(fields[1..])
  }

  lemma JoinedNext(field: string, rest: seq<string>)
    requires rest != []
    ensures Joined([field] + rest) == field + "|" + Joined(rest)
  {
    assert ([field] + rest)[1..] == rest;
  }

  lemma JoinedFive(a: string, b: string, c: string, d: string, e: string)
    ensures Joined([a, b, c, d, e]) == a + "|" + (b + "|" + (c + "|" + (d + "|" + e)))
  {
    JoinedNext(d, [e]);
    JoinedNext(c, [d, e]);
    JoinedNext(b, [c, d, e]);
    JoinedNext(a, [b, c, d, e]);
    assert [d] + [e] == [d, e] && [c] + [d, e] == [c, d, e] && [b] + [c, d, e] == [b, c, d, e];
    assert [a] + [b, c, d, e] == [a, b, c, d, e];
  }

  // ---------------------------------------------------------------- texts

  /** What a validator signs for a vote. */
  lemma VoteText(v: Vote)
    ensures BuildVoteMessage(v) ==
              Joined(["EASTCHAIN_VOTE", if v.vtype == Prevote then "prevote" else "precommit", Digits(v.height),
                      Decimal(v.round), if v.hash == "" then "NIL" else v.hash])
  {
    JoinedFive("EASTCHAIN_VOTE", TypeName(v.vtype), Digits(v.height), Decimal(v.round), WireHash(v.hash));
    assert RoundAndHash(v) == Decimal(v.round) + "|" + WireHash(v.hash);
    assert HeightOn(v) == Digits(v.height) + "|" + RoundAndHash(v);
  }

  /** What a block hash is the hash of. */
  lemma BlockText(sha: Sha, height: nat, prevHash: string, merkleRoot: string, timestamp: int, proposer: string)
    ensures RecomputeBlockHash(sha, height, prevHash, merkleRoot, timestamp, proposer)
         == HashHex(sha(Joined([Digits(height), prevHash, merkleRoot, Decimal(timestamp), proposer])))
  {
    JoinedFive(Digits(height), prevHash, merkleRoot, Decimal(timestamp), proposer);
  }

  /** What a list of transactions is hashed as: its hashes run together, or a tag. */
  lemma ListText(sha: Sha, hashes: seq<string>, more: string)
    ensures RecomputeMerkleRoot(sha, []) == HashHex(sha("EMPTY"))
    ensures RecomputeMerkleRoot(sha, [more]) == HashHex(sha(more))
    ensures hashes != [] ==> MerklePayload(hashes + [more]) == MerklePayload(hashes) + more
  {
    assert Concat([more]) == more + Concat([]) == more;
    ConcatBack(hashes, more);
  }

  lemma {:induction false} ConcatBack(hashes: seq<string>, more: string)
    ensures Concat(hashes + [more]) == Concat(hashes) + more
    decreases |hashes|
  {
    if hashes == [] {
      assert hashes + [more] == [more] && Concat([more]) == more + Concat([]);
    } else {
      assert (hashes + [more])[1..] == hashes[1..] + [more];
      ConcatBack(hashes[1..], more);
    }
  }

  /** What the leaf of an account is the hash of. */
  lemma LeafText(sha: Sha, addr: string, acc: Account)
    ensures LeafHash(Hash(sha), Leaf(addr, acc)) ==
              sha("EAST_LEAF|" + (Norm(addr) + "|" + Decimal(acc.balance) + "|" + Decimal(acc.staked) + "|"
                                  + Decimal(acc.pending) + "|" + Digits(acc.nonce)))
  {
    var input := LeafInput(Leaf(addr, acc));
    assert input == LeafOf(Norm(addr), acc);
    assert Hash(sha)(input) == sha(Encode(input));
    assert LeafFields(Norm(addr), acc) == Norm(addr) + "|" + Decimal(acc.balance) + "|" + Decimal(acc.staked) + "|"
                                          + Decimal(acc.pending) + "|" + Digits(acc.nonce);
  }

  /** What an inner node of the tree is the hash of: the prefix and its two children, left one first. */
  function NodeDigest(sha: Sha, left: Digest, right: Digest): Digest {
    sha("EAST_NODE|" + (left + right))
  }

  lemma NodeText(sha: Sha, left: Digest, right: Digest)
    ensures Hash(sha)(NodeOf(left, right)) == NodeDigest(sha, left, right)
    ensures Hash(sha)(EmptyTree) == sha("EAST_EMPTY")
  {
    var node := NodeOf(left, right);
    assert Encode(node) == "EAST_NODE|" + (left + right);
    assert Hash(sha)(node) == sha(Encode(node));
    var empty := EmptyTree;
    assert Encode(empty) == "EAST_EMPTY";
    assert Hash(sha)(empty) == sha(Encode(empty));
  }

  // ---------------------------------------------------------------- numbers and digits

  /** The number a text of digits stands for. */
  function ValueOf(s: string): int {
    if s == [] then 0 else 10 * ValueOf(s[..|s| - 1]) + (s[|s| - 1] as int - '0' as int)
  }

  /** A number is written in decimal, without leading zeros. */
  lemma {:induction false} DigitsValue(n: nat)
    ensures ValueOf(Digits(n)) == n && (Digits(n)[0] == '0' <==> n == 0)
    decreases n
  {
    if n >= 10 {
      DigitsValue(n / 10);
      assert Digits(n)[..|Digits(n)| - 1] == Digits(n / 10);
    }
  }

  /** A negative number is written with a minus sign in front. */
  lemma DecimalValue(i: int)
    ensures i >= 0 ==> ValueOf(Decimal(i)) == i
    ensures i < 0 ==> Decimal(i)[0] == '-' && ValueOf(Decimal(i)[1..]) == -i
  {
    if i >= 0 {
      DigitsValue(i);
    } else {
      DigitsValue(-i);
      assert Decimal(i)[1..] == Digits(-i);
    }
  }

  lemma HexDigitIs(n: nat)
    requires n < 16
    ensures HexDigit(n) == "0123456789abcdef"[n]
  {
  }

  /** A byte is written as two digits, high half first, in lower case; and either case is read. */
  lemma {:induction false} HexDigits(s: string, i: nat)
    requires (forall j | 0 <= j < |s| :: s[j] as int < 256) && i < |s|
    ensures HexEncode(s)[2 * i] == "0123456789abcdef"[s[i] as int / 16]
    ensures HexEncode(s)[2 * i + 1] == "0123456789abcdef"[s[i] as int % 16]
    decreases i
  {
    if i > 0 {
      HexDigits(s[1..], i - 1);
      assert s[1..][i - 1] == s[i];
    } else {
      HexDigitIs(s[0] as int / 16);
      HexDigitIs(s[0] as int % 16);
    }
  }

  predicate AllBytes(s: string) {
    forall i | 0 <= i < |s| :: s[i] as int < 256
  }

  /** A text in lower case that decodes is what its bytes encode to. */
  lemma {:induction false} DecodedEncodes(t: string)
    requires HexDecode(t).Some? && Lower(t) == t
    ensures AllBytes(HexDecode(t).value) && HexEncode(HexDecode(t).value) == t
    decreases |t|
  {
    if t != [] {
      LowerTail(t);
      var hi, lo, rest := DecodeNext(t);
      DecodedEncodes(t[2..]);
      EncodeNext(hi, lo, rest);
    }
  }

  lemma DecodeNext(t: string) returns (hi: nat, lo: nat, rest: string)
    requires t != [] && HexDecode(t).Some?
    requires |t| >= 2 ==> LowerChar(t[0]) == t[0] && LowerChar(t[1]) == t[1]
    ensures |t| >= 2 && HexDecode(t[2..]) == Some(rest) && hi < 16 && lo < 16
    ensures HexDecode(t).value == [(16 * hi + lo) as char] + rest && t == [HexDigit(hi), HexDigit(lo)] + t[2..]
  {
    hi, lo, rest := HexValue(t[0]).value, HexValue(t[1]).value, HexDecode(t[2..]).value;
    DigitBack(t[0]);
    DigitBack(t[1]);
  }

  lemma EncodeNext(hi: nat, lo: nat, rest: string)
    requires hi < 16 && lo < 16 && AllBytes(rest)
    ensures var s := [(16 * hi + lo) as char] + rest;
            AllBytes(s) && HexEncode(s) == [HexDigit(hi), HexDigit(lo)] + HexEncode(rest)
  {
    var s := [(16 * hi + lo) as char] + rest;
    assert s[1..] == rest;
    assert (16 * hi + lo) / 16 == hi && (16 * hi + lo) % 16 == lo;
  }

  lemma LowerTail(t: string)
    requires Lower(t) == t
    ensures |t| >= 2 ==> Lower(t[2..]) == t[2..] && LowerChar(t[0]) == t[0] && LowerChar(t[1]) == t[1]
  {
    assert forall i | 0 <= i < |t| :: LowerChar(t[i]) == Lower(t)[i];
  }

  lemma DigitBack(c: char)
    requires HexValue(c).Some? && LowerChar(c) == c
    ensures HexValue(c).value < 16 && HexDigit(HexValue(c).value) == c
  {
  }

  /** WHICH TEXTS ARE READ AS A HASH: its 64 digits, in either case, with or without the prefix; and no other. */
  lemma ReadsAs(s: string, d: Digest)
    ensures DecodeHex32(s) == Some(d) <==> Lower(s) == HexEncode(d) || Lower(s) == "0x" + HexEncode(d)
  {
    var low := Lower(s);
    var t := TrimHexPrefix(low);
    if DecodeHex32(s) == Some(d) {
      assert Lower(low) == low;
      assert Lower(t) == t by {
        assert forall i | 0 <= i < |low| :: LowerChar(low[i]) == Lower(low)[i];
      }
      DecodedEncodes(t);
    }
    HexRoundTrip(d);
    assert HexEncode(d)[1] != 'x';
  }

  // ---------------------------------------------------------------- trees

  /** The root over no account, one, two and three: the odd one is its own right sibling. */
  lemma SmallTrees(sha: Sha, a: Leaf, b: Leaf, c: Leaf)
    ensures Root(Hash(sha), []) == sha("EAST_EMPTY")
    ensures var x, y, z := LeafHash(Hash(sha), a), LeafHash(Hash(sha), b), LeafHash(Hash(sha), c);
            && Root(Hash(sha), [a]) == x
            && Root(Hash(sha), [a, b]) == NodeDigest(sha, x, y)
            && Root(Hash(sha), [a, b, c]) == NodeDigest(sha, NodeDigest(sha, x, y), NodeDigest(sha, z, z))
  {
    var x, y, z := LeafHash(Hash(sha), a), LeafHash(Hash(sha), b), LeafHash(Hash(sha), c);
    assert LeafHashes(Hash(sha), [a]) == [x];
    assert LeafHashes(Hash(sha), [a, b]) == [x, y];
    assert LeafHashes(Hash(sha), [a, b, c]) == [x, y, z];
    TwoNodes(Hash(sha), x, y);
    ThreeNodes(Hash(sha), x, y, z);
    NodeText(sha, x, y);
    NodeText(sha, z, z);
    NodeText(sha, NodeDigest(sha, x, y), NodeDigest(sha, z, z));
  }

  lemma TwoNodes(hash: Hasher, x: Digest, y: Digest)
    ensures RootOf(hash, [x, y]) == hash(NodeOf(x, y))
  {
    assert PairInput([x, y], 0) == NodeOf(x, y);
    assert NextLevel(hash, [x, y]) == [hash(NodeOf(x, y))];
  }

  lemma ThreeNodes(hash: Hasher, x: Digest, y: Digest, z: Digest)
    ensures RootOf(hash, [x, y, z]) == hash(NodeOf(hash(NodeOf(x, y)), hash(NodeOf(z, z))))
  {
    assert PairInput([x, y, z], 0) == NodeOf(x, y) && PairInput([x, y, z], 1) == NodeOf(z, z);
    assert NextLevel(hash, [x, y, z]) == [hash(NodeOf(x, y)), hash(NodeOf(z, z))];
    TwoNodes(hash, hash(NodeOf(x, y)), hash(NodeOf(z, z)));
  }

  /** One hop of a verifier: the sibling is hashed in on the side it is said to be on. */
  predicate HopLeads(sha: Sha, sibling: string, side: string, from: Digest, to: Digest) {
    var d := DecodeHex32(sibling);
    && d.Some?
    && ((side == "L" && to == NodeDigest(sha, d.value, from)) || (side == "R" && to == NodeDigest(sha, from, d.value)))
  }

  /** The digests a verifier goes through over the first k hops, from the account's leaf on. */
  ghost predicate Chained(sha: Sha, p: MerkleProof, k: nat, digests: seq<Digest>) {
    && k <= |p.path| && k <= |p.sides| && |digests| == k + 1
    && digests[0] == LeafHash(Hash(sha), Leaf(p.address, p.account))
    && forall i | 0 <= i < k :: HopLeads(sha, p.path[i], p.sides[i], digests[i], digests[i + 1])
  }

  /** WHAT THE VERIFIER ACCEPTS: a proof that claims inclusion, whose leaf hash is the account's, with a side for
      every sibling, and for which there is a chain of digests that ends in its root. */
  lemma AcceptedIff(sha: Sha, p: MerkleProof)
    ensures Accepts(Hash(sha), p) <==>
              && p.leafIndex >= 0 && |p.path| == |p.sides|
              && DecodeHex32(p.leafHash) == Some(LeafHash(Hash(sha), Leaf(p.address, p.account)))
              && exists digests ::
                   Chained(sha, p, |p.path|, digests) && DecodeHex32(p.stateRoot) == Some(digests[|p.path|])
  {
    if |p.path| == |p.sides| {
      assert p.path[..|p.path|] == p.path && p.sides[..|p.sides|] == p.sides;
      if DecodePath(p.path, p.sides).Some? {
        var digests := WalkIsChain(sha, p, |p.path|);
      }
      forall digests | Chained(sha, p, |p.path|, digests)
        ensures DecodePath(p.path, p.sides).Some? && digests[|p.path|] == WalkTo(sha, p, |p.path|)
      {
        ChainIsWalk(sha, p, digests, |p.path|);
      }
    }
  }

  function WalkTo(sha: Sha, p: MerkleProof, k: nat): Digest
    requires |p.path| == |p.sides| && k <= |p.path| && DecodePath(p.path[..k], p.sides[..k]).Some?
  {
    Walk(Hash(sha), LeafHash(Hash(sha), Leaf(p.address, p.account)), DecodePath(p.path[..k], p.sides[..k]).value)
  }

  lemma HopLeadsIff(sha: Sha, sibling: string, side: string, from: Digest, to: Digest)
    ensures HopLeads(sha, sibling, side, from, to) <==>
              DecodeHop(sibling, side).Some? && to == Hash(sha)(JoinInput(DecodeHop(sibling, side).value, from))
  {
    if DecodeHop(sibling, side).Some? {
      var d := DecodeHop(sibling, side).value.sibling;
      NodeText(sha, d, from);
      NodeText(sha, from, d);
    }
  }

  lemma WalkNext(sha: Sha, p: MerkleProof, k: nat)
    requires |p.path| == |p.sides| && k < |p.path| && DecodePath(p.path[..k], p.sides[..k]).Some?
    ensures DecodePath(p.path[..k + 1], p.sides[..k + 1]).Some? <==> DecodeHop(p.path[k], p.sides[k]).Some?
    ensures DecodeHop(p.path[k], p.sides[k]).Some? ==>
              HopLeads(sha, p.path[k], p.sides[k], WalkTo(sha, p, k), WalkTo(sha, p, k + 1))
  {
    DecodePrefix(p.path, p.sides, k);
    var hop := DecodeHop(p.path[k], p.sides[k]);
    if hop.Some? {
      WalkBack(Hash(sha), LeafHash(Hash(sha), Leaf(p.address, p.account)),
               DecodePath(p.path[..k], p.sides[..k]).value, hop.value);
      HopLeadsIff(sha, p.path[k], p.sides[k], WalkTo(sha, p, k), WalkTo(sha, p, k + 1));
    }
  }

  lemma {:induction false} WalkIsChain(sha: Sha, p: MerkleProof, k: nat) returns (digests: seq<Digest>)
    requires |p.path| == |p.sides| && k <= |p.path| && DecodePath(p.path[..k], p.sides[..k]).Some?
    ensures Chained(sha, p, k, digests) && digests[k] == WalkTo(sha, p, k)
  {
    if k == 0 {
      digests := [WalkTo(sha, p, 0)];
    } else {
      DecodePrefix(p.path, p.sides, k - 1);
      var before := WalkIsChain(sha, p, k - 1);
      WalkNext(sha, p, k - 1);
      digests := before + [WalkTo(sha, p, k)];
    }
  }

  lemma {:induction false} ChainIsWalk(sha: Sha, p: MerkleProof, digests: seq<Digest>, k: nat)
    requires |p.path| == |p.sides| && k <= |p.path| && Chained(sha, p, |p.path|, digests)
    ensures DecodePath(p.path[..k], p.sides[..k]).Some? && digests[k] == WalkTo(sha, p, k)
  {
    if k > 0 {
      ChainIsWalk(sha, p, digests, k - 1);
      assert HopLeads(sha, p.path[k - 1], p.sides[k - 1], digests[k - 1], digests[k - 1 + 1]);
      HopLeadsIff(sha, p.path[k - 1], p.sides[k - 1], digests[k - 1], digests[k]);
      WalkNext(sha, p, k - 1);
      HopLeadsIff(sha, p.path[k - 1], p.sides[k - 1], digests[k - 1], WalkTo(sha, p, k));
    }
  }

  /** The sibling path of each leaf in a tree of three: the sibling's digest and its side. */
  lemma SmallPaths(hash: Hasher, x: Digest, y: Digest, z: Digest)
    ensures var level := [x, y, z];
            && HopsFrom(hash, level, 0) == [Hop(y, false), Hop(hash(NodeOf(z, z)), false)]
            && HopsFrom(hash, level, 1) == [Hop(x, true), Hop(hash(NodeOf(z, z)), false)]
            && HopsFrom(hash, level, 2) == [Hop(z, false), Hop(hash(NodeOf(x, y)), true)]
  {
    var level := [x, y, z];
    assert PairInput(level, 0) == NodeOf(x, y) && PairInput(level, 1) == NodeOf(z, z);
    assert NextLevel(hash, level) == [hash(NodeOf(x, y)), hash(NodeOf(z, z))];
    PairPaths(hash, hash(NodeOf(x, y)), hash(NodeOf(z, z)));
  }

  lemma PairPaths(hash: Hasher, x: Digest, y: Digest)
    ensures HopsFrom(hash, [x, y], 0) == [Hop(y, false)] && HopsFrom(hash, [x, y], 1) == [Hop(x, true)]
  {
    assert NextLevel(hash, [x, y]) == [hash(PairInput([x, y], 0))];
  }

  // ---------------------------------------------------------------- order

  /** The leaves of a table: its entries, each once, in the order of their addresses. */
  lemma LeavesInOrder(m: map<string, Account>)
    ensures var leaves := SortedLeaves(m);
            && (forall i, j | 0 <= i < j < |leaves| :: Less(leaves[i].addr, leaves[j].addr))
            && (forall i | 0 <= i < |leaves| :: leaves[i].addr in m && leaves[i].acc == m[leaves[i].addr])
            && |leaves| == |m|
  {
    var keys := Listing(m.Keys);
    SortedDistinct(keys);
    DistinctCount(keys);
    assert forall k | k in keys :: k in Elements(keys);
    assert |m.Keys| == |m|;
  }

  /** Go's order on strings: the first place where two differ decides, and a proper prefix comes first. */
  lemma {:induction false} LessIff(a: string, b: string)
    ensures Less(a, b) <==>
              || (|a| < |b| && a == b[..|a|])
              || (exists i :: DiffersAt(a, b, i))
    decreases |a|
  {
    if a != [] && b != [] {
      if a[0] == b[0] {
        LessIff(a[1..], b[1..]);
        DiffersLater(a, b);
      } else {
        assert DiffersAt(a, b, 0) <==> a[0] < b[0];
        assert forall i | DiffersAt(a, b, i) && i > 0 :: a[0] == a[..i][0] == b[..i][0] == b[0];
      }
    }
  }

  lemma DiffersLater(a: string, b: string)
    requires a != [] && b != [] && a[0] == b[0]
    ensures (|a| < |b| && a == b[..|a|]) <==> (|a[1..]| < |b[1..]| && a[1..] == b[1..][..|a[1..]|])
    ensures (exists i :: DiffersAt(a, b, i)) <==> (exists i :: DiffersAt(a[1..], b[1..], i))
  {
    assert a == [a[0]] + a[1..] && b == [b[0]] + b[1..];
    if |a| < |b| {
      assert b[..|a|] == [b[0]] + b[1..][..|a| - 1];
    }
    if i :| DiffersAt(a, b, i) {
      assert a[1..][..i - 1] == a[..i][1..] && b[1..][..i - 1] == b[..i][1..];
      assert DiffersAt(a[1..], b[1..], i - 1);
    }
    if i :| DiffersAt(a[1..], b[1..], i) {
      assert a[..i + 1] == [a[0]] + a[1..][..i] && b[..i + 1] == [b[0]] + b[1..][..i];
      assert DiffersAt(a, b, i + 1);
    }
  }

  /** The first difference is at i and a is smaller there. */
  predicate DiffersAt(a: string, b: string, i: int) {
    0 <= i < |a| && i < |b| && a[..i] == b[..i] && a[i] < b[i]
  }

  predicate Blank(c: char) {
    c in {' ', '\t', '\n', '\r'} || c as int in {11, 12}
  }

  /** From lo to hi stands what is left without the spaces at both ends. */
  predicate Middle(s: string, lo: nat, hi: nat) {
    && lo <= hi <= |s|
    && (forall i | 0 <= i < lo :: Blank(s[i])) && (forall i | hi <= i < |s| :: Blank(s[i]))
    && (lo < hi ==> !Blank(s[lo]) && !Blank(s[hi - 1]))
  }

  /** Normalising an address keeps its middle, in lower case. */
  lemma NormIs(s: string) returns (lo: nat, hi: nat)
    ensures Middle(s, lo, hi) && |Norm(s)| == hi - lo
    ensures forall i | lo <= i < hi :: Norm(s)[i - lo] == if 'A' <= s[i] <= 'Z' then s[i] - 'A' + 'a' else s[i]
  {
    lo := SkipSpaces(s, 0);
    hi := DropSpaces(s, lo, |s|);
    SkippedAreSpaces(s, 0);
    DroppedAreSpaces(s, lo, |s|);
    SpacesAreBlank(s);
    assert Trim(s) == s[lo..hi];
  }

  lemma SpacesAreBlank(s: string)
    ensures forall i | 0 <= i < |s| :: IsSpace(s[i]) <==> Blank(s[i])
  {
  }

  lemma {:induction false} SkippedAreSpaces(s: string, i: nat)
    requires i <= |s|
    ensures forall j | i <= j < SkipSpaces(s, i) :: IsSpace(s[j])
    decreases |s| - i
  {
    if i < |s| && IsSpace(s[i]) {
      SkippedAreSpaces(s, i + 1);
    }
  }

  lemma {:induction false} DroppedAreSpaces(s: string, lo: nat, j: nat)
    requires lo <= j <= |s|
    ensures forall i | DropSpaces(s, lo, j) <= i < j :: IsSpace(s[i])
    decreases j
  {
    if j > lo && IsSpace(s[j - 1]) {
      DroppedAreSpaces(s, lo, j - 1);
    }
  }
}
