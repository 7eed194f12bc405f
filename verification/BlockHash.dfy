/** The hashes a block header carries (internal/consensus/seal.go:22-41). */
module BlockHash {
  import opened Text

  function Concat(hashes: seq<string>): string {
    if hashes == [] then "" else hashes[0] + Concat(hashes[1..])
  }

  /** What is hashed for the transaction list: the hashes one after the other. */
  function MerklePayload(txHashes: seq<string>): string {
    if txHashes == [] then "EMPTY" else Concat(txHashes)
  }

  function RecomputeMerkleRoot(sha: Sha, txHashes: seq<string>): (r: string)
    ensures |r| == 66 && r[0] == '0' && '|' !in r
  {
    HashHex(sha(MerklePayload(txHashes)))
  }

  /** height|prevHash|merkleRoot|timestamp|proposer */
  function BlockPayload(height: nat, prevHash: string, merkleRoot: string, timestamp: int, proposer: string): string {
    Digits(height) + "|" + (prevHash + "|" + (merkleRoot + "|" + (Decimal(timestamp) + "|" + proposer)))
  }

  function RecomputeBlockHash(sha: Sha, height: nat, prevHash: string, merkleRoot: string, timestamp: int,
      proposer: string): (r: string)
    ensures |r| == 66 && r[0] == '0' && '|' !in r
  {
    HashHex(sha(BlockPayload(height, prevHash, merkleRoot, timestamp, proposer)))
  }

  /** Field by field, the block payload can be read back: only the two hashes in the middle must be
      free of the separator. */
  lemma BlockPayloadInjective(h1: nat, p1: string, m1: string, t1: int, o1: string, h2: nat, p2: string, m2: string,
      t2: int, o2: string)
    requires '|' !in p1 && '|' !in p2 && '|' !in m1 && '|' !in m2
    requires BlockPayload(h1, p1, m1, t1, o1) == BlockPayload(h2, p2, m2, t2, o2)
    ensures h1 == h2 && p1 == p2 && m1 == m2 && t1 == t2 && o1 == o2
  {
    var c1, c2 := Decimal(t1) + "|" + o1, Decimal(t2) + "|" + o2;
    var b1, b2 := m1 + "|" + c1, m2 + "|" + c2;
    SplitFront(Digits(h1), p1 + "|" + b1, Digits(h2), p2 + "|" + b2);
    DigitsInjective(h1, h2);
    SplitFront(p1, b1, p2, b2);
    SplitFront(m1, c1, m2, c2);
    SplitFront(Decimal(t1), o1, Decimal(t2), o2);
    DecimalInjective(t1, t2);
  }

  ghost predicate TxHashList(hashes: seq<string>) {
    forall i | 0 <= i < |hashes| :: |hashes[i]| == 66
  }

  lemma {:induction false} ConcatInjective(a: seq<string>, b: seq<string>)
    requires TxHashList(a) && TxHashList(b) && Concat(a) == Concat(b)
    ensures a == b
    decreases |a|
  {
    if a == [] || b == [] {
      assert |Concat(a)| == |Concat(b)|;
    } else {
      assert a[0] == Concat(a)[..66] == Concat(b)[..66] == b[0];
      CancelFront(a[0], Concat(a[1..]), Concat(b[1..]));
      ConcatInjective(a[1..], b[1..]);
      assert a == [a[0]] + a[1..] && b == [b[0]] + b[1..];
    }
  }

  /** Hashes all have one length, so running them together loses nothing; the empty list has its own
      tag, too short to be a run of hashes. */
  lemma MerklePayloadInjective(a: seq<string>, b: seq<string>)
    requires TxHashList(a) && TxHashList(b) && MerklePayload(a) == MerklePayload(b)
    ensures a == b
  {
    assert a != [] ==> |Concat(a)| >= 66;
    assert b != [] ==> |Concat(b)| >= 66;
    if a != [] && b != [] {
      ConcatInjective(a, b);
    }
  }
}
