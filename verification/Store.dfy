/**
 The store (internal/state/state.go:129-355, 476-503) and the two ways blocks get into it
 (internal/consensus/producer.go:176-239, internal/consensus/seal.go:95-188). The database is a set of
 tables; each database transaction takes effect as a whole or not at all.
 */
module Store {
  import opened Text
  import opened Sorting
  import opened Accounts
  import opened BlockHash
  import opened Merkle
  import opened MerkleProofs
  import opened Ledger
  import opened Chain
  import opened Folds
  import opened Blocks

  /** `loadSortedLeaves`, whatever order the table is walked in. */
  method LoadSortedLeaves(m: map<string, Account>) returns (leaves: seq<Leaf>)
    ensures leaves == SortedLeaves(m)
  {
    var keys := AnyOrder(m.Keys);
    keys := SortStrings(keys);
    assert forall k | k in keys :: k in Elements(keys);
    leaves := LeavesOf(m, keys);
  }

  /** `ComputeStateRoot`. */
  method ComputeStateRoot(hash: Hasher, m: map<string, Account>) returns (root: Digest)
    ensures root == StateRoot(hash, m)
  {
    var leaves := LoadSortedLeaves(m);
    var hashes := LeafHashes(hash, leaves);
    var layers := BuildMerkleLayers(hash, hashes);
    if leaves != [] {
      LayersAreLayers(hash, hashes);
    }
    root := layers[|layers| - 1][0];
  }

  class Store {
    const env: Env
    var accounts: map<string, Account>
    var buckets: map<string, Bucket>
    var blocks: map<nat, Header>
    var tip: nat

    ghost function View(): Node
      reads this
    {
      Node(Books(accounts, buckets), Chain(blocks, tip))
    }

    ghost predicate Valid()
      reads this
    {
      PlainHashes(env.blockHash) && ChainOk(env.blockHash, Chain(blocks, tip))
    }

    constructor (env: Env, accounts: map<string, Account>, buckets: map<string, Bucket>)
      requires PlainHashes(env.blockHash)
      ensures Valid() && this.env == env && View() == Node(Books(accounts, buckets), Chain(map[], 0))
    {
      this.env, this.accounts, this.buckets, blocks, tip := env, accounts, buckets, map[], 0;
      new;
      assert Contiguous(Chain(blocks, tip), 1);
    }

    method AccountAt(k: string) returns (a: Account)
      ensures a == At(accounts, k)
    {
      if k in accounts {
        a := accounts[k];
      } else {
        a := NewAccount();
      }
    }

    method GetAccount(addr: string) returns (a: Account)
      ensures a == Get(accounts, addr)
    {
      a := AccountAt(Norm(addr));
    }

    /** `mintFromBucketTxn` on the pending bucket table. */
    method MintFromBucket(pending: map<string, Bucket>, name: string,
        amount: int) returns (minted: Option<map<string, Bucket>>)
      ensures minted == Mint(pending, name, amount)
    {
      if amount <= 0 || name !in pending {
        return None;
      }
      var b := pending[name];
      if Wrap64(b.minted + amount) > b.cap {
        return None;
      }
      b := b.(minted := Wrap64(b.minted + amount));
      minted := Some(pending[name := b]);
    }

    method BucketRemaining(name: string) returns (rem: Option<int>)
      ensures rem == BucketLeft(buckets, name)
    {
      if name !in buckets {
        return None;
      }
      var left := Wrap64(buckets[name].cap - buckets[name].minted);
      rem := Some(if left < 0 then 0 else left);
    }

    /** A transaction changes the books as `Apply` says, or changes nothing. */
    method ApplyTx(t: Tx) returns (ok: bool)
      modifies this`accounts, this`buckets
      ensures ok <==> Apply(old(View().books), t).Some?
      ensures View().books == if ok then Apply(old(View().books), t).value else old(View().books)
    {
      ok := ApplyWith(t, Norm(t.from), Norm(t.to));
    }

    method ApplyWith(t: Tx, f: string, g: string) returns (ok: bool)
      modifies this`accounts, this`buckets
      ensures ok <==> ApplyKeyed(old(View().books), t, f, g).Some?
      ensures View().books == if ok then ApplyKeyed(old(View().books), t, f, g).value else old(View().books)
    {
      var from := AccountAt(f);
      if t.nonce > 0 && t.nonce <= from.nonce {
        return false;
      }
      match t.ttype
      case Transfer => ok := ApplyTransfer(t, f, g, from);
      case ClaimMining => ok := ApplyClaim(t, f, g, from);
      case _ => ok := ApplyStaking(t, f, g, from);
    }

    method ApplyTransfer(t: Tx, f: string, g: string, sender: Account) returns (ok: bool)
      requires t.ttype == Transfer && sender == At(accounts, f) && !(t.nonce > 0 && t.nonce <= sender.nonce)
      modifies this`accounts
      ensures ok <==> ApplyKeyed(old(View().books), t, f, g).Some?
      ensures View().books == if ok then ApplyKeyed(old(View().books), t, f, g).value else old(View().books)
    {
      var from := sender;
      if from.balance < t.amount {
        return false;
      }
      from := from.(balance := Wrap64(from.balance - t.amount));
      from := from.(nonce := t.nonce);
      var to := AccountAt(g);
      to := to.(balance := Wrap64(to.balance + t.amount));
      accounts := accounts[f := from];
      accounts := accounts[g := to];
      ok := true;
    }

    method ApplyStaking(t: Tx, f: string, g: string, sender: Account) returns (ok: bool)
      requires t.ttype != Transfer && t.ttype != ClaimMining
      requires sender == At(accounts, f) && !(t.nonce > 0 && t.nonce <= sender.nonce)
      modifies this`accounts
      ensures ok <==> ApplyKeyed(old(View().books), t, f, g).Some?
      ensures View().books == if ok then ApplyKeyed(old(View().books), t, f, g).value else old(View().books)
    {
      var from := sender;
      match t.ttype {
        case Stake =>
          if from.balance < t.amount {
            return false;
          }
          from := from.(balance := Wrap64(from.balance - t.amount));
          from := from.(staked := Wrap64(from.staked + t.amount));
        case RequestUnstake =>
          if from.staked < t.amount {
            return false;
          }
          from := from.(staked := Wrap64(from.staked - t.amount));
          from := from.(pending := Wrap64(from.pending + t.amount));
        case ClaimUnstake =>
          if from.pending < t.amount {
            return false;
          }
          from := from.(pending := Wrap64(from.pending - t.amount));
          from := from.(balance := Wrap64(from.balance + t.amount));
        case Unknown(_) =>
          return false;
      }
      from := from.(nonce := t.nonce);
      accounts := accounts[f := from];
      ok := true;
    }

    method ApplyClaim(t: Tx, f: string, g: string, sender: Account) returns (ok: bool)
      requires t.ttype == ClaimMining && sender == At(accounts, f) && !(t.nonce > 0 && t.nonce <= sender.nonce)
      modifies this`accounts, this`buckets
      ensures ok <==> ApplyKeyed(old(View().books), t, f, g).Some?
      ensures View().books == if ok then ApplyKeyed(old(View().books), t, f, g).value else old(View().books)
    {
      var from := sender;
      var bucket := ParseClaim(t);
      if bucket.None? {
        return false;
      }
      var minted := MintFromBucket(buckets, bucket.value, t.amount);
      if minted.None? {
        return false;
      }
      var credit := Wrap64(InSubunits(t.amount));
      if t.amount > 0 && TruncDiv(credit, t.amount) != SUBUNITS {
        return false;
      }
      from := from.(balance := Wrap64(from.balance + credit));
      from := from.(nonce := t.nonce);
      accounts := accounts[f := from];
      buckets := minted.value;
      ok := true;
    }

    /** `SaveBlock`, and `SaveBlockWithTxs` without the transaction bodies. */
    method SaveBlock(h: Header)
      modifies this`blocks, this`tip
      ensures View().chain == Append(old(View().chain), h)
    {
      blocks := blocks[h.height := h];
      tip := h.height;
    }

    /** The loop of the leader: apply what can be applied, keep what was. */
    method ApplySkipping(txs: seq<Tx>) returns (txHashes: seq<string>, applied: seq<Tx>)
      modifies this`accounts, this`buckets
      ensures View().books == Lenient(Applying(), old(View().books), txs)
      ensures applied == Passed(Applying(), old(View().books), txs) && txHashes == HashList(env, applied)
    {
      txHashes, applied := [], [];
      var i := 0;
      while i < |txs|
        invariant 0 <= i <= |txs|
        invariant View().books == Lenient(Applying(), old(View().books), txs[..i])
        invariant applied == Passed(Applying(), old(View().books), txs[..i])
        invariant txHashes == HashList(env, applied)
      {
        LenientBack(Applying(), old(View().books), txs, i);
        var ok := ApplyTx(txs[i]);
        if ok {
          HashListBack(env, applied, txs[i]);
          txHashes := txHashes + [env.txHash(txs[i])];
          applied := applied + [txs[i]];
        }
        i := i + 1;
      }
      assert txs[..i] == txs;
    }

    method SealBlockWithTxs(proposer: string, txs: seq<Tx>, timestamp: int,
        signing: Signing) returns (sealed: Option<(Header, seq<Tx>)>)
      requires Valid()
      modifies this`accounts, this`buckets, this`blocks, this`tip
      ensures SealResult(View(), sealed) == Seal(env, old(View()), proposer, txs, timestamp, signing)
      ensures Valid()
    {
      SealStaysValid(View(), proposer, txs, timestamp, signing);
      var prev := PrevHash();
      if prev.None? {
        return None;
      }
      SealSpelledOut(env, View(), prev.value, proposer, txs, timestamp, signing);
      sealed := ApplyAndSeal(prev.value, proposer, txs, timestamp, signing);
    }

    /** Sealing on a known previous hash. */
    method ApplyAndSeal(prevHash: string, proposer: string, txs: seq<Tx>, timestamp: int,
        signing: Signing) returns (sealed: Option<(Header, seq<Tx>)>)
      modifies this`accounts, this`buckets, this`blocks, this`tip
      ensures View().books == Lenient(Applying(), old(View().books), txs)
      ensures sealed.None? <==> signing.SigningFails?
      ensures sealed.None? ==> View().chain == old(View().chain)
      ensures sealed.Some? ==>
                && View().chain == Append(old(View().chain), sealed.value.0)
                && sealed.value.1 == Passed(Applying(), old(View().books), txs)
                && sealed.value.0 == HeaderFor(env, old(tip) + 1, prevHash, env.stateRoot(accounts), sealed.value.1,
                  timestamp, proposer,
                                               if signing.Signed? then signing.signature else "")
    {
      var txHashes, applied := ApplySkipping(txs);
      if signing.SigningFails? {
        return None;
      }
      var signature := if signing.Signed? then signing.signature else "";
      var header := SaveSealed(prevHash, txHashes, applied, timestamp, proposer, signature);
      sealed := Some((header, applied));
    }

    method SaveSealed(prevHash: string, txHashes: seq<string>, ghost applied: seq<Tx>, timestamp: int,
        proposer: string, signature: string)
      returns (header: Header)
      requires txHashes == HashList(env, applied)
      modifies this`blocks, this`tip
      ensures header == HeaderFor(env, old(tip) + 1, prevHash, env.stateRoot(accounts), applied, timestamp,
        proposer, signature)
      ensures View() == Node(old(View().books), Append(old(View().chain), header))
    {
      header := MakeHeader(prevHash, txHashes, applied, timestamp, proposer, signature);
      SaveBlock(header);
    }

    method PrevHash() returns (prev: Option<string>)
      ensures prev == ExpectedPrev(View().chain)
    {
      if tip == 0 {
        return Some(GENESIS);
      }
      if tip !in blocks {
        return None;
      }
      prev := Some(blocks[tip].hash);
    }

    method MakeHeader(prevHash: string, txHashes: seq<string>, ghost applied: seq<Tx>, timestamp: int,
        proposer: string, signature: string)
      returns (header: Header)
      requires txHashes == HashList(env, applied)
      ensures header == HeaderFor(env, tip + 1, prevHash, env.stateRoot(accounts), applied, timestamp, proposer,
        signature)
    {
      var hash := env.blockHash(Covered(tip + 1, prevHash, txHashes, timestamp, proposer));
      var root := env.stateRoot(accounts);
      header := Header(tip + 1, hash, prevHash, root, txHashes, timestamp, proposer, |txHashes|, signature);
    }

    lemma SealStaysValid(n: Node, proposer: string, txs: seq<Tx>, timestamp: int, signing: Signing)
      requires PlainHashes(env.blockHash) && ChainOk(env.blockHash, n.chain)
      ensures ChainOk(env.blockHash, Seal(env, n, proposer, txs, timestamp, signing).node.chain)
    {
      SealMovesChain(env, n, proposer, txs, timestamp, signing);
      MoveKeepsChain(env.blockHash, n.chain, Seal(env, n, proposer, txs, timestamp, signing).node.chain);
    }

    /** The loop of a follower: stop at the first transaction that is refused. */
    method ApplyAll(txs: seq<Tx>) returns (ok: bool)
      modifies this`accounts, this`buckets
      ensures (View().books, ok) == Strict(Applying(), old(View().books), txs)
    {
      ghost var before := View().books;
      var i := 0;
      while i < |txs|
        invariant 0 <= i <= |txs|
        invariant Strict(Applying(), before, txs[..i]) == (View().books, true)
      {
        StrictNext(Applying(), before, txs, i);
        ok := ApplyTx(txs[i]);
        if !ok {
          return;
        }
        i := i + 1;
      }
      assert txs[..i] == txs;
      ok := true;
    }

    method IsAllowed(allowed: seq<string>, proposer: string) returns (ok: bool)
      ensures ok == ProposerAllowed(allowed, proposer)
    {
      if |allowed| == 0 {
        return true;
      }
      ok := false;
      var i := 0;
      while i < |allowed| && !ok
        invariant 0 <= i <= |allowed|
        invariant ok ==> exists a | a in allowed :: Lower(a) == Lower(proposer)
        invariant !ok ==> forall j | 0 <= j < i :: Lower(allowed[j]) != Lower(proposer)
      {
        ok := Lower(allowed[i]) == Lower(proposer);
        assert allowed[i] in allowed;
        i := i + 1;
      }
    }

    /** Validates every transaction and collects the hashes. */
    method ValidateAll(txs: seq<Tx>, checks: Tx -> Checks) returns (ok: bool, txHashes: seq<string>)
      ensures ok == AllValid(txs, checks)
      ensures ok ==> txHashes == HashList(env, txs)
    {
      txHashes := [];
      var i := 0;
      while i < |txs|
        invariant 0 <= i <= |txs|
        invariant forall j | 0 <= j < i :: ValidateBasic(txs[j], checks(txs[j]))
        invariant txHashes == HashList(env, txs[..i])
      {
        if !ValidateBasic(txs[i], checks(txs[i])) {
          assert txs[i] in txs;
          return false, [];
        }
        assert txs[..i + 1] == txs[..i] + [txs[i]];
        HashListBack(env, txs[..i], txs[i]);
        txHashes := txHashes + [env.txHash(txs[i])];
        i := i + 1;
      }
      assert txs[..i] == txs;
      ok := true;
    }

    /** The checks of `VerifyAndSaveGossipedBlockStrict`. */
    method CheckBlock(blk: Block, v: Verdict) returns (ok: bool, txHashes: seq<string>)
      ensures ok == Admits(env, View(), blk, v)
      ensures ok ==> txHashes == HashList(env, blk.txs)
    {
      ok, txHashes := false, [];
      if blk.height != tip + 1 {
        return;
      }
      var expectedPrev := PrevHash();
      if expectedPrev != Some(blk.prevHash) {
        return;
      }
      var allowed := IsAllowed(v.allowed, blk.proposer);
      if !allowed || v.jailed {
        return;
      }
      var valid;
      valid, txHashes := ValidateAll(blk.txs, v.checks);
      if !valid {
        return;
      }
      if env.blockHash(Covered(blk.height, blk.prevHash, txHashes, blk.timestamp, blk.proposer)) != blk.hash {
        return;
      }
      ok := SignatureAccepted(blk, v);
    }

    /** `VerifyAndSaveGossipedBlockStrict`. */
    method ImportBlock(blk: Block, v: Verdict) returns (ok: bool)
      requires Valid()
      modifies this`accounts, this`buckets, this`blocks, this`tip
      ensures ImportResult(View(), ok) == Import(env, old(View()), blk, v)
      ensures Valid()
    {
      ImportStaysValid(View(), blk, v);
      var admitted, txHashes := CheckBlock(blk, v);
      if !admitted {
        return false;
      }
      ok := ApplyAll(blk.txs);
      if ok {
        SaveBlock(Header(blk.height, blk.hash, blk.prevHash, "", txHashes, blk.timestamp, blk.proposer, |txHashes|,
          blk.signature));
      }
    }

    lemma ImportStaysValid(n: Node, blk: Block, v: Verdict)
      requires PlainHashes(env.blockHash) && ChainOk(env.blockHash, n.chain)
      ensures ChainOk(env.blockHash, Import(env, n, blk, v).node.chain)
    {
      ImportMovesChain(env, n, blk, v);
      MoveKeepsChain(env.blockHash, n.chain, Import(env, n, blk, v).node.chain);
    }

    /** `PruneOldBlocks`: walks the block table and deletes what is below the cutoff. */
    method PruneOldBlocks(keep: int)
      requires Valid()
      modifies this`blocks
      ensures View().chain == Prune(old(View().chain), keep)
      ensures Valid()
    {
      PruneKeepsChain(env.blockHash, Chain(blocks, tip), keep);
      if keep > 0 && tip > keep {
        DeleteBelow(tip - keep);
      }
    }

    method DeleteBelow(cutoff: nat)
      modifies this`blocks
      ensures blocks == Kept(old(blocks), cutoff)
    {
      var left := blocks.Keys;
      while left != {}
        invariant left <= old(blocks).Keys && blocks.Keys <= old(blocks).Keys
        invariant forall k | k in old(blocks) :: k in blocks <==> k in left || k >= cutoff
        invariant forall k | k in blocks :: blocks[k] == old(blocks)[k]
        decreases left
      {
        var k :| k in left;
        if k < cutoff {
          blocks := blocks - {k};
        }
        left := left - {k};
      }
    }
  }

  lemma SealSpelledOut(env: Env, n: Node, prevHash: string, proposer: string, txs: seq<Tx>, timestamp: int,
      signing: Signing)
    requires ExpectedPrev(n.chain) == Some(prevHash)
    ensures var books, kept := Lenient(Applying(), n.books, txs), Passed(Applying(), n.books, txs);
            var h := HeaderFor(env, n.chain.tip + 1, prevHash, env.stateRoot(books.accounts), kept, timestamp, proposer,
                               if signing.Signed? then signing.signature else "");
            Seal(env, n, proposer, txs, timestamp, signing) ==
              if signing.SigningFails? then SealResult(Node(books, n.chain), None)
              else SealResult(Node(books, Append(n.chain, h)), Some((h, kept)))
  {
  }

  lemma HashListBack(env: Env, txs: seq<Tx>, t: Tx)
    ensures HashList(env, txs + [t]) == HashList(env, txs) + [env.txHash(t)]
  {
  }
}
