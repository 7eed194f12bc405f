/**
 When a block is sealed or imported, and what it leaves behind: the checks one by one, the books as a sequence
 of states, and the saved header field by field; proved of `Blocks.Seal` and `Blocks.Import`.
 */
module BlockRules {
  import opened Text
  import opened Accounts
  import opened Ledger
  import opened Chain
  import opened Folds
  import opened Blocks

  // ---------------------------------------------------------------- the books

  /** The books after each transaction when all of them apply. */
  ghost predicate AppliedInTurn(b: Books, txs: seq<Tx>, states: seq<Books>) {
    && |states| == |txs| + 1 && states[0] == b
    && forall i | 0 <= i < |txs| :: Apply(states[i], txs[i]) == Some(states[i + 1])
  }

  ghost predicate AllApply(b: Books, txs: seq<Tx>) {
    exists states :: AppliedInTurn(b, txs, states)
  }

  lemma TurnIsTurn(b: Books, txs: seq<Tx>, states: seq<Books>)
    ensures AppliedInTurn(b, txs, states) <==> InTurn(Applying(), b, txs, states)
  {
    assert forall s, t :: Applying()(s, t) == Apply(s, t);
  }

  /** A strict pass goes through exactly when the whole list applies in turn. */
  lemma StrictIff(b: Books, txs: seq<Tx>)
    ensures Strict(Applying(), b, txs).1 <==> AllApply(b, txs)
  {
    if Strict(Applying(), b, txs).1 {
      var states := InTurnStates(Applying(), b, txs);
      TurnIsTurn(b, txs, states);
    }
    forall states | AppliedInTurn(b, txs, states) ensures Strict(Applying(), b, txs).1 {
      TurnIsTurn(b, txs, states);
      StrictIsInTurn(Applying(), b, txs, states);
    }
  }

  // ---------------------------------------------------------------- importing

  /** THE CHECKS OF A FOLLOWER, one by one: the next height; the tip's hash, or GENESIS at the start; a proposer that
      is listed up to case, if any is, and not jailed; transactions that are valid each; a hash that is that of
      the block's own fields; and a signature of a named proposer that verifies, or no signature and at most one
      proposer listed. */
  ghost predicate PassesChecks(env: Env, n: Node, blk: Block, v: Verdict) {
    var c := n.chain;
    && blk.height == c.tip + 1
    && (c.tip == 0 ==> blk.prevHash == "GENESIS")
    && (c.tip > 0 ==> c.tip in c.blocks && blk.prevHash == c.blocks[c.tip].hash)
    && (|v.allowed| > 0 ==> exists i | 0 <= i < |v.allowed| :: Lower(v.allowed[i]) == Lower(blk.proposer))
    && !v.jailed
    && (forall i | 0 <= i < |blk.txs| :: ValidateBasic(blk.txs[i], v.checks(blk.txs[i])))
    && blk.hash == HashedFields(env, blk)
    && ((blk.signature != "" && blk.proposer != "" && v.signatureOk) || (blk.signature == "" && |v.allowed| <= 1))
  }

  /** The hash of a block's fields. */
  function HashedFields(env: Env, blk: Block): string {
    env.blockHash(Covered(blk.height, blk.prevHash, TxHashes(env, blk.txs), blk.timestamp, blk.proposer))
  }

  function TxHashes(env: Env, txs: seq<Tx>): seq<string> {
    seq(|txs|, i requires 0 <= i < |txs| => env.txHash(txs[i]))
  }

  lemma TxHashesAre(env: Env, txs: seq<Tx>)
    ensures TxHashes(env, txs) == HashList(env, txs)
  {
    var l := HashList(env, txs);
    forall i | 0 <= i < |txs| ensures TxHashes(env, txs)[i] == l[i] {
    }
  }

  lemma AllowedIff(allowed: seq<string>, proposer: string)
    ensures ProposerAllowed(allowed, proposer) <==>
              (|allowed| > 0 ==> exists i | 0 <= i < |allowed| :: Lower(allowed[i]) == Lower(proposer))
  {
    if i :| 0 <= i < |allowed| && Lower(allowed[i]) == Lower(proposer) {
      assert allowed[i] in allowed;
    }
  }

  lemma ChecksAre(env: Env, n: Node, blk: Block, v: Verdict)
    ensures Admits(env, n, blk, v) <==> PassesChecks(env, n, blk, v)
  {
    AllowedIff(v.allowed, blk.proposer);
    TxHashesAre(env, blk.txs);
    EveryTx(blk.txs, v.checks);
  }

  lemma EveryTx(txs: seq<Tx>, checks: Tx -> Checks)
    ensures AllValid(txs, checks) <==> forall i | 0 <= i < |txs| :: ValidateBasic(txs[i], checks(txs[i]))
  {
    if AllValid(txs, checks) {
      forall i | 0 <= i < |txs| ensures ValidateBasic(txs[i], checks(txs[i])) {
        assert txs[i] in txs;
      }
    }
  }

  /** WHEN A BLOCK IS IMPORTED: if and only if it passes every check and all its transactions apply in turn. */
  lemma ImportIff(env: Env, n: Node, blk: Block, v: Verdict)
    ensures Import(env, n, blk, v).ok <==> PassesChecks(env, n, blk, v) && AllApply(n.books, blk.txs)
  {
    ChecksAre(env, n, blk, v);
    StrictIff(n.books, blk.txs);
  }

  /** WHAT IT LEAVES BEHIND: the books after its last transaction, itself as the tip under its height, and nothing
      else; its header is the announcement without a state root. */
  lemma ImportedNode(env: Env, n: Node, blk: Block, v: Verdict)
    requires Import(env, n, blk, v).ok
    ensures var n' := Import(env, n, blk, v).node;
            && (exists states :: AppliedInTurn(n.books, blk.txs, states) && n'.books == states[|blk.txs|])
            && n'.chain.tip == blk.height
            && n'.chain.blocks == n.chain.blocks[blk.height :=
                 Header(blk.height, blk.hash, blk.prevHash, "", TxHashes(env, blk.txs), blk.timestamp, blk.proposer,
                        |blk.txs|, blk.signature)]
  {
    ChecksAre(env, n, blk, v);
    TxHashesAre(env, blk.txs);
    var states := InTurnStates(Applying(), n.books, blk.txs);
    TurnIsTurn(n.books, blk.txs, states);
  }

  /** A block that is not imported leaves the chain alone; the books only move if it passed the checks, and then
      as far as the transaction that was refused. */
  lemma RefusedNode(env: Env, n: Node, blk: Block, v: Verdict)
    requires !Import(env, n, blk, v).ok
    ensures var n' := Import(env, n, blk, v).node;
            && n'.chain == n.chain
            && (!PassesChecks(env, n, blk, v) ==> n'.books == n.books)
            && (PassesChecks(env, n, blk, v) ==>
                  exists k: nat, states | k < |blk.txs| && AppliedInTurn(n.books, blk.txs[..k], states) ::
                    n'.books == states[k] && Apply(states[k], blk.txs[k]).None?)
  {
    ChecksAre(env, n, blk, v);
    if PassesChecks(env, n, blk, v) {
      var k := StoppedAt(Applying(), n.books, blk.txs);
      var states := InTurnStates(Applying(), n.books, blk.txs[..k]);
      TurnIsTurn(n.books, blk.txs[..k], states);
      assert |blk.txs[..k]| == k;
    }
  }

  // ---------------------------------------------------------------- sealing

  /** WHEN A BLOCK IS SEALED: if and only if the tip block is there, or nothing was sealed yet, and signing it, if
      there is a key, does not fail. */
  lemma SealIff(env: Env, n: Node, proposer: string, txs: seq<Tx>, timestamp: int, signing: Signing)
    ensures Seal(env, n, proposer, txs, timestamp, signing).sealed.Some?
       <==> (n.chain.tip == 0 || n.chain.tip in n.chain.blocks) && !signing.SigningFails?
  {
  }

  /** WHAT SEALING LEAVES BEHIND. If the tip block is missing, everything is as it was. Otherwise each transaction
      has been applied or skipped in its turn, also when signing failed. */
  lemma SealedBooks(env: Env, n: Node, proposer: string, txs: seq<Tx>, timestamp: int, signing: Signing)
    ensures var n' := Seal(env, n, proposer, txs, timestamp, signing).node;
            if n.chain.tip > 0 && n.chain.tip !in n.chain.blocks then n' == n
            else exists states :: Skipping(Applying(), n.books, txs, states) && n'.books == states[|txs|]
  {
    var states, at := SkippingStates(Applying(), n.books, txs);
  }

  /** THE SEALED BLOCK holds exactly the transactions that applied, in order, under the next height, linked to the
      tip, hashed over its fields, with the state root of the books after them, and becomes the tip. */
  lemma SealedBlock(env: Env, n: Node, proposer: string, txs: seq<Tx>, timestamp: int, signing: Signing)
    requires Seal(env, n, proposer, txs, timestamp, signing).sealed.Some?
    ensures var r := Seal(env, n, proposer, txs, timestamp, signing);
            var (h, kept) := r.sealed.value;
            var prevHash := if n.chain.tip == 0 then "GENESIS" else n.chain.blocks[n.chain.tip].hash;
            && r.node.chain == Chain(n.chain.blocks[n.chain.tip + 1 := h], n.chain.tip + 1)
            && (exists states, at ::
                  Skipping(Applying(), n.books, txs, states) && Picks(Applying(), txs, states, kept, at))
            && h == Header(n.chain.tip + 1,
                           env.blockHash(Covered(n.chain.tip + 1, prevHash, TxHashes(env, kept), timestamp, proposer)),
                           prevHash, env.stateRoot(r.node.books.accounts), TxHashes(env, kept), timestamp, proposer,
                           |kept|, if signing.Signed? then signing.signature else "")
  {
    var kept := Passed(Applying(), n.books, txs);
    TxHashesAre(env, kept);
    var states, at := SkippingStates(Applying(), n.books, txs);
  }

  /** A sealing that does not come about leaves the chain alone. */
  lemma UnsealedChain(env: Env, n: Node, proposer: string, txs: seq<Tx>, timestamp: int, signing: Signing)
    requires Seal(env, n, proposer, txs, timestamp, signing).sealed.None?
    ensures Seal(env, n, proposer, txs, timestamp, signing).node.chain == n.chain
  {
  }

  // ---------------------------------------------------------------- pruning

  /** WHAT PRUNING DELETES: with a positive number to keep, exactly the blocks more than that below the tip; with
      none, nothing. */
  lemma PruneIff(c: Chain, keep: int, k: nat)
    ensures Prune(c, keep).tip == c.tip
    ensures k in Prune(c, keep).blocks <==> k in c.blocks && (keep <= 0 || k + keep >= c.tip)
    ensures k in Prune(c, keep).blocks ==> Prune(c, keep).blocks[k] == c.blocks[k]
  {
  }
}
