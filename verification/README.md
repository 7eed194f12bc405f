# EAST validator: a verified model

This project models the consensus and state core of the EAST validator in Dafny and proves what that core is for:
that honest validators never commit different blocks, that a state root or an inclusion proof cannot lie about an
account, that coins are conserved from genesis on, that a follower replaying a block ends where the leader ended, and
that the in-place or cached data structures around them behave like the simple ones they stand for.

`dafny verify dfyconfig.toml` checks everything.

## How the model is laid out

| file | what it holds |
|---|---|
| `Text`, `Sorting`, `Compaction`, `Folds`, `Sums` | strings, addresses and their order, decimal and hexadecimal text, sorting, in-place filtering, the two ways of running a list of partial steps, sums over tables |
| `Votes`, `Engine`, `EngineSafety` | votes and quorums; every critical section of the BFT engine as a function on a state value; what each of them keeps and may sign |
| `EngineRules`, `EngineRuns` | what each section does to the fields, case by case, and what that means over runs: which vote counts, which proposals are accepted and prevoted, when the height moves |
| `EngineClass` | the mutable engine, section by section, proved equal to those functions, with its tally loops over maps in arbitrary order |
| `Network` | any number of engines, some members faulty, any interleaving: agreement, locks, single voting |
| `NilVotes`, `Decisions`, `Jailing`, `CleanRuns` | exactly when engines decide, lock and jail, in particular on the second spelling of nil, and runs without it |
| `RunSteps`, `NilRun`, `LockRun`, `WrapRun` | complete runs that go wrong without a faulty member |
| `Accounts`, `Merkle`, `MerkleProofs` | the account tree: what its root commits to, the layer builder, prover and verifier |
| `Formats` | the signed and hashed texts byte by byte, the smallest trees, and what the verifier accepts |
| `Ledger`, `LedgerRules`, `Genesis` | int64 accounts and buckets, transactions, genesis, conservation and nonces over whole runs |
| `BlockHash`, `Chain`, `Blocks`, `BlockRules`, `Store` | block hashes, the stored chain, sealing and importing as values, when they succeed and what they leave behind, and the store object whose methods do both |
| `Schedule`, `Mempool`, `Limiter`, `Snapshot` | the validator rotation, the transaction pool, the rate limiter, snapshot export and import |

Conventions:

- SHA-256 is a function parameter. It is never assumed to be injective (32 bytes cannot be); each theorem that needs it
  asks only that it does not collide on the finitely many inputs hashed for the objects the theorem is about, and that
  set is spelled out in the theorem. Signatures are abstract: a vote that verifies against an honest address is one
  whose message that engine signed, although the fields around the message may have been rewritten.
- Engine steps are the stretches of code under the engine's mutex, including the point where a commit lets go of it.
  Timeouts, message delivery, tips, leaders and seal outcomes are chosen by the adversary. Every theorem about runs
  (agreement, locks, single voting, positions, jailing) rests on the two assumptions in `Network.Permitted`: nobody signs for
  an honest engine, and no engine gives up round 2147483647. `WrapRun` shows what happens without the second.
- Go's int64 and int32 arithmetic is written out with its wrap-around. Heights and nonces (uint64) are unbounded.
- Time, randomness and map iteration order are inputs or arbitrary choices. The database is a set of tables whose
  transactions take effect as a whole; JSON is the identity.

## What turned out not to hold

Each of these is a property one would expect from the code or its comments. The model keeps the code as it is, shows a
failing input, and proves exactly when the property does hold.

- *A transfer moves its amount.* Not to oneself: the recipient is read before the sender is written, so the debit and
  the nonce are overwritten and the amount is added (`Ledger.SelfTransferMints`). The total is kept if and only if the
  two addresses differ (`Ledger.TransferConservesIffDistinct`).
- *Nonces prevent replays.* `ApplyTx` skips its check for nonce 0 and then stores 0 (`Ledger.NonceZeroReplay`), although a
  comment in internal/mempool/mempool.go:70-71 says it does not. A success raises the nonce if and only if the transaction
  is numbered and not a self-transfer (`Ledger.NonceRises`); for those, every (sender, nonce) pair succeeds at most once.
- *Only a double signer is jailed.* The signed message spells the empty hash `NIL`, so one signature fits two votes. When
  one spelling of an honest nil vote reaches an engine while the other is still on record, in either order, it jails the
  voter, the second time on the genuine vote itself (`NilRun.EitherOrderJails`). Over whole runs an honest engine is
  jailed if and only if this happens (`Jailing.EverJailedIff`, step by step `Jailing.JailsHonestExactlyOnNil`).
- *Only blocks are decided, and all agree.* With four honest validators and no faulty one there is a run in which one
  decides `NIL` and another decides a block at the same height (`NilRun.NilBreaksAgreement`). A hash, `NIL` included, is decided
  if and only if a quorum of precommits for it was counted (`Decisions.DecidedIff`, `Decisions.StepDecidesIff`), and two
  engines disagree at a height if and only if one counted such a quorum for `NIL` and the other for a block
  (`Decisions.DisagreeIff`).
- *A lock on a precommitted block stays until the height ends.* With four honest validators and no faulty one there is a
  run in which three lock and precommit a block and one of them is later locked on `NIL`, at the same height
  (`LockRun.LockMovesToNil`). The lock of such a signer is on the block or on `NIL`, and on `NIL` if and only if an earlier section
  of the height completed a quorum of prevotes that carry it and no later one completed one for a block
  (`Decisions.LockPersistsExactly`, for any engine `Decisions.LockedOnNilIff`, step by step `Decisions.StepLocksNilIff`).
- *An engine never goes back.* A handler takes over a higher round before it looks at who is voting. One
  vote of an outsider and three time-outs take any engine to round -2147483648 (`WrapRun.OverrunReached`), and a second
  such vote then lets it sign two different prevotes for one round (`WrapRun.OverrunEquivocates`). Engines go back if and only if
  the int32 round counter runs over (`WrapRun.RunIffNeverBack`, step by step `Engine.ProgressUnlessRoundWraps`).
- *Bucket caps add up to a billion.* The check sums in int64; three caps can run once around
  (`Genesis.CapsWrapExample`). They add up if and only if the true sum fits (`Genesis.CapsAddUpIffNoWrap`).
- *A mint stays within its cap.* The test adds in int64, so a sum that wraps passes it; a mint is exact if and only if the
  sum fits (`Ledger.MintExactIffNoWrap`), which an accepted genesis with unwrapped caps guarantees.
- *A refused block leaves no trace.* The comments at internal/consensus/seal.go:82 and 169 say so, but transactions are
  committed one by one (`Blocks.PartialApplyExample`). A numbered block that passes the checks and is refused leaves the
  books alone if and only if its first transaction is the one that fails (`Blocks.RefusedBlockLeavesTrace`); without numbers
  a trace can vanish again (`Blocks.UnnumberedTraceVanishes`).
- *One leader per height.* If nobody is eligible, every node takes itself for the leader, and only then
  (`Schedule.TwoLeadersIffNobodyEligible`).
- *A snapshot import does not depend on the order of its accounts.* It does for two spellings of one address
  (`Snapshot.SpellingsRace`). It does not, forced or not, if and only if any two spellings of an address that can be the one
  to stay carry the same account (`Snapshot.OrderFreeIff`); addresses in normal form have no second spelling.
- *A snapshot import without force keeps accounts in use.* One that holds nothing but a pending unstake counts as unused
  (`Snapshot.PendingOnlyIsOverwritten`, `Snapshot.KeptWithoutForceIff`). An account under the empty address is not
  exported, and a tip of 0 is not imported (`Snapshot.RoundTripIff`, `Snapshot.TipRoundTripIff`).

## Model

| member | source | states |
|---|---|---|
| `Network.Agreement` | internal/consensus/bft.go:195-371 | In every run with fewer than a third of the members faulty, in which no round counter runs over, two decisions of honest engines on blocks of one height, in any rounds, are for the same block |
| `Network.LockedIn` | internal/consensus/bft.go:614-692 | Once a quorum precommitted a block, no other block has a prevote quorum in that round or a later one of the height |
| `Network.LockPersists` | internal/consensus/bft.go:658-692 | Every honest signer of such a precommit stays locked at that round or a later one until it leaves the height, and on no other block; the literal NIL is the exception the next row settles |
| `Decisions.LockPersistsExactly` | internal/consensus/bft.go:658-692 | Its lock is on that block or on NIL, and on NIL if and only if an earlier section of the height completed a prevote quorum for NIL and no later one completed one for a block |
| `Decisions.LockedOnNilIff` | internal/consensus/bft.go:673-683 | In every run any engine is locked on NIL if and only if that is so |
| `Decisions.StepLocksNilIff` | internal/consensus/bft.go:668-692 | A section takes a lock on NIL if and only if it completes a quorum of counted prevotes that carry it |
| `LockRun.LockMovesToNil` | internal/consensus/bft.go:614-692 | For any four validators, all honest, there is a run after which a quorum has precommitted a block and one of its signers, still at the height, is locked on NIL |
| `Network.NoEquivocation` | internal/consensus/bft.go:919-934 | Over a whole run, in which no round counter runs over, an honest engine signs at most one prevote and one precommit per (height, round) |
| `Network.PositionsAdvance` | internal/consensus/bft.go:214-229 | From any state of a run to any later one, no engine's (height, round, step) decreases |
| `Network.RunKeepsInv` | internal/consensus/bft.go:373-421 | The nine-part network invariant holds in every state of every run |
| `Network.NextKeepsInv` | internal/consensus/bft.go:273-371 | Any permitted critical section of any engine keeps the network invariant |
| `Network.TallyIsQuorum` | internal/consensus/bft.go:737-754 | A quorum counted in one engine's map is a quorum of members that are faulty or really signed that vote |
| `CleanRuns.JailingIsSound` | internal/consensus/bft.go:329-346 | In a run without the literal NIL among delivered votes, no engine ever jails an honest one |
| `Jailing.JailsHonestExactlyOnNil` | internal/consensus/bft.go:329-346 | In every state of every run, an authentic vote gets its honest, not yet jailed voter jailed if and only if a vote for its place is on record and exactly one of the two carries the literal NIL |
| `Jailing.EverJailedIff` | internal/consensus/bft.go:329-346 | Over a whole run one engine jails an honest one if and only if it is delivered that engine's nil vote in one spelling while the other is still on record |
| `Jailing.RunKeepsRecords` | internal/consensus/bft.go:329-346 | In every run each double-sign record about an honest voter has the message of a vote that voter signed |
| `Decisions.StepDecidesIff` | internal/consensus/bft.go:737-764 | A section decides a hash if and only if it completes a quorum of counted precommits for it |
| `Decisions.DecidedIff` | internal/consensus/bft.go:727-764 | In every run an engine has decided a hash at a height, NIL included, if and only if it counted such a quorum at an earlier point of that height |
| `Decisions.DisagreeIff` | internal/consensus/bft.go:727-764 | In every run two engines have decided differently at a height if and only if one counted a precommit quorum for NIL there and the other counted one for a block |
| `NilRun.NilBreaksAgreement` | internal/consensus/vote.go:64-69 | For any four validators, all honest, there is a run from the start in which one decides NIL and another decides a block at the same height |
| `NilRun.EitherOrderJails` | internal/consensus/vote.go:64-69 | For any four validators, all honest, and either order of the two spellings of a nil precommit, there is a run after which the second spelling gets its honest voter jailed |
| `CleanRuns.FullAgreement` | internal/consensus/bft.go:727-764 | In such a run any two decisions at one height are equal, without exception for odd hashes |
| `CleanRuns.FullLockPersistence` | internal/consensus/bft.go:849-863 | In such a run the lock of every honest precommitter is exactly the precommitted block until the height ends |
| `Engine.ProgressUnlessRoundWraps` | internal/consensus/bft.go:716-724 | A section moves (height, round, step) forward or nowhere if and only if it does not give up round 2147483647 |
| `WrapRun.RunIffNeverBack` | internal/consensus/bft.go:716-724 | Of all interleavings of authentic deliveries and time-outs, those without a round counter running over are exactly those in which no engine ever goes back |
| `WrapRun.OverrunReached` | internal/consensus/bft.go:291-300 | For any four validators, all honest, one vote of an outsider and three time-outs take an engine to round -2147483648 |
| `WrapRun.OverrunEquivocates` | internal/consensus/bft.go:291-300 | After a second such vote the engine signs two different prevotes for one (height, round) |
| `Engine.AtMostOneQuorum` | internal/consensus/bft.go:669-686 | When a quorum is more than half of the tally, at most one hash reaches it |
| `EngineSafety.QuorumHashUnique` | internal/consensus/bft.go:658-686 | In a reachable tally the hash with a quorum is unique, so it does not matter in which order hashes are examined |
| `EngineSafety.StepKeepsOk` | internal/consensus/bft.go:195-371 | Every section keeps: one vote per registered voter, of the right type and the current (height, round), and a lock older than the round until precommit |
| `EngineSafety.StepVotes` | internal/consensus/bft.go:614-626 | A signed vote lies strictly after the engine's position; a block precommit locks that block on a prevote quorum; a locked engine prevotes only its lock |
| `EngineSafety.StepCounts` | internal/consensus/bft.go:348-370 | Nothing is counted that was not counted, delivered or signed; a decision rests on a quorum of counted precommits for its hash |
| `EngineSafety.StepRecords` | internal/consensus/bft.go:329-346 | A double-sign record is an old one or the delivered vote; only a registered voter contradicting its record is jailed |
| `EngineRuns.FirstVoteCounts` | internal/consensus/bft.go:348-370 | In every run the vote an engine counts for another voter at a place is the first acceptable one delivered for it, whatever is delivered later, as long as the engine stays there |
| `EngineRules.CountedStays` | internal/consensus/bft.go:348-370 | While an engine stays at its height and round, no section removes or replaces a counted vote of another voter, except that beginning to propose empties the tallies |
| `EngineRules.DeliveryKeeps` | internal/consensus/bft.go:350-363 | A delivered vote leaves every counted entry as it was, the own one included unless the engine signs |
| `EngineRules.FirstIsCounted` | internal/consensus/bft.go:348-370 | The first acceptable vote of a registered voter for the place is in the tally afterwards |
| `EngineRules.VoteRefused` | internal/consensus/bft.go:273-303 | A vote with a bad signature, of a jailed voter or for another height changes nothing |
| `EngineRules.OutsiderVote` | internal/consensus/bft.go:291-323 | A vote of an outsider changes nothing but, from a higher round, the round |
| `EngineRules.VoteAhead` | internal/consensus/bft.go:291-370 | A registered vote from a higher round moves the engine there and is the first counted one |
| `EngineRules.VoteNotCounted` | internal/consensus/bft.go:329-363 | A vote from a lower round, or of a voter counted already, is noted for double-sign detection and not counted |
| `EngineRules.NothingFound` | internal/consensus/bft.go:348-370 | A vote that completes no quorum is counted, and nothing else happens |
| `EngineRules.PrevoteQuorum` | internal/consensus/bft.go:658-692 | With a prevote quorum the engine locks on its hash and round unless it is nil, goes on to precommit, and precommits that hash |
| `EngineRules.NilPrecommitQuorum` | internal/consensus/bft.go:755-763 | With a precommit quorum for nil it goes to the next round with nothing proposed or counted, and keeps its lock |
| `EngineRules.BlockPrecommitQuorum` | internal/consensus/bft.go:742-753 | With one for a hash it decides that hash at its height and round on exactly the counted precommits for it, and waits in the commit step or starts the next height |
| `EngineRules.HeightRule` | internal/consensus/bft.go:766-863 | A section moves the height by one at most, to round 0 of the next with nothing proposed, counted or locked; it does so if and only if it decides without a sealed matching proposal or ends a pacing gap; a decision with one stays in the commit step with one more gap |
| `EngineRules.AcceptedIff` | internal/consensus/bft.go:195-261 | A delivered proposal becomes the engine's if and only if its signature holds, its height is the engine's and the tip's plus one, its round is not older, the engine is not past proposing, the leader matches up to case, the previous hash is the tip's or GENESIS, and the hash is the recomputed one |
| `EngineRules.ProposalRule` | internal/consensus/bft.go:195-270 | An accepted proposal is installed and, in the propose step, prevoted, or the lock instead of it; any other leaves no trace but a higher round |
| `EngineRuns.PrevotesProposals` | internal/consensus/bft.go:614-626 | In every run a non-nil prevote of an unlocked engine is for a proposal it built or one that met every condition when it was delivered |
| `EngineRules.ProposeTimeoutRule` | internal/consensus/bft.go:614-626 | What is prevoted: the lock if there is one, else the proposal, and nil without a proposal |
| `EngineRules.PrevoteTimeoutRule` | internal/consensus/bft.go:649-655 | An engine still prevoting goes on and precommits nil; any other is left alone |
| `EngineRules.PrecommitTimeoutRule` | internal/consensus/bft.go:714-724 | An engine still precommitting goes to the next round, as int32 counts, with nothing proposed or counted; any other is left alone |
| `EngineRules.BeginProposeRule` | internal/consensus/bft.go:475-498 | Before prevoting a new attempt clears proposal and tallies; later nothing happens |
| `EngineRules.InstallProposalRule` | internal/consensus/bft.go:563-597 | The own proposal carries its arguments, the own address and the hash of its fields, and nothing else changes |
| `EngineRules.FinishCommitRule` | internal/consensus/bft.go:837-863 | The end of a pacing gap starts the next height, unlocked and empty, whatever the engine did meanwhile |
| `EngineRules.SignedIsCounted` | internal/consensus/bft.go:919-947 | The own vote a section signs is in the own tally afterwards |
| `EngineRules.QuorumIs` | internal/consensus/bft.go:658-666 | What counts as a quorum: more than two thirds of the set, and one vote for a set of one or none |
| `EngineClass.CountVotes` | internal/consensus/bft.go:668-672 | The counts by hash are the tallies, in whatever order the map is walked |
| `EngineClass.ScanPrevotes` | internal/consensus/bft.go:668-692 | The scan finds the quorum hash regardless of order, and the trailing look at nil never finds anything |
| `EngineClass.ScanPrecommits` | internal/consensus/bft.go:737-763 | The scan finds the block with a quorum or reports a nil quorum, regardless of order |
| `EngineClass.BFTEngine.HandleProposal` | internal/consensus/bft.go:195-270 | The handler changes the fields and signs exactly as its section says (`EngineRules.ProposalRule`), and keeps the engine's invariant |
| `EngineClass.BFTEngine.ValidateProposal` | internal/consensus/bft.go:949-976 | Height, previous hash and recomputed hash are checked against the tip, as `EngineRules.AcceptedIff` spells out |
| `EngineClass.BFTEngine.HandleVote` | internal/consensus/bft.go:273-371 | The fields, the signed vote and the decision are those of the section, which `EngineRules` spells out case by case; the invariant is kept unless the round counter runs over |
| `EngineClass.BFTEngine.IsKnown` | internal/consensus/bft.go:305-323 | The loop over the roster decides membership case-insensitively |
| `EngineClass.BFTEngine.CheckDoubleSign` | internal/consensus/bft.go:329-346 | The record is replaced, and the voter jailed when its hash for the same place differs |
| `EngineClass.BFTEngine.TryFinalizePrevotes` | internal/consensus/bft.go:658-692 | The whole new state, lock, step and signed precommit, is that of the section |
| `EngineClass.BFTEngine.TryFinalizePrecommits` | internal/consensus/bft.go:727-764 | The whole new state and the certified decision are those of the section (`EngineRules.NilPrecommitQuorum`, `BlockPrecommitQuorum`) |
| `EngineClass.BFTEngine.CommitLocked` | internal/consensus/bft.go:766-863 | A commit records its certificate and either waits in the gap with the mutex released or advances the height by one (`EngineRules.HeightRule`) |
| `EngineClass.BFTEngine.FinishCommit` | internal/consensus/bft.go:837-863 | After the gap the height advances by one and the lock is cleared, whatever happened meanwhile |
| `EngineClass.BFTEngine.BeginPropose` | internal/consensus/bft.go:475-498 | A new attempt at a round clears proposal and tallies only before prevoting |
| `EngineClass.BFTEngine.InstallProposal` | internal/consensus/bft.go:563-597 | The own proposal is installed over whatever the state has become meanwhile |
| `EngineClass.BFTEngine.ProposeTimeout` | internal/consensus/bft.go:530-534 | Prevoting starts after the wait only if still proposing |
| `EngineClass.BFTEngine.PrevoteTimeout` | internal/consensus/bft.go:650-655 | Nil is precommitted after the wait only if still prevoting |
| `EngineClass.BFTEngine.PrecommitTimeout` | internal/consensus/bft.go:714-724 | The round advances after the wait only if still precommitting |
| `Votes.MessageInjective` | internal/consensus/vote.go:64-69 | The signed message determines type, height, round and the hash up to the spelling of nil |
| `Votes.MessageDeterminesHash` | internal/consensus/vote.go:64-69 | Two votes with one message have one hash if and only if both or neither is the literal NIL |
| `Votes.QuorumBounds` | internal/consensus/vote.go:151-160 | The quorum is the least number above two thirds, attainable, and two quorums overlap in more than the faulty |
| `Formats.VoteText` | internal/consensus/vote.go:64-69 | The signed text is the tag, type, height, round and hash or NIL, joined by bars |
| `Formats.BlockText` | internal/consensus/seal.go:37-41 | The hashed text of a block is height, previous hash, Merkle root, time and proposer, joined by bars |
| `Formats.ListText` | internal/consensus/seal.go:23-33 | The text hashed for a list is its hashes run together in order, or a tag for none |
| `Formats.DecimalValue` | internal/consensus/seal.go:37-41 | Numbers are written in decimal, without leading zeros, with a minus sign if negative |
| `Formats.HexDigits` | internal/state/merkle.go:41-43 | A byte is written as two lower-case hexadecimal digits, high half first |
| `Formats.ReadsAs` | internal/state/merkle.go:45-55 | A text is read as a hash if and only if it is the hash's 64 digits in either case, with or without the prefix |
| `Formats.NormIs` | internal/state/state.go:134-136 | A normalised address is its longest middle part without space at either end, in lower case |
| `Formats.LessIff` | internal/state/merkle.go:109 | Strings are ordered by the first place where they differ, a proper prefix first |
| `Merkle.RootCommits` | internal/state/merkle.go:115-142 | Two account lists of any sizes with equal roots are equal unless SHA-256 collides on what was hashed, although odd nodes are duplicated |
| `Merkle.StateRootCommits` | internal/state/merkle.go:82-157 | Two account tables with equal state roots are equal under the same proviso |
| `Merkle.RepeatedLeafKeepsRoot` | internal/state/merkle.go:125-140 | Why the distinct addresses of a store are needed: the list a, b, c has the root of a, b, c, c |
| `Merkle.EncodeInjective` | internal/state/merkle.go:58-72 | Leaf, node and empty inputs are never encoded alike, whatever characters an address holds |
| `Formats.LeafText` | internal/state/merkle.go:58-63 | What a leaf is the hash of: the prefix, the normalised address, balance, stake, pending amount and nonce |
| `Formats.NodeText` | internal/state/merkle.go:65-72 | What an inner node is the hash of: its prefix and its two children, left one first; and the tag of the empty tree |
| `Formats.SmallTrees` | internal/state/merkle.go:115-142 | The root over no, one, two and three accounts, spelled out over SHA-256: left child first, an odd last node paired with itself |
| `Formats.LeavesInOrder` | internal/state/merkle.go:82-111 | The leaves of a table are its entries, each once, in the order of their addresses |
| `Merkle.PairUp` | internal/state/merkle.go:125-140 | Two layers without repetition and with equal parents are equal, also when their lengths differ in parity |
| `Merkle.Descend` | internal/state/merkle.go:115-142 | Layers at one distance from a common root are equal in trees of different depths |
| `MerkleProofs.ProofSoundness` | internal/state/merkle.go:274-316 | A proof accepted against the root of a state, of any length and shape, is about an account of the state with exactly those fields; none is accepted against the empty state |
| `MerkleProofs.NoTwoAccounts` | internal/state/merkle.go:274-316 | Two accepted proofs about one address against one root show the same account |
| `MerkleProofs.ProofCompleteness` | internal/state/merkle.go:241-258 | For every non-empty list and every leaf the sibling path is accepted |
| `MerkleProofs.VerifyMerkleProof` | internal/state/merkle.go:274-316 | The verifier loop accepts if and only if every hop decodes and the walk from the account's leaf ends in the root |
| `Formats.AcceptedIff` | internal/state/merkle.go:274-316 | A proof is accepted if and only if it claims inclusion, its leaf hash is the account's, and there is a chain of digests from the leaf, each sibling hashed in on its side, that ends in its root |
| `Formats.SmallPaths` | internal/state/merkle.go:241-258 | The sibling path of each leaf of a tree of three, sides included |
| `MerkleProofs.FoldPath` | internal/state/merkle.go:290-307 | The fold reaches the walk's end, or stops at the first hop that does not decode |
| `MerkleProofs.BuildMerkleLayers` | internal/state/merkle.go:115-142 | The loop ends and builds exactly the layers, the empty list included |
| `MerkleProofs.BuildPath` | internal/state/merkle.go:241-258 | The path read off the layers is the sibling path, one hop per layer but the last |
| `MerkleProofs.ProveAccount` | internal/state/merkle.go:175-271 | A present account gets an accepted proof of the tree's depth, an absent one is marked so |
| `MerkleProofs.ProveThenVerify` | internal/state/merkle.go:175-316 | What the prover returns is accepted if and only if the account is in the state |
| `Text.HashHexRoundTrip` | internal/state/merkle.go:41-55 | What `hashHex` prints, `decodeHex32` reads back |
| `Ledger.ApplyConserves` | internal/state/state.go:264-342 | A validated transaction that is no self-transfer keeps all fields non-negative, minted within cap, everything within int64, and changes the total only by a million subunits per EAST minted |
| `Ledger.RunConserves` | internal/state/state.go:264-342 | The same along any run, refused transactions included |
| `Ledger.DivisionTestIsExact` | internal/state/state.go:328-332 | The division test refuses exactly the products that do not fit an int64 |
| `Ledger.MintExactIffNoWrap` | internal/state/state.go:201-222 | A mint of any bucket succeeds exactly when the sum is within the cap or wraps; it is exact and within the cap if and only if the sum fits an int64 |
| `Ledger.SelfTransferMints` | internal/state/state.go:279-292 | A self-transfer that goes through changes the total, by its amount unless the credit wraps, and leaves the nonce |
| `Ledger.TransferConservesIffDistinct` | internal/state/state.go:279-292 | A transfer keeps the total if and only if its addresses differ |
| `Ledger.NonceRises` | internal/state/state.go:269-336 | A success raises the sender's nonce if and only if it is numbered and no self-transfer, and no other account's nonce changes |
| `Ledger.ExactlyOnce` | internal/state/state.go:269-275 | In a run of numbered transactions without self-transfers, successes of one sender carry increasing nonces, so none repeats |
| `Ledger.NonceZeroReplay` | internal/state/state.go:274-276 | With nonce 0 the check is skipped, the stored nonce falls to 0, and an old transaction goes through again |
| `LedgerRules.ValidIff` | internal/tx/tx.go:112-180 | Validation accepts a transaction if and only if each of its conditions holds, type by type |
| `LedgerRules.RefusedIff` | internal/state/state.go:264-342 | Applying refuses a transaction if and only if its nonce is positive and not above the sender's, the sender has too little of what the type takes, a claim cannot be minted, or the type is unknown |
| `LedgerRules.TransferRule` | internal/state/state.go:278-292 | The accounts after a transfer, field by field, self-transfers included |
| `LedgerRules.StakingRule` | internal/state/state.go:294-319 | The account after staking, requesting and claiming an unstake, field by field, and no other change |
| `LedgerRules.ClaimRule` | internal/state/state.go:321-336 | After a mining claim the bucket has minted the amount and the account got a million subunits for each |
| `LedgerRules.BucketLeftIs` | internal/state/state.go:233-243 | A bucket has its cap less what is minted left, and never less than nothing |
| `Genesis.Validate` | internal/genesis/genesis.go:74-109 | Validation accepts exactly the genesis described, with the cap sum as int64 arithmetic has it, and fills in its defaults |
| `Genesis.CapsAddUpIffNoWrap` | internal/genesis/genesis.go:81-96 | Accepted caps add up to a billion if and only if their true sum fits an int64 |
| `Genesis.CapsWrapExample` | internal/genesis/genesis.go:81-96 | Three caps that run around the int64 range are accepted |
| `Genesis.InitGenesis` | internal/state/state.go:86-99 | The accounts are exactly the normalised seed addresses, each with balance and stake of its last seed and nothing pending; the buckets are those named, each with cap and minted amount of its last entry |
| `Genesis.FirstBooksHold` | internal/state/state.go:84-98 | The specified tables have these properties |
| `Genesis.HoldsLastUnique` | internal/state/state.go:84-98 | And no other tables have them |
| `Genesis.SupplyFromGenesis` | internal/state/state.go:70-127 | From an accepted genesis with room for the billion, at every point of every run the accounts hold the seeds plus what was minted, at most a billion EAST of it |
| `BlockHash.BlockPayloadInjective` | internal/consensus/seal.go:35-41 | The hashed block text determines every field as long as the two hashes in it hold no separator |
| `BlockHash.MerklePayloadInjective` | internal/consensus/seal.go:23-33 | The text hashed for the transaction list determines the list |
| `Chain.RunKeepsChain` | internal/state/state.go:344-355 | Any run of sealing, importing and pruning keeps the retained blocks contiguous up to the tip, linked, and hashed over their own fields |
| `Chain.AppendKeepsChain` | internal/state/state.go:344-355 | Saving a block that fits on the tip keeps the chain well-formed |
| `Chain.PruneKeepsNewest` | internal/state/state.go:476-503 | Pruning keeps exactly the newest keep + 1 blocks, or all when there are fewer |
| `Chain.TipExists` | internal/state/state.go:375-389 | The tip block is there whenever anything was sealed |
| `Chain.ChainsAgree` | internal/consensus/seal.go:95-153 | Two stores with one tip hash have one height and agree on the hash-covered fields of every block both retain, unless SHA-256 collides on their headers |
| `Blocks.Replication` | internal/consensus/producer.go:176-239 | A follower with the leader's books and tip imports the sealed block without fail and ends with equal accounts, buckets, height and block, and the sealed state root |
| `Blocks.SealedRootFixesAccounts` | internal/consensus/producer.go:222-238 | A table has the sealed state root if and only if it is the leader's account table after sealing, unless SHA-256 collides on the two trees |
| `Blocks.SealConserves` | internal/consensus/producer.go:196-207 | Sealing a block keeps the books sound and conserves the supply |
| `Blocks.ImportConserves` | internal/consensus/seal.go:95-188 | So does importing one, accepted, refused by the checks, or refused half way |
| `Blocks.NodeKeepsChain` | internal/consensus/seal.go:95-188 | However a node that starts without blocks seals, imports and prunes, its chain stays contiguous, linked and hashed with SHA-256 over its own fields |
| `Blocks.NodeConserves` | internal/consensus/producer.go:176-239 | However it seals, imports and prunes, its supply is the initial one plus what was minted |
| `Blocks.SealMovesChain` | internal/consensus/producer.go:177-238 | Sealing extends the chain by a fitting block or leaves it alone |
| `Blocks.ImportMovesChain` | internal/consensus/seal.go:95-188 | Importing extends the chain by a fitting block or leaves it alone |
| `BlockRules.ImportIff` | internal/consensus/seal.go:95-188 | A block is imported if and only if it passes every check, written out on block, chain and verdict, a verifying signature of a named proposer or no signature with at most one listed proposer among them, and all its transactions apply in turn |
| `BlockRules.ImportedNode` | internal/consensus/seal.go:169-187 | An imported block leaves the books after its last transaction and its header, field by field, as the tip |
| `BlockRules.RefusedNode` | internal/consensus/seal.go:95-174 | A block not imported leaves the chain alone, and moves the books only if it passed the checks, up to the transaction that was refused |
| `BlockRules.SealIff` | internal/consensus/producer.go:177-220 | A block is sealed if and only if the tip block is there or nothing was sealed yet, and signing does not fail |
| `BlockRules.SealedBooks` | internal/consensus/producer.go:196-207 | Each transaction was applied or skipped in its turn, also when signing then failed |
| `BlockRules.SealedBlock` | internal/consensus/producer.go:196-238 | The sealed block holds exactly the transactions that applied, in order, and its header is spelled out field by field |
| `BlockRules.PruneIff` | internal/state/state.go:476-503 | Pruning deletes exactly the blocks more than the given number below the tip, and nothing for a number that is not positive |
| `Blocks.RefusedBlockLeavesTrace` | internal/consensus/seal.go:169-174 | A refused block of numbered transactions that passed the checks leaves sound books as they were if and only if its first transaction failed, self-transfers included |
| `Blocks.PartialApplyExample` | internal/consensus/seal.go:169-174 | A block of a good and a bad stake is refused and leaves the good one applied |
| `Blocks.UnnumberedTraceVanishes` | internal/state/state.go:274-276 | With nonce 0, three applied transactions of a refused block can cancel out, so numbering is needed in the condition above |
| `Folds.ReplayPassed` | internal/consensus/seal.go:169-174 | Replaying strictly what a lenient pass kept never fails and ends in the same state |
| `Store.Store.ApplyTx` | internal/state/state.go:264-342 | A transaction takes effect as `LedgerRules` spells out, or nothing changes |
| `Store.Store.SealBlockWithTxs` | internal/consensus/producer.go:176-239 | Books, chain and result are those of sealing, failures included, as `BlockRules` spells them out, and the chain stays well-formed |
| `Store.Store.ImportBlock` | internal/consensus/seal.go:95-188 | Books, chain and verdict are those of importing, as `BlockRules` spells them out, and the chain stays well-formed |
| `Store.Store.PruneOldBlocks` | internal/state/state.go:476-503 | The deleting loop leaves the pruned chain, which stays well-formed |
| `Store.LoadSortedLeaves` | internal/state/merkle.go:82-111 | The leaves come out in address order, whatever order the table is walked in |
| `Store.ComputeStateRoot` | internal/state/merkle.go:145-157 | The root of the built layers is the state root of the table |
| `Schedule.RosterIgnoresSpelling` | internal/consensus/leader.go:85-97 | Lists that spell the same addresses, in any order, case or repetition, give one sorted list |
| `Schedule.RosterOfListing` | internal/state/validators.go:36-48 | Saving a list that is already canonical changes nothing |
| `Schedule.ExchangeSort` | internal/state/validators.go:49-56 | The in-place exchange sort gives the canonical listing of its elements |
| `Schedule.SaveValidatorSet` | internal/state/validators.go:35-80 | The record holds the same list as any other sort gives, under the next epoch |
| `Schedule.EligibleFacts` | internal/consensus/leader.go:53-73 | The rotation is the registered validators in good standing, in order |
| `Schedule.EachLeadsOnce` | internal/consensus/leader.go:200-218 | With a stable rotation of n, each member leads exactly once in any n consecutive heights |
| `Schedule.TwoLeadersIffNobodyEligible` | internal/consensus/leader.go:220-239 | Two nodes with different addresses both lead a height if and only if nobody is eligible |
| `Schedule.ExactlyOneLeads` | internal/consensus/leader.go:220-239 | Otherwise a node leads if and only if it is the scheduled one |
| `Schedule.LeadsIff` | internal/consensus/leader.go:200-239 | A node takes itself for the leader if and only if nobody is eligible, or it has an address and the height's entry in the rotation is that address up to case |
| `Schedule.LeaderSchedule.SetValidators` | internal/consensus/leader.go:85-111 | The roster becomes the canonical list of the addresses meant, and with a store a non-empty one is persisted under the next epoch |
| `Schedule.LeaderSchedule.AddValidator` | internal/consensus/leader.go:150-164 | The roster becomes the canonical list of itself and the address |
| `Schedule.LeaderSchedule.RemoveValidator` | internal/consensus/leader.go:167-178 | In-place removal leaves the canonical list of the others |
| `Schedule.LeaderSchedule.LoadFromStore` | internal/consensus/leader.go:114-130 | A persisted set, written in any order, comes back as the canonical list; without one nothing changes |
| `Schedule.LeaderSchedule.LeaderForHeight` | internal/consensus/leader.go:200-218 | The leader is the rotation's entry for the height |
| `Schedule.LeaderSchedule.IsLocalLeader` | internal/consensus/leader.go:220-239 | A node without address leads only when nobody is eligible; others when they are scheduled |
| `Compaction.Compact` | internal/consensus/leader.go:171-177 | Overwriting the front of the array being read is filtering it, and the rest of the array is untouched |
| `Mempool.CheckPredictsApply` | internal/mempool/mempool.go:52-104 | On sound books a transaction passes the check if and only if it is valid, small, numbered and would be applied now |
| `Mempool.FirstInFirstOut` | internal/mempool/mempool.go:107-195 | Over any run, what was handed out followed by what is queued is what was offered, in order, except what was removed by hash |
| `Mempool.Mempool.Add` | internal/mempool/mempool.go:107-131 | The queue grows by exactly a transaction that passes the check, is new and finds room; list and index stay duplicate-free, equal and bounded |
| `Mempool.Mempool.Peek` | internal/mempool/mempool.go:134-150 | The first transactions up to the limit, none or a negative limit meaning all |
| `Mempool.Mempool.Take` | internal/mempool/mempool.go:153-175 | The transactions a preceding peek shows; exactly the rest stays |
| `Mempool.Mempool.RemoveByHash` | internal/mempool/mempool.go:178-195 | In-place removal filters list and queue |
| `Mempool.DropOldest` | internal/mempool/mempool.go:214-234 | Pruning keeps that many entries, none of them older than a dropped one |
| `Mempool.Mempool.PruneSeen` | internal/mempool/mempool.go:214-234 | A cache over its size is cut to the newest three quarters of it |
| `Limiter.WindowBound` | internal/api/middleware.go:54-71 | No half-open window of the configured length holds more than max requests of one address that the limiter's own table admitted |
| `Limiter.AdmittedIff` | internal/api/middleware.go:54-71 | A request is admitted if and only if fewer than max of its address were admitted within the last window; it does not touch other addresses |
| `Limiter.AdmittedIsHistory` | internal/api/middleware.go:54-71 | What the table admits over a run is what the full history admits |
| `Limiter.DecidesByHistory` | internal/api/middleware.go:54-71 | After any events in time order a request is decided as the full history of admissions would decide it |
| `Limiter.CleanupChangesNothing` | internal/api/middleware.go:29-50 | Runs with the same requests decide alike, wherever cleanups fall |
| `Limiter.IPRateLimiter.Admit` | internal/api/middleware.go:54-71 | Decision and table are those of the sliding window |
| `Limiter.IPRateLimiter.Cleanup` | internal/api/middleware.go:34-48 | The sweep drops old instants and empty addresses, in whatever order the table is walked |
| `Snapshot.RoundTripIff` | internal/state/backup.go:45-103 | A forced import reproduces the exporter's accounts if and only if the importer has none beyond them and agrees on one under the empty address |
| `Snapshot.SnapshotRoundTrip` | internal/state/backup.go:190-252 | After a forced import, in any order, state root and accounts are the exporter's if and only if the importer's accounts fitted, and the tip is the exporter's unless that is 0 and the own one was not |
| `Snapshot.CopyState` | internal/state/backup.go:34-252 | The export and import loops together give accounts, state root, tip and validator set |
| `Snapshot.OrderFreeIff` | internal/state/backup.go:226-247 | An import, forced or not, gives one table in every order if and only if any two spellings of an address that can be the one to stay carry the same account |
| `Snapshot.AnyOrderRestores` | internal/state/backup.go:226-247 | For addresses in normal form every order of the snapshot's accounts gives the table `Restored` describes |
| `Snapshot.SpellingsRace` | internal/state/backup.go:226-247 | With two spellings of one address the last one taken wins |
| `Snapshot.UsedAccountsStay` | internal/state/backup.go:233-235 | Without force no order of any snapshot touches an account with balance, stake or nonce |
| `Snapshot.RestoreRule` | internal/state/backup.go:226-247 | What each address does: it is skipped without force when the account there has balance, stake or nonce, and else all four fields are written |
| `Snapshot.ImportedChainIs` | internal/state/backup.go:199-218 | Under each height stands the last header of the snapshot for it or what was there; the tip is the snapshot's, or that of the last header |
| `Snapshot.TipRoundTripIff` | internal/state/backup.go:206-218 | The tip comes out equal if and only if the exporter's is above 0 or the importer's is 0 |
| `Snapshot.JoinerGetsChain` | internal/state/backup.go:80-91 | Into a store without blocks, a well-formed chain with the exporter's tip block comes out, and its blocks are exactly the exporter's last ones, 500 or the given number |
| `Snapshot.KeptWithoutForceIff` | internal/state/backup.go:226-247 | Without force, in any order of any snapshot, an existing account stays if it is in use or not in the snapshot, and is replaced by a spelling that can stay if it is blank and in the snapshot |
| `Snapshot.KeptIffNormal` | internal/state/backup.go:226-247 | For a snapshot in normal form it stays if and only if it is absent from it, not blank, or the same |
| `Snapshot.PendingOnlyIsOverwritten` | internal/state/backup.go:233-235 | An account with only a pending unstake is replaced without force |
| `Snapshot.RestoreAccounts` | internal/state/backup.go:226-247 | The restore loop takes every address once, in some order, and gives the table of that order |
| `Snapshot.ExportBackup` | internal/state/backup.go:34-103 | The exported accounts, recent headers, tip and validator set |
| `Snapshot.ImportFullSnapshot` | internal/state/backup.go:190-252 | A snapshot of another network changes nothing; any other sets accounts, headers, tip and validator set |

## Left out

- Liveness of the engine, its re-alignment with the tip while blocks are imported, restarts (votes and locks live in memory only), roster changes within a height, and the solo path for a single validator; handlers that run before the engine has aligned to the tip.
- The block commit of the engine (`sealFromProposal`, internal/consensus/bft.go:1030-1072): it stores the transaction hashes it is given without comparing them with the proposal's Merkle root, so chain integrity is stated for sealing, gossip import and pruning. An engine's decision is the moment it reaches the commit step; whether sealing then succeeds is an input.
- Signing that fails now and then: an engine either has a working key or never votes.
- `validHash`, `validRound`, `pendingTxs` and commit pacing: written but never consulted by the voting rules.
- secp256k1, Keccak and EIP-191; the network layer, HTTP, JSON-RPC and metrics; the database engine, JSON and files.
- Case folding and trimming beyond ASCII; accounts stored under mixed-case keys by earlier versions.
- Transaction bodies and the transaction index written next to a block; `ValidateBasic` filling in a missing timestamp; transactions that are nil.
- Returning transactions to the mempool after a failed seal: the cache of seen hashes refuses them.
- How a store computes its hashes: the store methods take the block hash and the state root as parameters. `Chain.HashOf` and `Merkle.StateRoot` are the functions in use, and `Store.ComputeStateRoot` is the loop that computes the latter.
- Uint64 wrap-around of heights and nonces, and negative cache sizes in the mempool configuration.
- Restoring buckets and jail records from a snapshot: they are exported and never imported.
- Uptime records, configuration, sync loops and migration scripts.
- Chain.RunKeepsChain: starts from an empty store; a store filled by a snapshot is covered by `Snapshot.JoinerGetsChain`.
- Blocks.RefusedBlockLeavesTrace: asks for numbered transactions, because with nonce 0 a trace can cancel out (`Blocks.UnnumberedTraceVanishes`).
