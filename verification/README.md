# Consensus core of a UTXO blockchain, verified in Dafny

This project models the consensus core of a small UTXO blockchain written in C++ and proves what it
keeps over whole runs: the ledger state machine, the Merkle and header-hash commitments, the mempool
with its eviction, the block builder, the byte codecs and ledger file, streaming SHA-256, the
single-process simulator, and the relaying peer with its block sync.

Each operation appears twice. A function or predicate on values says what it computes, and the
program's own form of it, a class with its fields or a loop over a buffer, is proved to compute that.
The results about the protocol are lemmas on the values, so they hold of the programs. What the values
themselves compute is stated again independently: the ledger rule coin by coin, the file and the wire
format byte by byte, the Merkle root half by half, every message and every outcome of admission.

| part | files |
|---|---|
| bytes, codecs | Base, ByteIO, Cursors, Transactions, Blocks, Wire, Layout |
| hashing | Hashing, Sha256Spec, Sha256Constants, Sha256Example, Sha256, Merkle, MerkleTrees |
| ledger | Utxo, TxValidation, BlockValidation, ChainRules, LedgerRules, Chain, History |
| whole-chain results | MapSums, Supply, Traces, RunSafety, Parameters |
| mempool | FeeRate, Ranking, Pools, Eviction, PoolRules, Mempool |
| block production | Builder, BlockBuilder, Templates, GreedyPacking |
| node runs and restart | Agreement, NodeRuns, Mining, LedgerFile, Restart, ChainStore, Simulator, Scenarios |
| peers | Peers, PeerMessages, PeerRestart, PeerState, Relay |
| inputs on which expectations fail | Counterexamples |

Verify everything with `dafny verify dfyconfig.toml`.

## How the model is set up

- **Hashing.** Outside the SHA-256 files the hash is an arbitrary function from byte strings to 32
  bytes. Results that need it to bind take two explicit hypotheses over a finite set of messages: no
  two of them collide, and none hashes to zero. The set is the messages that the objects in the
  statement hash. Collision resistance is never assumed globally.
- **Integers.** 32- and 64-bit values are bounded types. Arithmetic that can wrap in the program wraps
  in the model: the byte budget of eviction, block timestamps, the SHA-256 length field, list counts
  cast to 32 bits, the height counter of sync.
- **Errors.** Every error path returns the program's error code. Messages are left out.
- **Input and output.** A file is a byte string, a channel delivers messages in order, and the answer
  of the file system is a parameter of the operations that save.

## Where the code does not do what one might expect

Each of these is modelled as the code has it, with the exact condition proved and, where it can be
written down, an input.

- Admission to the pool is not all-or-nothing on a resource-limit rejection: entries already evicted
  stay evicted. The pool is unchanged exactly when the first victim need not or may not go
  (`Eviction.RejectionUnchangedExact`, `Eviction.AdmissionExact`,
  `Counterexamples.RejectionLosesEntry`).
- A fee-total overflow in the builder skips the transaction after the working set has advanced. The
  selection disagrees with the validator exactly when some turn did that (`Builder.SelectInSyncExact`,
  `Counterexamples.OverflowDesyncs`). On a reachable chain the reward is then out of range, so the
  template is refused for that (`Builder.RichAfterOverflow`, `Templates.BuildExact`).
- Merkle roots are ambiguous: two lists share one exactly when they are equal once padded by the
  repetition of last nodes (`MerkleTrees.SameRootExact`, `Merkle.LastNodeAmbiguity`).
- Only included ids are pruned after a block, so a block from elsewhere can strand pool entries,
  exactly those with an input the body spends (`Agreement.SurvivorExact`,
  `Counterexamples.EntryStranded`). A peer that saved such a pool cannot be restored from its own file
  (`PeerRestart.PeerRestartExact`).
- A restored peer replays under the parameters in its file but saves under the configured ones. If a
  block does not meet those, the next restore fails (`PeerRestart.PeerRestartExact`,
  `Counterexamples.SubsidyLowered`).
- A template is checked under the configured parameters, which need not be those of the chain, so a
  peer can build a block that its own chain refuses (`Templates.BuiltExact`,
  `Counterexamples.TemplateRefused`).
- Sync compares heights only. The tip hash in the handshake is not looked at, so a client on another
  chain of the server's height reports success without a request (`Relay.SyncExact`,
  `Counterexamples.ForkReportsSync`).
- A sane block of exactly 2^20 bytes cannot be relayed, since its length prefix counts against the
  same 2^20-byte payload limit: the server fails to send it. A gap above 64 blocks cannot be synced in
  one session, and a server at the last representable height cannot be synced from at all
  (`Relay.FitsExact`, `Counterexamples.SaneBlockTooLargeToSend`, `Relay.SyncExact`,
  `Relay.ServerOutcome`).
- A sync of exactly 64 blocks succeeds for the client while the server reports an exceeded limit
  (`Relay.ServerOutcome`).
- Consensus recognises a coinbase by its index sentinel only. The height inside it is a convention of
  the producer, and without it an id can be connected twice and a spent coin come back, exactly when
  two coinbases share an id
  (`RunSafety.NoRecreation`, `Counterexamples.IdRecreated`).

## Model

| member | source | states |
|---|---|---|
| `History.TipDeterminesHistory` | src/consensus/chain.cpp:12-82 | Two replayable block lists whose tip headers hash alike are the same list, and under the same parameters end in the same state, given no collision and no preimage of the zero hash among the messages the two histories hash |
| `History.HeaderHashDeterminesBlock` | src/protocol/block.cpp:12-61 | A header hash determines a sane block, transactions included |
| `History.SaneIsCommittable` | src/validation/block_validation.cpp:26-55 | Block sanity is enough for Merkle binding: distinct ids, and encodings that are not 64 bytes long |
| `Merkle.MerkleBinding` | src/protocol/block.cpp:102-130 | Two sane transaction lists with the same root are equal, under the collision hypothesis |
| `MerkleTrees.SameRootExact` | src/protocol/block.cpp:102-130 | For any two transaction lists, given no collision and no preimage of zero among the messages hashed: the roots are equal if and only if the id lists, padded by repeating the last block at each odd level, are equal |
| `MerkleTrees.TreesExact` | src/protocol/block.cpp:113-127 | Two lists build the same hash-free tree if and only if they pad to the same list |
| `MerkleTrees.DigestInjective` | src/protocol/block.cpp:119-125 | The digest of such a tree over hashed leaves determines the tree |
| `MerkleTrees.RootIsTreeDigest` | src/protocol/block.cpp:113-129 | The root is the digest of the tree |
| `MerkleTrees.RootSplits` | src/protocol/block.cpp:113-129 | The root of any list of more than one id is the double hash of two roots side by side: that of the ids before the largest power of two below their number, then that of the rest of the padded list |
| `MerkleTrees.RootHalves` | src/protocol/block.cpp:113-129 | The root of a power of two of ids is the double hash of the roots of its halves, left then right |
| `MerkleTrees.SmallRoots` | src/protocol/block.cpp:113-129 | One id is its own root, two are hashed in order, and of three the last is repeated |
| `MerkleTrees.PaddedExact` | src/protocol/block.cpp:114-116 | A list whose length is a power of two needs no padding |
| `MerkleTrees.PaddedExtends` | src/protocol/block.cpp:114-116 | Padding only adds at the end of the list |
| `MerkleTrees.NeverInnerLength` | src/protocol/transaction.cpp:12-28 | No transaction encoding, sane or not, has the 64 bytes of an inner node |
| `Merkle.LastNodeAmbiguity` | src/protocol/block.cpp:113-127 | One family of lists that pad alike, whatever the hash: repeating the last transaction of any odd list of more than one leaves the root as it was |
| `Merkle.SameRoot` | src/protocol/block.cpp:113-129 | Distinct leaf lists with one root are equal, or one is an inner level above the other |
| `Merkle.LeavesNotAbove` | src/protocol/block.cpp:102-130 | Ids of transactions are never an inner level over other ids, because no encoding has 64 bytes |
| `Merkle.UpDistinct` | src/protocol/block.cpp:114-126 | A level of distinct hashes has distinct parents |
| `Merkle.UpInjective` | src/protocol/block.cpp:114-126 | Two levels of distinct hashes with the same parents are equal, so duplication of an odd last node is harmless there |
| `Merkle.ComputeMerkleRoot` | src/protocol/block.cpp:102-130 | The level-by-level loop computes the recursive root, which `MerkleTrees.RootSplits` describes without it; the root of no transactions is zero |
| `Merkle.NextLevel` | src/protocol/block.cpp:114-126 | One pass pairs and hashes a level, duplicating the last node of an odd level |
| `Supply.TxConserves` | src/validation/block_validation.cpp:95-123 | Value in the unspent set plus the fee is unchanged by a transaction |
| `Supply.BodyConserves` | src/validation/block_validation.cpp:95-123 | The same for a whole block body and its accumulated fees |
| `Supply.BlockConserves` | src/validation/block_validation.cpp:81-148 | Each block: supply after plus fees equals supply before plus coinbase payout, and the payout is at most subsidy plus fees |
| `Supply.ChainConserves` | src/validation/block_validation.cpp:81-148 | Over every chain: supply plus all fees equals all payouts |
| `Supply.SupplyBound` | src/validation/block_validation.cpp:81-148 | Every reachable chain holds at most (height + 1) times the subsidy |
| `LedgerRules.BlockComplete` | src/validation/block_validation.cpp:81-148 | The block transition is complete for a rule stated coin by coin: if every transaction in turn finds its inputs, mature and worth its outputs and fee, overwrites nothing and leaves exactly the coins it should, and the coinbase claims at most subsidy plus fees, the block has that effect |
| `LedgerRules.BlockSound` | src/validation/block_validation.cpp:81-148 | And sound for it: a block that has an effect meets the rule, with that effect |
| `LedgerRules.TxExact` | src/validation/block_validation.cpp:95-122 | A sane transaction has an effect if and only if its inputs exist, its coinbase inputs are mature, its inputs are worth its outputs plus the fee, and no output overwrites a coin; the coins after are the coins before, without the inputs, with the outputs |
| `LedgerRules.BodyComplete` | src/validation/block_validation.cpp:93-123 | The same for a list of transactions, from the rule |
| `LedgerRules.BodySound` | src/validation/block_validation.cpp:93-123 | And back to it |
| `LedgerRules.CoinbaseExact` | src/validation/block_validation.cpp:125-144 | The coinbase has an effect if and only if it claims at most subsidy plus fees and overwrites nothing; its outputs become coinbase coins |
| `LedgerRules.CreateExact` | src/consensus/chain.cpp:37-56 | A block starts a chain if and only if its version, height zero and zero parent are right and it has an effect on no coins, which is the chain's |
| `LedgerRules.VersionError` | src/consensus/chain.cpp:12-56 | The unsupported-version error is given exactly for a wrong version |
| `LedgerRules.SanityError` | src/validation/block_validation.cpp:26-55 | A block within the limits and with the right root draws the error of its first bad transaction: an invalid transaction if that is not sane, an invalid block otherwise |
| `Traces.ChainRuns` | src/validation/block_validation.cpp:81-148 | The unspent set of a chain is what its transactions reach one by one, the coinbase of each block last |
| `Traces.Provenance` | src/validation/block_validation.cpp:61-77 | Every unspent coin was created by a transaction of the history, with that output, height and coinbase flag |
| `Traces.EventsOrdered` | src/consensus/chain.cpp:12-33 | Heights never decrease along the transactions of a chain, and a block puts its coinbase after its body |
| `RunSafety.LiveCoins` | src/validation/transaction_validation.cpp:55-81 | Every live coin has height at most the tip, index below 4096, and value within the money range |
| `RunSafety.SpendsMatureCoins` | src/validation/transaction_validation.cpp:111-127 | Every spend in every reachable chain consumes a coin created earlier; a coinbase coin made at H is spent at max(H + 1, H + maturity) or later |
| `RunSafety.DistinctIdsExact` | src/validation/block_validation.cpp:61-148 | For every run of transactions, given no collision, three things are the same: ids are pairwise distinct, those of the coinbases are, and nothing spent is ever unspent again |
| `RunSafety.NoRecreation` | src/validation/block_validation.cpp:61-148 | In every reachable chain, given no collision among its transactions: no id is connected twice if and only if no two coinbases share one, and if and only if no spent outpoint ever reappears |
| `RunSafety.RemintBringsBack` | src/validation/block_validation.cpp:61-77 | Without any hypothesis on the hash: a second coinbase with the id of an earlier one brings back an output that was spent in between |
| `RunSafety.TaggedAreDistinct` | src/protocol/transaction.cpp:103-122 | Coinbases that carry their heights meet that condition |
| `RunSafety.LiveCoinsInRange` | src/validation/transaction_validation.cpp:55-81 | Every coin of a reachable chain is in the money range |
| `Builder.SelectStepExact` | src/production/block_builder.cpp:80-112 | A turn of the selection loop keeps the working set and fees equal to what the validator computes if and only if it does not take the fee-overflow skip |
| `Builder.SelectInSyncExact` | src/production/block_builder.cpp:76-112 | After the whole loop, for every pool, unspent set and budget: working set and fee total equal what the validator computes if and only if no turn took the fee-overflow skip |
| `Builder.NoOverflow` | src/production/block_builder.cpp:104-107 | An unspent set of at most 2^64 - 1 in value never overflows |
| `Builder.OverflowIsLate` | src/production/block_builder.cpp:104-107 | With every coin in the money range, a turn that overflows comes when the fees are past it already |
| `Builder.RichAfterOverflow` | src/production/block_builder.cpp:76-112 | Then, once a turn has overflowed, the fees of the selection stay past the money range |
| `Builder.SelectInSync` | src/production/block_builder.cpp:76-112 | So a selection of coins in the money range, with fees in the money range, is always in step with the validator |
| `Builder.SelectAccounted` | src/production/block_builder.cpp:71-111 | The running size is 176 plus the selected encodings and stays in the budgets; every selected transaction comes from the ranking |
| `GreedyPacking.SelectionIsGreedy` | src/production/block_builder.cpp:76-112 | For a pool that agrees with the chain and would create no outpoint that exists, the loop with its simulated ledger selects exactly what a greedy packing by count, size and maturity down the fee-rate order selects if and only if the packed fees fit 64 bits, and then with the recorded fees |
| `GreedyPacking.FittingPoolIsSelected` | src/production/block_builder.cpp:80-112 | A mature pool that fits the budgets goes into the template whole, in fee-rate order, if and only if its fees fit 64 bits |
| `GreedyPacking.PackedStep` | src/production/block_builder.cpp:80-112 | One turn of the loop is one turn of the packing, or an overflow |
| `GreedyPacking.EffectIsLocal` | src/production/block_builder.cpp:89-102 | Against a working set with the same inputs and none of the outputs, a transaction applies exactly when it is mature |
| `GreedyPacking.ExcessIsNotSelected` | src/production/block_builder.cpp:104-107 | A packing whose fees do not fit overflows the loop and is not what it selects |
| `Templates.BuildExact` | src/production/block_builder.cpp:114-136 | Over any unspent set of coins in the money range, which every reachable chain has: a template is produced if and only if there is a next height, the reward is in the money range, the coinbase is new and the block is within the consensus size; it then holds exactly the selection |
| `Templates.AssembledSanity` | src/production/block_builder.cpp:114-128 | The assembled block is sane if and only if the reward is in range, the coinbase id is not selected and the size is within the consensus limit |
| `Templates.AssembledEffect` | src/production/block_builder.cpp:123-129 | The self-check ends in the working set plus the coinbase, with the fees of the selection |
| `Templates.AssembledSize` | src/production/block_builder.cpp:69-74 | A template encodes to 176 bytes plus its selected transactions |
| `Templates.BuiltIsAccepted` | src/consensus/chain.cpp:58-82 | A template for a chain's tip, parameters and unspent set is accepted by it, with the template's fees |
| `Templates.BuiltBlock` | src/production/block_builder.cpp:114-136 | What a produced block holds: a header on the tip with the root of its transactions, a coinbase tagged with the height that pays subsidy and fees to the recipient, and the selection |
| `Templates.BuiltExact` | src/consensus/chain.cpp:58-82 | Whatever the chain's parameters, a template is accepted if and only if its version and timestamp fit and it meets the maturity and coinbase cap the chain sets; then with the template's fees |
| `Templates.CoinbaseSane` | src/protocol/transaction.cpp:103-122 | A made coinbase is sane if and only if its value is in the money range |
| `Eviction.AdmissionExact` | src/mempool/mempool.cpp:92-137 | Before the call: admission succeeds if and only if the transaction is admissible, new, free of conflicts, within the byte limit, and fits beside some top of the ranking below which every entry has a strictly lower rate; and it loses entries for nothing if and only if only the room is missing and the lowest entry can be evicted |
| `Eviction.AcceptExact` | src/mempool/mempool.cpp:92-137 | A successful admission leaves the new entry and the longest prefix of the fee-rate order that fits both limits beside it; every dropped entry had a strictly lower rate |
| `Eviction.AcceptEntries` | src/mempool/mempool.cpp:92-137 | Entry by entry: a successful admission adds the incoming entry and nothing else, changes none, and loses only entries of strictly lower rate |
| `PoolRules.AcceptOutcomes` | src/mempool/mempool.cpp:92-137 | Every outcome of admission and exactly when it occurs: invalid, below the minimum rate, over the limits, or accepted |
| `PoolRules.AdmissionRule` | src/mempool/policy.cpp:36-79 | A transaction is admissible if and only if it is sane, no coinbase, funded, and pays at least the minimum rate for every byte; which check fails decides the error |
| `PoolRules.ConflictsExact` | src/mempool/mempool.cpp:104-109 | The index of spent outpoints finds a conflict exactly when some entry shares an input |
| `PoolRules.FeeExact` | src/validation/transaction_validation.cpp:83-109 | The fee of a sane transaction is what its inputs hold beyond its outputs, and exists exactly when they are there, fit 64 bits, and cover the outputs |
| `PoolRules.SaneExact` | src/validation/transaction_validation.cpp:29-81 | Sanity in numbers: 1 to 4096 distinct inputs and as many outputs, the null index only on a lone input, at most 21 million coins, and 16 + 36 inputs + 40 outputs at most 65536 |
| `Eviction.ResourceRejectionExact` | src/mempool/mempool.cpp:117-128 | A resource-limit rejection still leaves a prefix of the order with only strictly lower entries lost, and says where eviction stopped and why |
| `Eviction.RejectionUnchangedExact` | src/mempool/mempool.cpp:117-128 | A resource-limit rejection leaves the pool as it was if and only if the lowest entry need not or may not be evicted |
| `Eviction.RejectionChangesNothing` | src/mempool/mempool.cpp:92-110 | Validation, duplicate and conflict rejections leave the pool as it was |
| `Eviction.MakeRoomExact` | src/mempool/mempool.cpp:117-124 | The eviction loop, 64-bit wrap of the byte budget included, keeps exactly a prefix of the ranking |
| `Eviction.AfterOps` | src/mempool/mempool.cpp:92-158 | After any sequence of accepts and removes, indexes, byte total, limits and minimum rate all hold |
| `Eviction.OpsTrace` | src/mempool/mempool.cpp:92-158 | That pool is reached through every operation, in order |
| `Eviction.AcceptKeepsRate` | src/mempool/policy.cpp:36-53 | Every entry pays the exact minimum rate, fee at least rate times size |
| `Agreement.SurvivorExact` | src/consensus/chain.cpp:74-80 | Over every reachable chain with distinct coinbases, the new block included, given no collision: an entry that survives the block keeps its fee if and only if the body spends none of its inputs, and is unspendable otherwise |
| `Agreement.OwnBlockAgrees` | src/consensus/chain.cpp:74-80 | After a block drawn from the pool itself, every survivor is still spendable with its recorded fee |
| `Agreement.AcceptAgrees` | src/mempool/mempool.cpp:92-137 | Admission and its evictions keep the pool in agreement with the chain |
| `NodeRuns.AfterAll` | src/node/simulator.cpp:76-111 | After any sequence of admissions and mined blocks: the chain is the replay of the ledger, coinbases carry their heights, the pool is valid, agrees with the chain, and pays the minimum rate |
| `NodeRuns.RunTrace` | src/node/simulator.cpp:76-111 | Such a run takes every step, in order, through nodes in the invariant: an admission changes only the pool, a mined block is appended, submitted and pruned, and a failure to mine changes nothing |
| `NodeRuns.TimestampExact` | src/node/simulator.cpp:59-61 | Block timestamps are the genesis time plus the height until that reaches 2^64; the first block past it comes before its parent |
| `NodeRuns.FreshNodeOk` | src/node/simulator.cpp:168-172 | A node on an empty genesis starts in that invariant |
| `NodeRuns.MinedLeavesUnselected` | src/node/simulator.cpp:89-111 | A mined block removes from the pool exactly the entries it selected, if its coinbase id is that of no entry |
| `Mining.NextCoinbaseFresh` | src/production/block_builder.cpp:118-129 | In such a run the next coinbase collides with nothing selected or unspent |
| `Mining.MiningExact` | src/node/simulator.cpp:89-111 | In every reachable state of a self-mining node whose template version and parameters are its chain's, given no collision, mining succeeds if and only if there is a next height, its timestamp is not before the tip, subsidy plus selected fees is in the money range, and the selection is within the consensus size |
| `Mining.MinedPoolExact` | src/node/simulator.cpp:89-111 | Given no collision, that condition always holds: a mined block removes exactly the entries it selected |
| `Mining.PoolIsFresh` | src/node/simulator.cpp:76-111 | In such a node no pool entry would create an outpoint that exists |
| `Mining.MinesGreedily` | src/node/simulator.cpp:89-111 | So every block such a node mines is the greedy packing of its pool |
| `Restart.RestoreExact` | src/mempool/restore.cpp:5-15 | Re-admitting the export of an agreeing pool gives the same pool, entries, fees, index and byte total, with no eviction |
| `Restart.ReadmitExact` | src/mempool/restore.cpp:5-15 | Each exported entry is re-admitted as it was and evicts nothing |
| `Restart.RestartTransparent` | src/node/simulator.cpp:174-210 | Loading what a node saved, under the same limits and policy, gives the same ledger, tip, unspent set and pool if the configured parameters and genesis hash are its own, and is refused as corrupt otherwise |
| `Simulator.RunsRestartTransparently` | src/node/simulator.cpp:148-238 | At the end of every scripted run from a fresh node, whatever its outcome, what is saved loads back as the same node under the parameters, genesis and limits the run was started with |
| `Simulator.InterruptedRun` | src/node/simulator.cpp:168-235 | A run that is stopped, saved, loaded under the configuration it was started with and carried on ends with the same result and node as one that never stopped |
| `Simulator.RunStepsKeeps` | src/node/simulator.cpp:212-228 | Every scripted run keeps the node invariant, also when it fails |
| `Scenarios.RunStepsExact` | src/node/simulator.cpp:212-223 | A run that succeeds extends the ledger by exactly the blocks its steps ask for, the old ledger a prefix, and raises the tip by as many |
| `Scenarios.RunStepExact` | src/node/simulator.cpp:212-223 | In each step of it every transaction submitted is, when the admissions are over, in the pool or outbid by a strictly higher rate; then its blocks are mined |
| `Scenarios.RunStepsStop` | src/node/simulator.cpp:212-223 | A run that fails does so at one transaction or one block, keeping what was done |
| `Scenarios.AdmitAllExact` | src/node/simulator.cpp:76-87 | Admitting a list, where it succeeds, changes only the pool; each transaction and each earlier entry is in it or was outbid by a later one, and nothing else is |
| `Scenarios.AdmitAllStops` | src/node/simulator.cpp:76-87 | Where it fails, it stops at the first refusal, with everything before it admitted |
| `Scenarios.MineManyExact` | src/node/simulator.cpp:89-111 | Mining, where it succeeds, appends exactly the blocks asked for |
| `Scenarios.MineManyStops` | src/node/simulator.cpp:89-111 | Where it fails, it stops at the first failure, with every block before it mined |
| `Simulator.RunStepsRunsUnder` | src/node/simulator.cpp:212-228 | A run never changes its parameters, its first block or its pool limits |
| `Simulator.GenesisCreates` | src/node/genesis.cpp:8-18 | The empty genesis always starts a chain, at height zero and the configured time, without a coin |
| `Peers.HandleKeeps` | src/node/peer_state.cpp:299-361 | Any message, whatever its outcome, keeps the chain equal to the replay of the ledger under the chain's own parameters, and the ledger only grows |
| `PeerMessages.TxAnnounced` | src/node/peer_state.cpp:245-262 | An announced transaction is put to the pool: refused, it is answered with a reject; accepted, the pool is what admission leaves, and exactly the configured number of blocks follows, or the failure is answered with a reject |
| `PeerMessages.MinedExact` | src/node/peer_state.cpp:226-239 | Mining for a peer succeeds if and only if every block is mined and the result is persisted |
| `PeerMessages.TxGarbled` | src/node/peer_state.cpp:299-315 | Bytes that are no transaction change nothing, and are rejected only if they were framed |
| `PeerMessages.BlockTaken` | src/node/peer_state.cpp:264-297 | An announced or received block is connected, nothing is answered, and a success is persisted |
| `PeerMessages.BlockGarbled` | src/node/peer_state.cpp:264-297 | Bytes that are no block change nothing |
| `PeerMessages.PingAnswered` | src/node/peer_state.cpp:340-352 | A ping of eight bytes is answered with the same eight bytes, any other is an error; a pong needs no answer |
| `PeerMessages.UnknownHeight` | src/node/peer_state.cpp:280-285 | A request for a height without a block is rejected |
| `PeerMessages.RequestGarbled` | src/net/p2p_payloads.cpp:406-418 | A request of other than four bytes is a parse error |
| `PeerMessages.Unsupported` | src/node/peer_state.cpp:353-361 | Every other kind of message is an error, and is rejected |
| `PeerMessages.BlobExact` | src/net/p2p_payloads.cpp:71-82 | The payloads accepted are exactly the length-prefixed, non-empty byte strings within the limit |
| `PeerMessages.PersistedExact` | src/node/peer_state.cpp:205-215 | Persisting succeeds if and only if it is off, or both counts are within their limits and the disk takes it |
| `PeerMessages.ExchangesTrace` | src/node/network.cpp:185-200 | A run of messages that succeeds handled each one on the node the one before it left, and sent their replies in order |
| `Peers.Exchanges` | src/node/network.cpp:185-200 | The same over any sequence of messages, with a file-system answer for each |
| `Peers.Session` | src/node/network.cpp:185-200 | A session keeps the same invariant, sends no more replies than the messages it gets to, at most 64, and fails if there are 64 or more |
| `Relay.SessionFails` | src/node/network.cpp:195-197 | The first message that fails ends the session, with what it had done by then |
| `Relay.SessionEnds` | src/node/network.cpp:185-200 | A session without a failure has handled the first 64 messages, or all of them if they are fewer |
| `Peers.ConnectKeeps` | src/node/peer_state.cpp:217-224 | Connecting a block, or failing to, keeps it |
| `Peers.MineManyKeepsPeer` | src/node/peer_state.cpp:226-239 | Mining any number of blocks keeps it |
| `Peers.MineIsConnect` | src/node/peer_state.cpp:226-237 | A peer's mining turn is the simulator's: the template's block, connected |
| `Peers.PeerSaves` | src/node/peer_state.cpp:205-215 | Saving a peer fails only when the ledger or the pool exceeds its count limit; what is written decodes to the ledger, the configured parameters and the exported pool |
| `PeerState.CatalogLinks` | src/node/peer_state.cpp:179-203 | Every catalogued block sits at its own height, headers link by hash from a zero parent, and the last is the tip |
| `PeerRestart.PeerRestartExact` | src/node/peer_state.cpp:114-142 | A peer restores from its own file if and only if every block meets the maturity and coinbase cap that the parameters in the file set, and every pool entry is still admissible; then it has the same ledger, tip, unspent set and pool transactions |
| `PeerRestart.OwnParamsRestart` | src/node/peer_state.cpp:114-142 | A file saved under the chain's own parameters restores if and only if every pool entry is still admissible |
| `Parameters.ReplayExact` | src/storage/chain_store.cpp:110-126 | A list that replays under some parameters replays under others if and only if every block meets the maturity and coinbase cap they set, and then reaches the same tip and unspent set |
| `Parameters.EffectExact` | src/validation/block_validation.cpp:105-139 | The same for one block: parameters decide acceptance and nothing else |
| `PeerRestart.RestoreIff` | src/mempool/restore.cpp:5-15 | Restoring an exported pool succeeds if and only if each entry is admissible now, and brings the fees up to date |
| `PeerRestart.RestoredPeerOk` | src/node/peer_state.cpp:114-142 | A restored peer holds the catalog invariant under the parameters in the file |
| `Relay.SyncExact` | src/node/network.cpp:297-318 | Between any two peers, given no collision and no preimage of zero among the messages of both histories: sync succeeds if and only if the server is below the last height and either the heights are equal, or the client has a prefix of the server's ledger, the gap is at most 64, and the missing blocks fit a frame and replay under the client's parameters. On success the client has the server's tip and unspent set if and only if it was behind or had the same ledger. A client off the server's chain is left as it was |
| `Relay.SyncFromExact` | src/node/network.cpp:297-318 | The loop between any two peers, from any point, with its wrapping 32-bit counter |
| `Relay.PrefixSyncs` | src/node/network.cpp:298-313 | For a client on the server's chain the same without any hypothesis on the hash: it ends with the server's ledger, or with some longer prefix of it |
| `Relay.ForkRefused` | src/node/peer_state.cpp:264-278 | A client whose ledger is no prefix of the server's refuses the first block it is sent |
| `Relay.WrappedTurn` | src/node/network.cpp:298 | At the last height the counter wraps and the client asks for the genesis, which is refused |
| `Relay.FitsExact` | include/blockchain/net/p2p_message.hpp:34-36 | The one size of a sane block that does not fit a frame is the largest, 2^20 bytes |
| `Relay.BlockExchanged` | src/node/peer_state.cpp:280-297 | One request and its response connect exactly the requested block; a block that does not fit fails the server's send, and the client sees a failed receive |
| `Relay.NextBlockConnects` | src/node/peer_state.cpp:217-224 | To a peer holding a prefix of a ledger the next block connects if and only if the longer prefix replays under the peer's parameters |
| `Relay.RequestsServed` | src/node/peer_state.cpp:280-293 | A server answers consecutive requests with those blocks, in order, up to the first that does not fit a frame, where it fails; it does not change |
| `Relay.ServerOutcome` | src/node/network.cpp:185-200 | The server reports success if and only if it got fewer than 64 requests and every requested block fits; it has sent the blocks before the first that does not fit or the limit. A sync of exactly 64 blocks succeeds for the client and fails for the server |
| `Sha256Stream.Sha256Hasher.Update` | src/crypto/sha256.cpp:37-46 | Feeding bytes in any split has the same effect as feeding their concatenation; the buffer is never indexed past 64 |
| `Sha256Stream.Sha256Hasher.Finalize` | src/crypto/sha256.cpp:48-78 | The digest is the fold of the section 6.2.2 compression of FIPS 180-4 over the section 5.1.1 padding of everything fed |
| `Sha256Stream.Sha256Hasher.PushPadding` | src/crypto/sha256.cpp:51-62 | One block or two, the padding is a 1 bit and the fewest zeros that leave room for the length |
| `Sha256Stream.Sha256Hasher.PushLength` | src/crypto/sha256.cpp:64-67 | The length field is the 64-bit big-endian bit count, which wraps |
| `Sha256Stream.Sha256Hasher.ProcessBlock` | src/crypto/sha256.cpp:83-132 | A full buffer is folded into the state and emptied |
| `Sha256Stream.Sha256Hasher.constructor` | src/crypto/sha256.cpp:134-138 | A new hasher has absorbed nothing |
| `Sha256Stream.ExpandSchedule` | src/crypto/sha256.cpp:84-95 | The 64-word schedule of section 6.2.2, step 1 |
| `Sha256Stream.RunRounds` | src/crypto/sha256.cpp:97-122 | The 64 rounds of section 6.2.2, steps 2 and 3 |
| `Sha256Stream.ShiftsRotate` | src/crypto/sha256.cpp:31-33 | The shift-and-or rotation is a right rotation |
| `Sha256Example.AbcDigest` | tests/test_sha256.cpp:16-19 | The digest of "abc" is the published one |
| `Sha256Constants.InitialWords` | src/crypto/sha256.cpp:134-135 | The initial words are the first 32 fractional bits of the square roots of the first eight primes |
| `Sha256Constants.RoundConstants0` | src/crypto/sha256.cpp:19-29 | Round constants 0 to 7 are the first 32 fractional bits of the cube roots of the first eight primes |
| `Sha256Constants.RoundConstants8` | src/crypto/sha256.cpp:19-29 | Round constants 8 to 15 are the first 32 fractional bits of the cube roots of the next eight primes |
| `Sha256Constants.RoundConstants16` | src/crypto/sha256.cpp:19-29 | Round constants 16 to 23 are the first 32 fractional bits of the cube roots of the next eight primes |
| `Sha256Constants.RoundConstants24` | src/crypto/sha256.cpp:19-29 | Round constants 24 to 31 are the first 32 fractional bits of the cube roots of the next eight primes |
| `Sha256Constants.RoundConstants32` | src/crypto/sha256.cpp:19-29 | Round constants 32 to 39 are the first 32 fractional bits of the cube roots of the next eight primes |
| `Sha256Constants.RoundConstants40` | src/crypto/sha256.cpp:19-29 | Round constants 40 to 47 are the first 32 fractional bits of the cube roots of the next eight primes |
| `Sha256Constants.RoundConstants48` | src/crypto/sha256.cpp:19-29 | Round constants 48 to 55 are the first 32 fractional bits of the cube roots of the next eight primes |
| `Sha256Constants.RoundConstants56` | src/crypto/sha256.cpp:19-29 | Round constants 56 to 63 are the first 32 fractional bits of the cube roots of the next eight primes |
| `Sha256Constants.Choice` | src/crypto/sha256.cpp:108 | The choice function takes one word where a third has ones and the other where it has zeros |
| `Sha256Constants.Majority` | src/crypto/sha256.cpp:111 | The majority function takes what at least two words have |
| `Sha256Constants.SigmaBits` | src/crypto/sha256.cpp:92-110 | Where the four mixing functions send a single bit |
| `Sha256Constants.PaddedShape` | src/crypto/sha256.cpp:51-67 | The padded message: the message, a 1 bit, the fewest zeros, and the bit length with the most significant byte first |
| `Sha256Stream.Sha256` | src/crypto/sha256.cpp:143-147 | One-shot hashing is the standard's digest |
| `Sha256Stream.Sha256Double` | src/crypto/sha256.cpp:149-152 | Double hashing is the digest of the digest |
| `LedgerFile.LedgerRoundTrip` | src/storage/chain_store.cpp:243-367 | A ledger that was written decodes to what was written |
| `LedgerFile.FileExact` | src/storage/chain_store.cpp:278-367 | A byte string reads as a ledger if and only if it is that ledger's file: magic, version 1 without or 2 with a pool snapshot, parameters, at most a million blocks numbered from zero, at most ten thousand transactions, and the first four bytes of the digest of all that |
| `LedgerFile.WrittenExact` | src/storage/chain_store.cpp:243-276 | What is written is the version 2 file of the ledger, and every ledger such a file can hold is written |
| `LedgerFile.ChecksumExact` | src/storage/chain_store.cpp:278-292 | A file that reads ends in the first four bytes of the digest of the rest; one that does not is corrupt |
| `LedgerFile.ChecksumBytes` | src/storage/chain_store.cpp:31-38 | The checksum, as bytes, is the first four of the digest |
| `LedgerFile.OtherVersion` | src/storage/chain_store.cpp:300-306 | With the checksum and the magic right, any version but 1 and 2 is reported as unsupported |
| `LedgerFile.LedgerCanonical` | src/storage/chain_store.cpp:278-367 | A version 2 file that decodes re-encodes to the same bytes |
| `LedgerFile.BodyRoundTrip` | src/storage/chain_store.cpp:243-367 | The same for the part under the checksum |
| `LedgerFile.BodyCanonical` | src/storage/chain_store.cpp:278-367 | And its converse |
| `LedgerFile.ChecksumPasses` | src/storage/chain_store.cpp:222-227 | An appended checksum is accepted |
| `Transactions.TxRoundTrip` | src/protocol/transaction.cpp:12-86 | A transaction within the wire limits, followed by any suffix, decodes to itself and leaves the suffix |
| `Transactions.TxCanonical` | src/protocol/transaction.cpp:30-86 | Any successful decode re-encodes to exactly the consumed bytes |
| `Transactions.ParseTxExact` | src/protocol/transaction.cpp:30-86 | A byte string parses to a transaction if and only if it is that transaction's encoding and within the wire limits |
| `Transactions.EncTxInjective` | src/protocol/transaction.cpp:12-28 | Encoding is injective on wire transactions |
| `Transactions.EncTxLength` | src/protocol/transaction.cpp:12-28 | An encoding has 16 + 36 inputs + 40 outputs bytes |
| `Layout.TxLayout` | src/protocol/transaction.cpp:12-28 | The offset and byte order of every field of an encoded transaction |
| `Layout.HeaderLayout` | src/protocol/block.cpp:12-18 | The same for a header: version, parent, root, time and height at 0, 4, 36, 68 and 76 |
| `Layout.BlockLayout` | src/protocol/block.cpp:63-69 | A block is its header, the count at offset 80, and the transactions one after the other |
| `Layout.IdsAreDoubleHashes` | src/protocol/transaction.cpp:94-97 | Transaction ids and header hashes are double hashes of the encodings |
| `Layout.CoinbaseLayout` | src/protocol/transaction.cpp:103-122 | A made coinbase has one input, with the null index and an id that holds the height in its first four bytes and zeros after, and one output |
| `Layout.TrailingBytes` | src/node/peer_state.cpp:60-83 | Bytes after a complete transaction or block are a parse error |
| `Layout.ExcessiveCount` | src/serialization/byte_io.cpp:118-129 | A count above its limit is a resource error, whatever follows |
| `Layout.ShortInput` | src/protocol/block.cpp:20-54 | A block that ends within its header is a parse error, and so is a transaction that ends within its version |
| `Transactions.TxidInjective` | src/protocol/transaction.cpp:94-97 | Ids determine transactions where no two encodings collide |
| `Transactions.MakeCoinbase` | src/protocol/transaction.cpp:103-122 | A made coinbase is recognised as one |
| `Transactions.CoinbaseTagInjective` | src/protocol/transaction.cpp:103-122 | Different heights give different coinbase inputs |
| `Blocks.HeaderRoundTrip` | src/protocol/block.cpp:12-54 | Header codec, forwards |
| `Blocks.HeaderCanonical` | src/protocol/block.cpp:20-54 | Header codec, backwards |
| `Blocks.EncHeaderInjective` | src/protocol/block.cpp:12-18 | Headers with equal encodings are equal |
| `Blocks.BlockRoundTrip` | src/protocol/block.cpp:63-94 | A wire block followed by any suffix decodes to itself and leaves the suffix |
| `Blocks.BlockCanonical` | src/protocol/block.cpp:71-94 | Any successful block decode re-encodes to the consumed bytes |
| `Blocks.ParseBlockExact` | src/node/peer_state.cpp:60-70 | A byte string parses to a block if and only if it is the block's encoding and within the wire limits |
| `ByteIO.U32RoundTrip` | src/serialization/byte_io.cpp:19-23 | Little-endian 32-bit integers round-trip with any suffix |
| `ByteIO.U64RoundTrip` | src/serialization/byte_io.cpp:25-29 | Little-endian 64-bit integers round-trip with any suffix |
| `ByteIO.VarBytesRoundTrip` | src/serialization/byte_io.cpp:39-42 | Length-prefixed bytes round-trip with any suffix |
| `ByteIO.ManyRoundTrip` | src/protocol/transaction.cpp:20-27 | Lists of canonically encoded items round-trip |
| `ByteIO.ManyCanonical` | src/protocol/transaction.cpp:44-83 | Lists of canonically decoded items re-encode to what was consumed |
| `ByteIO.DecU32` | src/serialization/byte_io.cpp:72-82 | Decoding fails only on too few bytes, and consumes exactly the encoding of its result |
| `ByteIO.DecU64` | src/serialization/byte_io.cpp:84-94 | The same for 64 bits |
| `ByteIO.DecVarBytes` | src/serialization/byte_io.cpp:131-137 | A decoded blob is within the limit and re-encodes to the consumed bytes |
| `Cursors.ByteWriter.PutLittleEndian` | src/serialization/byte_io.cpp:19-29 | The shift-and-mask loop appends the little-endian bytes |
| `Cursors.ByteWriter.PutU32` | src/serialization/byte_io.cpp:19-23 | Appends the encoding |
| `Cursors.ByteWriter.PutU64` | src/serialization/byte_io.cpp:25-29 | Appends the encoding |
| `Cursors.ByteWriter.PutVarBytes` | src/serialization/byte_io.cpp:39-42 | Appends the length, cast to 32 bits, and the bytes |
| `Cursors.ByteReader.GetLittleEndian` | src/serialization/byte_io.cpp:72-94 | The shift-and-or loop reads the value and advances past it |
| `Cursors.ByteReader.GetU32` | src/serialization/byte_io.cpp:72-82 | Reads what the decoder specifies, and never past the end; a failure does not move |
| `Cursors.ByteReader.GetU64` | src/serialization/byte_io.cpp:84-94 | The same for 64 bits |
| `Cursors.ByteReader.GetHash` | src/serialization/byte_io.cpp:96-106 | The same for hashes |
| `Cursors.ByteReader.GetBytes` | src/serialization/byte_io.cpp:108-116 | The same for a counted run of bytes |
| `Cursors.ByteReader.GetLength` | src/serialization/byte_io.cpp:118-129 | The same for bounded lengths |
| `Cursors.ByteReader.GetVarBytes` | src/serialization/byte_io.cpp:131-137 | The same for bounded blobs |
| `Cursors.ByteReader.ExpectEnd` | src/serialization/byte_io.cpp:139-145 | Succeeds exactly at the end of input |
| `Wire.SerializeTx` | src/protocol/transaction.cpp:12-28 | Appends the transaction's encoding |
| `Wire.DeserializeTx` | src/protocol/transaction.cpp:30-86 | Reads what the transaction decoder specifies |
| `Wire.SerializeHeader` | src/protocol/block.cpp:12-18 | Appends the header's encoding |
| `Wire.DeserializeHeader` | src/protocol/block.cpp:20-54 | Reads what the header decoder specifies |
| `Wire.SerializeBlock` | src/protocol/block.cpp:63-69 | Appends the block's encoding |
| `Wire.DeserializeBlock` | src/protocol/block.cpp:71-94 | Reads what the block decoder specifies |
| `Wire.ParseBlockBytes` | src/node/peer_state.cpp:60-70 | Parses a whole byte string as a block |
| `Wire.ParseTxBytes` | src/node/peer_state.cpp:72-83 | Parses a whole byte string as a transaction |
| `Utxo.UtxoSet.Add` | src/state/utxo_set.cpp:16-24 | Adds a coin, or fails and changes nothing if the outpoint is taken |
| `Utxo.UtxoSet.Spend` | src/state/utxo_set.cpp:26-36 | Removes and returns a coin, or fails and changes nothing |
| `TxValidation.CheckTransactionSanity` | src/validation/transaction_validation.cpp:29-81 | Succeeds exactly on sane transactions: input and output counts, no sentinel input outside a coinbase, distinct inputs, total value in the money range, encoded size |
| `TxValidation.CheckTransactionInputs` | src/validation/transaction_validation.cpp:83-109 | The fee is inputs minus outputs, or the error of a missing coin, an overflow or outputs above inputs |
| `TxValidation.UncheckedTotal` | src/validation/transaction_validation.cpp:97-100 | The unchecked 64-bit output sum, which on a total in the money range, as sanity ensures, is the true sum |
| `TxValidation.CheckCoinbaseMaturity` | src/validation/transaction_validation.cpp:111-127 | Succeeds exactly when every coinbase input is mature |
| `TxValidation.CheckedAdd` | src/validation/transaction_validation.cpp:15-21 | Adds, or reports overflow |
| `BlockValidation.CheckBlockSanity` | src/validation/block_validation.cpp:26-55 | Returns the first error in scan order, or success |
| `BlockValidation.SanityExact` | src/validation/block_validation.cpp:26-55 | That outcome is success if and only if the block is sane: counts, size, Merkle root, sane transactions, coinbase only first, distinct ids |
| `BlockValidation.AddOutputs` | src/validation/block_validation.cpp:61-77 | Adds one coin per output, or fails where one exists |
| `BlockValidation.SpendInputs` | src/validation/block_validation.cpp:111-115 | Removes exactly the inputs |
| `BlockValidation.ConnectTx` | src/validation/block_validation.cpp:99-122 | Applies one transaction as specified |
| `BlockValidation.ConnectBody` | src/validation/block_validation.cpp:93-123 | Applies the body in order, accumulating fees with an overflow check |
| `BlockValidation.ConnectCoinbase` | src/validation/block_validation.cpp:125-144 | Applies the coinbase last, capped at subsidy plus fees |
| `BlockValidation.ConnectBlock` | src/validation/block_validation.cpp:81-148 | Replaces the unspent set by the block's effect, or leaves it alone on any error |
| `ChainRules.SubmitExact` | src/consensus/chain.cpp:12-82 | A block is accepted if and only if its version, parent hash, height and timestamp fit the tip, it is sane, and its transactions apply |
| `ChainRules.SubmitFacts` | src/consensus/chain.cpp:58-82 | What an accepted block did to the chain |
| `ChainRules.ReplayShape` | src/consensus/chain.cpp:12-82 | Blocks of a replayable list are sane, numbered from zero, linked by hash, and end in the tip |
| `ChainRules.ReplayStep` | src/storage/chain_store.cpp:110-126 | Each block of a replayable list is accepted on top of the ones before it |
| `ChainRules.ReplayAppend` | src/consensus/chain.cpp:58-82 | Replaying one more block is submitting it |
| `Chain.ActiveChain.Create` | src/consensus/chain.cpp:37-56 | Creates the chain the rules specify, or gives their error |
| `Chain.ActiveChain.SubmitBlock` | src/consensus/chain.cpp:58-82 | Advances tip and unspent set and prunes the pool, or fails and changes nothing |
| `Chain.PruneFrom` | src/consensus/chain.cpp:74-80 | Removes the ids of the block from the pool and nothing else |
| `Pools.PruneExact` | src/consensus/chain.cpp:74-80 | Pruning keeps exactly the entries whose id is not in the block, unchanged |
| `Pools.AcceptValid` | src/mempool/mempool.cpp:92-137 | Admission keeps the spent index the inverse of the inputs, the byte total the sum of sizes, and both limits |
| `Pools.RemoveValid` | src/mempool/mempool.cpp:148-158 | Removal keeps them too |
| `Pools.NoConflicts` | src/mempool/mempool.cpp:104-109 | No two entries of a pool spend the same outpoint |
| `Pools.MakeRoomShrinks` | src/mempool/mempool.cpp:117-124 | Eviction only removes entries, and on success has made room |
| `Pools.CheckMinRelayFeerate` | src/mempool/policy.cpp:36-53 | The 128-bit comparison decides fee at least rate times size exactly |
| `Pools.ValidateForMempool` | src/mempool/policy.cpp:57-79 | Fee and size of an admissible transaction, or the first error |
| `Pools.ReserveInputs` | src/mempool/mempool.cpp:130-132 | Maps every input to the entry, and changes nothing else |
| `Pools.ReleaseInputs` | src/mempool/mempool.cpp:148-158 | Frees exactly the inputs of the entry |
| `Mempool.TransactionPool.Accept` | src/mempool/mempool.cpp:92-137 | Admission as specified, eviction on failure included |
| `Mempool.TransactionPool.EvictFor` | src/mempool/mempool.cpp:117-124 | The eviction loop as specified |
| `Mempool.TransactionPool.Remove` | src/mempool/mempool.cpp:148-158 | Removal as specified |
| `Mempool.TransactionPool.EntriesByFeerate` | src/mempool/mempool.cpp:160-168 | Returns the ranking |
| `Mempool.TransactionPool.SortedTransactions` | src/mempool/mempool.cpp:170-182 | Returns every entry's transaction once, in increasing id order |
| `FeeRate.MulU64` | src/mempool/mempool.cpp:14-29 | The two words are the exact 128-bit product |
| `FeeRate.HigherExact` | src/mempool/mempool.cpp:34-49 | The comparison orders by exact fee per byte, then by id |
| `FeeRate.LexExact` | include/blockchain/mempool/mempool.hpp:20-27 | Of two ids the lesser has the smaller byte at the first place where they differ |
| `FeeRate.HigherTransitive` | src/mempool/mempool.cpp:34-49 | It is transitive |
| `FeeRate.HigherTotal` | src/mempool/mempool.cpp:34-49 | It is irreflexive and total on distinct ids |
| `Ranking.FindLowest` | src/mempool/mempool.cpp:78-88 | Finds the entry every other one outranks |
| `Ranking.RankEntries` | src/mempool/mempool.cpp:160-168 | Computes the ranking |
| `Ranking.RankedSorted` | src/mempool/mempool.cpp:160-168 | The ranking is strictly sorted |
| `Ranking.RankedMembers` | src/mempool/mempool.cpp:160-168 | It holds exactly the entries of the pool |
| `Ranking.RankedUnique` | src/mempool/mempool.cpp:160-168 | It is the only sorted listing of the entries |
| `Ranking.LastIsLowest` | src/mempool/mempool.cpp:78-88 | The last element of a sorted listing is the lowest entry |
| `BlockBuilder.TryApply` | src/production/block_builder.cpp:27-50 | Applies a transaction to the working set, or leaves it alone |
| `BlockBuilder.TryEntry` | src/production/block_builder.cpp:84-111 | One turn of the loop as specified |
| `BlockBuilder.SelectEntries` | src/production/block_builder.cpp:76-112 | The selection loop as specified, with its early exit on the count budget |
| `BlockBuilder.BuildBlockTemplate` | src/production/block_builder.cpp:54-136 | The template, or the error, as specified |
| `ChainStore.WriteLedger` | src/storage/chain_store.cpp:243-276 | Encodes a ledger as specified, or refuses it on its limits |
| `ChainStore.ReadLedger` | src/storage/chain_store.cpp:278-367 | Decodes a ledger as specified |
| `ChainStore.SaveLedger` | src/storage/chain_store.cpp:369-378 | What is written: a sequential ledger's encoding |
| `ChainStore.ValidateBlockSequence` | src/storage/chain_store.cpp:95-108 | Accepts exactly lists numbered 0, 1, 2 and so on |
| `ChainStore.PutBlocks` | src/storage/chain_store.cpp:42-50 | Appends every block, or refuses one that is too large |
| `ChainStore.PutTransactions` | src/storage/chain_store.cpp:68-77 | Appends every transaction, or refuses one that is too large |
| `ChainStore.ReadPreamble` | src/storage/chain_store.cpp:296-325 | Magic, version, parameters and block count |
| `ChainStore.ReadStoredBlocks` | src/storage/chain_store.cpp:327-335 | The stored blocks |
| `ChainStore.ReadSnapshot` | src/storage/chain_store.cpp:341-357 | The pool snapshot, absent in version 1 |
| `ChainStore.ReadBlockItem` | src/storage/chain_store.cpp:52-66 | One stored block |
| `ChainStore.ReadTxItem` | src/storage/chain_store.cpp:79-93 | One stored transaction |
| `ChainStore.ReplayChain` | src/storage/chain_store.cpp:110-126 | Rebuilds the chain its block list replays to, or gives the first error |
| `ChainStore.RestoreMempool` | src/mempool/restore.cpp:5-15 | Re-admits in order; the first refusal is a corrupt store |
| `Simulator.AdmitTransactions` | src/node/simulator.cpp:76-87 | Admits until the first refusal, as specified |
| `Simulator.MineBlocks` | src/node/simulator.cpp:89-111 | Mines until the first failure, as specified |
| `Simulator.RunScenario` | src/node/simulator.cpp:212-223 | Runs the steps as specified, which `Scenarios.RunStepsExact` describes |
| `Simulator.LoadNode` | src/node/simulator.cpp:174-210 | Restores a node from a file as specified, checking parameters and genesis |
| `PeerState.Peer.ConnectBlock` | src/node/peer_state.cpp:217-224 | Connects and catalogues a block, keeping the catalog invariant |
| `PeerState.Peer.MineBlocks` | src/node/peer_state.cpp:226-239 | Mines and persists as specified, keeping the invariant |
| `PeerState.Peer.MineBlock` | src/node/peer_state.cpp:227-237 | One turn of the mining loop |
| `PeerState.Peer.AcceptTransaction` | src/node/peer_state.cpp:241-243 | Admission against the peer's chain |
| `PeerState.Peer.TakeTransaction` | src/node/peer_state.cpp:245-262 | Handles an announced transaction, mining afterwards if configured, as `PeerMessages.TxAnnounced` describes |
| `PeerState.Peer.TakeBlock` | src/node/peer_state.cpp:264-278 | Handles an announced or requested block; on success with persistence on, the file records the node |
| `PeerState.Peer.AnswerBlockRequest` | src/node/peer_state.cpp:280-293 | Answers with the block or a reject, or fails where the response does not fit a frame |
| `PeerState.Peer.AnswerMessage` | src/node/peer_state.cpp:325-360 | Answers the messages that change nothing |
| `PeerState.Peer.HandleMessage` | src/node/peer_state.cpp:299-361 | Dispatches as specified and keeps the catalog invariant: keys exactly 0 to the height, replaying to the current chain |
| `PeerState.Peer.PersistLedger` | src/node/peer_state.cpp:205-215 | Writes a file that records the ledger and pool, or leaves the old one |
| `PeerState.Peer.LedgerBlocks` | src/node/peer_state.cpp:195-203 | Exports the catalogued blocks in height order |
| `PeerState.Peer.StoreBlocks` | src/node/peer_state.cpp:132-134 | Catalogues stored blocks under their own heights |
| `PeerState.StartFresh` | src/node/peer_state.cpp:144-167 | Starts a peer on the empty genesis, in the invariant |
| `PeerState.FreshPeerExact` | src/node/peer_state.cpp:144-167 | A peer that starts has the genesis and exactly the blocks asked for, under the configured parameters and limits |
| `PeerState.RestorePeer` | src/node/peer_state.cpp:114-142 | Restores a peer from a file as specified, in the invariant |
| `PeerState.GetBlob` | src/net/p2p_payloads.cpp:71-82 | Reads a non-empty bounded blob that fills the payload |
| `PeerState.GetRequestedHeight` | src/net/p2p_payloads.cpp:406-418 | Reads a requested height |
| `PeerState.GetPingNonce` | src/net/p2p_payloads.cpp:257-272 | Reads a ping nonce of exactly eight bytes |
| `Relay.RelayMessageLoop` | src/node/network.cpp:185-200 | The server's loop as specified, keeping the invariant |
| `Relay.SyncBlocks` | src/node/network.cpp:297-318 | The client's loop against a live server as specified; the server does not change |
| `Counterexamples.RejectionLosesEntry` | src/mempool/mempool.cpp:117-128 | A pool of one entry and a transaction that is rejected and empties it |
| `Counterexamples.OverflowDesyncs` | src/production/block_builder.cpp:100-107 | A valid pool of two entries that agrees with the coins, over which the selection goes out of step with the validator |
| `Counterexamples.EntryStranded` | src/consensus/chain.cpp:74-80 | A reachable chain, a pool and an accepted block that leaves a pool entry unspendable and the pool not restorable |
| `Counterexamples.IdRecreated` | src/protocol/transaction.cpp:99-101 | A two-block chain that connects one coinbase id twice and brings a spent coin back |
| `Counterexamples.SubsidyLowered` | src/node/peer_state.cpp:118-131 | A two-block ledger that replays under the parameters it was mined with and not under the configured ones |
| `Counterexamples.TemplateRefused` | src/production/block_builder.cpp:123-129 | A template that passes its self-check under the configured subsidy and is refused by the chain it was built for |
| `Counterexamples.ForkReportsSync` | src/node/network.cpp:297-318 | Two peers of one height that mined to different recipients: sync reports success without a request and their unspent sets differ |
| `Counterexamples.SaneBlockTooLargeToSend` | src/node/peer_state.cpp:280-293 | A sane block of exactly 2^20 bytes, which no server can send |

## Left out

- Sockets, framing, listeners and port files: a channel delivers what is sent, and only the frame limit of the send is kept.
- The P2P envelope (magic, version, checksum), handshake and reject payloads, and message strings: repeats of the byte codec; only payloads the handlers read are decoded.
- File reading, atomic rename and directory creation: a file is a byte string, and the file system's answer is a parameter.
- Command line, JSON configuration, and the resolution of limits, policy and recipient from it: the resolved values are parameters.
- Ping mode, transaction files, and the messages a relay client sends after its sync: no state of their own.
- The run statistics and summary of the simulator: counters that feed nothing back.
- Hex conversion and enum-to-string functions.
- Collision resistance of SHA-256: a hypothesis where needed.
- The internals of `std::sort` and `std::map`: ranking is proved sorted and unique, and maps are Dafny maps.
- 8- and 16-bit reads and writes: only the message envelope uses them.
- Relay.SyncBlocks: takes the answers of the live server directly, so message reordering or loss is not modelled; the transport is a stream.
