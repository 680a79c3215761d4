# Verified model of the node's core

A Dafny model of the hard core of this blockchain node, with proofs about every input, every
run or every reachable state. Five parts:

- **EVM interpreter and static bytecode scan.** The gas-metered stack machine of
  `evm_interpreter.py` as a transition function (`EvmMachine`), as the object with mutable
  fields that computes it (`EvmInterpreter`), with its price list (`EvmPrices`), the meaning of
  every opcode in plain arithmetic (`EvmSteps`, `EvmLaws`, `EvmWords`) and its resource bounds
  (`EvmBounds`). `EvmValidator` proves the deploy-time scan sound for
  every dynamic run and shows exactly which side condition it needs.
- **Chain execution and replay.** `Ledger` (transactions, fee, burn, capped reward), `Chain`
  (the blocks table, add_block, rollback by replay), `ChainRuns` (which rows survive),
  `ChainDrift`, `ChainRollback`, `ChainReimport` (how far the live accounts are from the fold of
  the stored chain, and which rollbacks succeed and can be undone), `ChainSupply`,
  `ChainAssembly`, `ChainGenesis`, `Blockchain` (the object).
- **LMD-GHOST fork choice.** `Lmd`, `Ghost`, `GhostHead`, `BlockTree`: the iterative weight
  refines the recursive one, and a stake majority decides the head.
- **Finality and slashing.** `FinalityVotes` (Beacon and Casper gadgets compared),
  `FinalityEngine` (checkpoints, quorum intersection, reorg floor), `Slashing`,
  `BeaconEngine`, `SlashingGate` (the engines around them) and `NodeRuns` (chain and
  checkpoint engine together).
- **Merkle proofs, proposer selection, assembler.** `Merkle`, `ProposerSelection`,
  `Assembler` with `Text`. `Wrappers`, `Sums` and `Names` are helpers.

Amounts are reals and the two-thirds thresholds exact rationals. Clocks, hashes, signatures,
callbacks, proposer authorization and dictionary iteration orders are parameters: what is
proved holds for all of them.

Where the code and its own documentation differ, the model follows the code:

- the bytecode validator says it matches the interpreter, but rejects TIMESTAMP, NUMBER,
  GASLIMIT and CHAINID (`EvmValidator.SupportedVersusImplemented`);
- a jump accepts any 0x5B byte, also inside a PUSH immediate, which the scan cannot see
  (`EvmValidator.HiddenJumpdestDefeatsScan`, exact condition in `BoundaryClosedIff`);
- the copy opcodes shorten memory when the source range is past the data's end
  (`EvmWords.CopyKeepsLengthIff`);
- block execution checks the sign of neither value nor gas (`Ledger.NegativeValueCreatesSupply`,
  `Ledger.NegativeGasCreatesSupply`, exact condition in `Ledger.ConservesIff`); the validator in
  front of imported blocks stops negative values (execution/block_validator.py:94-96), but not
  negative gas;
- persisting a block credits its burned total to the burn address a second time, after the state
  root was computed and unseen by replay, so the live accounts run ahead of the chain and the
  supply can pass its cap (`Chain.OneTransferDrifts`; exact conditions in
  `Chain.AddKeepsConsistentIff`, `ChainRollback.ReorgOutcome`, `ChainSupply.AddRaisesSupply`; a
  rollback that fails is in `ChainRollback.BurningBlockBlocksReorg`);
- the blocks table replaces rows by hash and a peer's hash is stored unchecked, so an imported
  block can delete any row (`ChainRuns.ImportErasesRow`, exact condition in
  `ChainRuns.ApplyKeepsFloorIff`);
- start-up and replay choose the genesis founder differently (`ChainGenesis`);
- a rollback does not roll back the proposal log, so re-importing a dropped block slashes its
  honest miner (`ChainRuns.ReimportSlashesProposer`), nor the checkpoints
  (`NodeRuns.StaysAnchoredIff`, `NodeRuns.CheckpointLosesBlock`);
- the slashing engine ignores the latest-message table's answer, so a repeated attestation
  counts again (`SlashingGate.RepeatsAreUnbounded`, exact condition in
  `SlashingGate.ExcessKeptIff`), and a slashing leaves the finality threshold stale
  (`SlashingGate.ThresholdIsFreshIff`); its comment says votes of a slashed validator no longer
  count, yet its last vote stays in the table (`SlashingGate.SlashedStillWeighsIff`);
- the checkpoint engine finalizes the later of two consecutive justified checkpoints, the
  vote-counting gadgets the earlier, and it looks at an epoch only while a block passes over it,
  so a quorum completed afterwards finalizes nothing (`FinalityEngine.FinalizedIff`).

`dafny verify dfyconfig.toml` checks the whole project.

## Model

| member | source | states |
|---|---|---|
| EvmBounds.StepIsBounded | evm_interpreter.py:203-490 | whatever the callbacks answer, a turn of the loop that goes on costs at least 1 gas, stays within the limit, appends exactly one trace entry with its pc, keeps every word below 2^256 and pays 2 gas per stack slot gained |
| EvmBounds.RunIsBounded | evm_interpreter.py:192-502 | every completed execution: gas_used within the limit, trace no longer than gas_used + 1, twice the stack depth at most gas_used, all words below 2^256 |
| EvmBounds.ReachableIsAccounted | evm_interpreter.py:203-490 | after n turns of any run the trace has n entries and n is at most the gas used |
| EvmBounds.EveryRunStops | evm_interpreter.py:203-490 | no run takes more turns than the gas limit: the interpreter terminates on every code in every environment |
| EvmBounds.CallGasIsCovered | evm_interpreter.py:131-161 | the gas handed to a callee never overruns the limit, never exceeds a positive request, and without a stipend at least 1/64 of the remaining gas stays with the caller (EIP-150) |
| EvmBounds.CallNeverRunsOut | evm_interpreter.py:147-176 | a CALL-family opcode whose price was paid fails if and only if the stack is too short, never for gas |
| EvmInterpreter.EVM.Turn | evm_interpreter.py:203-208 | gas charge, trace entry and dispatch of one opcode equal one step of the transition function |
| EvmInterpreter.EVM.Dispatch | evm_interpreter.py:210-490 | every branch of the opcode chain leaves the state, or raises the exception, that the transition function says |
| EvmInterpreter.EVM.ConsumeGas | evm_interpreter.py:78-82 | charges exactly when the limit allows it, otherwise raises and charges nothing |
| EvmInterpreter.EVM.Push | evm_interpreter.py:84-85 | pushes the value reduced to 256 bits |
| EvmInterpreter.EVM.Pop | evm_interpreter.py:87-90 | underflow exactly on the empty stack, otherwise the inverse of a push |
| EvmInterpreter.EVM.MemExtend | evm_interpreter.py:92-95 | zero-extends, never shrinks |
| EvmInterpreter.EVM.WriteReturnToMemory | evm_interpreter.py:120-123 | writes at most the returned bytes into the extended memory |
| EvmInterpreter.EVM.ChargeSubcallGas | evm_interpreter.py:139-145 | a non-positive charge is free, a positive one is paid or raises |
| EvmInterpreter.EVM.DoLog | evm_interpreter.py:327-341 | topics in push order, 375 per topic plus 375 plus size paid inside the branch |
| EvmInterpreter.EVM.DoDupSwap | evm_interpreter.py:396-408 | duplicates and exchanges the n-th entry, underflow included |
| EvmInterpreter.EVM.DoCreate | evm_interpreter.py:409-419 | CREATE and CREATE2 with and without a callback: operands, salt, init code, result |
| EvmInterpreter.EVM.EndCreate | evm_interpreter.py:184-190 | charges what the creation used, then pushes the address, or 0 if it failed or reverted |
| EvmInterpreter.EVM.DoCall | evm_interpreter.py:420-465 | the four call opcodes, with and without a callback: operands in pop order, forwarded gas, request, result |
| EvmInterpreter.EVM.EndCall | evm_interpreter.py:170-176 | charges the smaller of used and forwarded gas, takes over storage from delegate and code calls, fills the return window, pushes the flag |
| EvmInterpreter.EVM.DoExtCodeCopy | evm_interpreter.py:316-327 | copies the chunk the callback returned, whatever its length |
| EvmWords.BitwiseMeaning | evm_interpreter.py:231-239 | AND, OR and XOR of unbounded integers act bit by bit |
| EvmWords.MemoryRoundTrip | evm_interpreter.py:92-103 | a word written to memory is read back reduced to 256 bits and no other byte changes |
| EvmWords.CopyKeepsLengthIff | evm_interpreter.py:293-308 | a copy opcode keeps the length of the extended memory if and only if the source range lies inside the data; past its end the slice assignment shortens memory |
| EvmMachine.AluLaws | evm_interpreter.py:218-252 | subtraction undoes addition modulo 2^256, NOT is an involution, exactly one of EQ, LT, GT holds |
| EvmMachine.DivisionLaws | evm_interpreter.py:225-264 | quotient and remainder recompose the dividend, division by zero gives zero, SHR undoes SHL before masking |
| EvmMachine.ByteOpcodeMeaning | evm_interpreter.py:253-258 | BYTE i is the i-th byte of the big-endian word, 0 from 32 on |
| EvmLaws.StorageRoundTrip | evm_interpreter.py:368-376 | SLOAD after SSTORE: the written slot reads back, all others are unchanged, whether or not a zero deleted the entry |
| EvmLaws.MstoreThenMload | evm_interpreter.py:358-363 | MLOAD after MSTORE at the same offset gives the word; all other old bytes are unchanged |
| EvmLaws.SwapTwice | evm_interpreter.py:401-408 | SWAPn exchanges two entries and is its own inverse |
| EvmLaws.DupThenPop | evm_interpreter.py:356-400 | DUPn copies entry n; POP afterwards restores the machine but for the pc |
| EvmLaws.PushReadsImmediate | evm_interpreter.py:105-111 | PUSHn pushes the n following bytes, zeros past the end of the code, and skips them |
| EvmLaws.ReturnedBytes | evm_interpreter.py:466-478 | RETURN and REVERT hand over exactly the requested bytes, zeros where memory was never written |
| EvmValidator.ScanBytecode | execution/evm_bytecode_validator.py:56-69 | the scan loop accepts if and only if every instruction start of the linear reading holds a supported opcode |
| EvmValidator.IssuesMeaning | execution/evm_bytecode_validator.py:56-69 | the issue list is exactly the unsupported opcodes at instruction starts, in code order |
| EvmValidator.SupportedVersusImplemented | execution/evm_bytecode_validator.py:7-41 | the supported set is what the interpreter implements minus 0x42, 0x43, 0x45 and 0x46 |
| EvmValidator.StepStaysOnBoundaries | evm_interpreter.py:113-114 | a step from an instruction start leads to an instruction start, and raises "unsupported" only for an unimplemented opcode |
| EvmValidator.ScanIsSound | execution/evm_bytecode_validator.py:56-69 | for accepted code without a 0x5B byte hidden in a PUSH immediate: after any number of turns, in any environment, the pc is an instruction start and "unsupported opcode" is never raised |
| EvmValidator.AcceptedCodeIsNeverUnsupported | evm_interpreter.py:203-490 | the same for completed executions: every pc in the returned trace is an instruction start of the scan |
| EvmValidator.BoundaryClosedIff | evm_interpreter.py:113-114 | instruction starts are closed under execution if and only if the code has no jump or hides no 0x5B byte |
| EvmValidator.HiddenJumpdestDefeatsScan | execution/evm_bytecode_validator.py:56-69 | a six-byte code that the scan accepts and whose run ends in "unsupported opcode" |
| Ledger.DeltaChangesTotal | storage/database.py:1301-1308 | a balance update changes the supply by its delta plus what the clamp at zero swallows |
| Ledger.RewardIsCapped | core/blockchain.py:568-579 | the reward raises the supply by exactly its amount and never past max_supply |
| Chain.RestampChangesNothing | core/blockchain.py:731-734 | executing already executed transactions again gives the same accounts and the same transactions |
| ChainAssembly.AdmittedAreIndependent | core/blockchain.py:397-566 | admitted transactions have distinct senders and are each valid before the block |
| ChainAssembly.OthersOnlyGain | core/blockchain.py:713-726 | someone else's transfer never lowers a balance and never touches a nonce |
| Blockchain.Node.ApplyTransaction | core/blockchain.py:586-744 | checks in the source's order, then the balance updates; a refused transaction changes nothing |
| Blockchain.Node.ApplyBlockReward | core/blockchain.py:568-579 | reads the total supply and credits the capped reward |
| Blockchain.Node.ExecuteBlock | core/blockchain.py:449-459 | the transaction loop and the reward compute the block's result, executed transactions and burned total |
| Blockchain.Node.TotalSupply | storage/database.py:2339-2345 | the sum of all balances |
| Blockchain.Node.NonceIncrement | storage/database.py:648-658 | the upsert raises one nonce and nothing else |
| Ghost.GetCumulativeWeight | consensus/ghost.py:10-28 | the explicit-stack, memoised loop terminates on every acyclic tree and equals the recursive subtree sum |
| GhostHead.SelectHead | consensus/ghost.py:31-80 | the walk returns the head defined by following preferred children from the first parentless block |
| GhostHead.BestIsUnique | consensus/ghost.py:62-74 | at most one child is preferred to all others |
| GhostHead.HeadIsLeaf | consensus/ghost.py:48-80 | with non-negative weights the head is a leaf |
| GhostHead.MajorityWins | consensus/ghost.py:48-80 | a block whose subtree outweighs half of a containing subtree is an ancestor of its head |
| GhostHead.HeadsAgree | consensus/ghost.py:31-80 | the head does not depend on the order of child lists |
| GhostHead.SingleRootIsFirst | consensus/ghost.py:38-43 | with a single root the dictionary order does not matter |
| Lmd.LMDTable.Update | consensus/lmd.py:25-36 | accepts exactly a registered validator's newer slot and overwrites only its vote |
| Lmd.LMDTable.GetWeights | consensus/lmd.py:38-47 | each block's weight is the stake of the validators whose latest vote it has |
| Lmd.VotesAddUp | consensus/lmd.py:38-47 | block weights over any set of blocks add up to the stake voting in it |
| BlockTree.AddKeepsRootedIff | consensus/engine_beacon.py:30-47 | add_block keeps a rooted tree rooted if and only if the block is new under a known parent or a repetition |
| BlockTree.BuiltTreeIsRooted | consensus/engine_beacon.py:30-47 | every tree built by parent-first delivery is a rooted tree |
| BlockTree.SiblingsDisjoint | consensus/engine_beacon.py:30-47 | subtrees of different siblings share no block |
| BlockTree.WeightIsSum | consensus/ghost.py:10-28 | the recursive weight is the sum over the set of descendants, each once |
| BlockTree.WeightIsStake | consensus/lmd.py:25-47 | subtree weight is the stake whose latest vote lies in the subtree; at the root, in the tree |
| BlockTree.StakeMajorityWins | consensus/ghost.py:31-80 | if more than half of the stake voting in the tree votes below b, the head is b or a descendant, and a leaf |
| BlockTree.ChainFromHead | consensus/ghost.py:83-94 | the parent walk yields the path from the root to the head |
| BeaconEngine.GetHead | consensus/engine_beacon.py:60-62 | get_head, from table to walk: a leaf of the tree below every block with a stake majority |
| FinalityVotes.AddToMeaning | consensus/finality_beacon.py:54-67 | counting a vote adds its weight to its own block and changes no other |
| FinalityVotes.TallyIsSum | consensus/finality_beacon.py:54-67 | over every run each tally entry is the sum of the votes cast for that block in that epoch |
| FinalityVotes.BestIsFirstMaximum | consensus/finality_beacon.py:48-52 | the best block is the first of maximal weight in insertion order |
| FinalityVotes.GadgetsAgree | consensus/finality_casper.py:31-84 | fed the same inputs, Beacon and Casper justify the same epochs with the same blocks, and Beacon finalizes a subset of Casper, all of it justified pairs |
| FinalityVotes.BeaconFinalizesInOrder | consensus/finality_beacon.py:69-94 | Beacon finalizes an epoch if and only if it was justified before its successor |
| FinalityVotes.CasperFinalizesIff | consensus/finality_casper.py:31-84 | Casper finalizes an epoch if and only if it was justified when some vote of the next epoch met the supermajority |
| FinalityVotes.GadgetsFinalizePairs | consensus/finality_casper.py:31-84 | when vote epochs never decrease both finalize exactly the justified epochs with a justified successor |
| FinalityVotes.GadgetsEqualIff | consensus/finality_casper.py:31-84 | the two end in the same state if and only if every such late vote found its predecessor justified first |
| FinalityVotes.OutOfOrderVotesSeparate | consensus/finality_casper.py:31-84 | four inputs on which Casper finalizes epoch 0 and Beacon does not |
| FinalityVotes.StepIsMonotone | consensus/finality_beacon.py:54-94 | justification and finalization are never withdrawn and a justified block never changes |
| FinalityVotes.BeaconFinality.AddVote | consensus/finality_beacon.py:54-67 | the method computes the Beacon transition and keeps the checkpoint fields in step with the sets |
| FinalityVotes.BeaconFinality.Evaluate | consensus/finality_beacon.py:69-94 | justification and finalization of the previous epoch, only when newly justified |
| FinalityVotes.CasperFinality.AddVote | consensus/finality_casper.py:31-37 | the method computes the Casper transition |
| FinalityVotes.CasperFinality.Evaluate | consensus/finality_casper.py:67-84 | justification, and finalization of the previous epoch at every qualifying vote |
| BeaconEngine.ConsensusEngineBeacon.AddBlock | consensus/engine_beacon.py:30-47 | new node, placeholder parent and child list, as the tree function says |
| BeaconEngine.ConsensusEngineBeacon.OnAttestation | consensus/engine_beacon.py:49-58 | a vote reaches finality exactly when the latest-message table accepts it |
| BeaconEngine.AttestKeepsCovered | consensus/engine_beacon.py:49-58 | the weight counted in each epoch stays covered by stake times slots already used |
| BeaconEngine.EpochWeightIsBounded | consensus/engine_beacon.py:49-58 | with fixed stakes, after any attestations in any order, the weight over all blocks of an epoch is at most epoch_size times the total stake |
| SlashingGate.ConsensusEngineSlashing.OnAttestation | consensus/engine_slashing.py:56-82 | the slashing gate, the table, finality and the refreshed total stake, in the source's order |
| SlashingGate.ConsensusEngineSlashing.AddBlock | consensus/engine_slashing.py:37-54 | registers the block and extends the tree |
| SlashingGate.OneBlockPerSlot | consensus/engine_slashing.py:56-82 | in every run a validator has at most one accepted block per slot, and attesting to a second one gets it slashed |
| FinalityEngine.VotesAreAttested | finality_engine.py:48-69 | every recorded vote was cast in the run for the hash the checkpoint carries |
| FinalityEngine.FloorIsMaximum | consensus/adapter.py:155-162 | the floor is the highest finalized checkpoint, 0 if there is none |
| FinalityEngine.FloorRises | consensus/adapter.py:155-162 | the floor never sinks |
| FinalityEngine.Engine.AddCheckpoint | finality_engine.py:41-46 | the first block of an epoch fixes its checkpoint |
| FinalityEngine.Engine.Attest | finality_engine.py:48-69 | refuses unknown epochs and other hashes, counts a validator once, justifies at two thirds |
| FinalityEngine.Engine.FinalizeCheckpoint | finality_engine.py:71-86 | finalizes exactly a justified checkpoint with a justified predecessor, once |
| FinalityEngine.Engine.Process | finality_engine.py:88-100 | checkpoint, the proposer's attestation, then every epoch from the current one on |
| FinalityEngine.Engine.FinalizedFloorHeight | consensus/adapter.py:155-162 | the loop computes the floor |
| Slashing.NoDoubleVote | consensus/slashing.py:65-80 | two accepted votes for different blocks in one slot need a clear_epoch of that slot in between; otherwise the second is refused and the validator slashed |
| Slashing.ClearReopensSlot | consensus/slashing.py:147-151 | the exception is real: after clear_epoch any vote in the slot is accepted again |
| Slashing.SlashedIsSilent | consensus/slashing.py:42-92 | no vote or proposal of a slashed validator is accepted again |
| Slashing.NoDoubleProposal | consensus/slashing.py:82-92 | a second proposal for a height is refused and slashed |
| Slashing.EventsMatchSlashed | consensus/slashing.py:111-126 | in every reachable state there is exactly one event per slashed validator |
| Slashing.StakeIsPartitioned | consensus/slashing.py:153-161 | active plus slashed stake is the registered stake |
| Slashing.SlashingEngine.AddVote | consensus/slashing.py:42-80 | accepted, repeated or slashed, as the transition says |
| Slashing.SlashingEngine.AddProposal | consensus/slashing.py:82-103 | accepted or slashed, as the transition says |
| Slashing.SlashingEngine.RecordMissedAttestation | consensus/slashing.py:94-100 | counts and slashes past the limit |
| Slashing.SlashingEngine.Clear | consensus/slashing.py:147-151 | removes the slot from every validator's votes and nothing else |
| Slashing.SlashingEngine.GetTotalActiveStake | consensus/slashing.py:58-63 | the stake of the validators that are not slashed |
| Merkle.Completeness | crypto/native.py:173-229 | for every non-empty list and index the generated proof folds to the root, odd layers included, and has the tree's depth |
| Merkle.Soundness | crypto/native.py:215-229 | with hashes of fixed length and no collision among the strings hashed, a proof of the tree's depth that folds to the root at index i is for item i and no other |
| Merkle.MerkleRoot | crypto/native.py:173-187 | the layer loop computes the root |
| Merkle.RootFromProof | crypto/native.py:215-229 | the loop computes the fold |
| ProposerSelection.CanonicalIgnoresOrder | consensus/validator_selection.py:44-48 | the canonical list does not depend on dictionary order |
| ProposerSelection.LeastHashIsFirst | consensus/validator_selection.py:50-62 | the proposer without stake has the least hash, the first such in canonical order |
| ProposerSelection.RankingStartsWithLeastHash | consensus/validator_selection.py:50-62 | the first of the stable ranking is that validator |
| Assembler.RoundTrip | compiler/assembler.py:19-87 | for every source that assembles, assembling the disassembly gives the same code |
| Assembler.PrintedLineParses | compiler/assembler.py:28-52 | a printed instruction, however indented, parses to itself |
| Assembler.LabelsMeaning | compiler/assembler.py:33-36 | a label's value is the number of instructions before its last definition, at most the code length; other names are undefined |
| Assembler.TwoPassAssembler.CollectLabels | compiler/assembler.py:26-53 | the first loop computes code and labels, or the first error |
| Assembler.TwoPassAssembler.ResolveLabels | compiler/assembler.py:55-65 | the second loop resolves, or stops at the first undefined label |
| Assembler.TwoPassAssembler.Run | compiler/assembler.py:19-65 | both passes together compute the assembly function |
| Assembler.DisassembleCode | compiler/assembler.py:79-87 | the loop computes the listing |
| EvmValidator.NeverUnsupportedIff | evm_interpreter.py:203-490 | no run from any state on a linear reading of the code (from 0, or with a jump from any 0x5B byte) raises "unsupported opcode" if and only if every opcode on those readings is implemented |
| Chain.PutKeepsRowsIff | storage/database.py:533-551 | INSERT OR REPLACE on unique hashes: all stored rows survive a new one if and only if its hash is not stored yet |
| Chain.SealedIsFaithful | core/blockchain.py:447-478 | the stored row, executed on the accounts before it, gives the accounts whose root it carries (before the burned total is credited again) |
| Chain.AddedIs | core/blockchain.py:447-494 | a successful add_block in one piece: the faithful row, the table after replacement, and the live accounts with the second burn credit |
| Chain.CreditIsVisible | storage/database.py:627-630 | the second credit changes the account table if and only if something burned and a burn address is set |
| Chain.OneTransferDrifts | core/blockchain.py:484-494 | the smallest case: one transfer with a burned fee of 1 puts 2 on the burn address, passes max_supply by 1, and the accounts are no longer the fold |
| Chain.GenesisIsConsistent | core/blockchain.py:306-331 | start-up establishes the replay invariant |
| ChainRuns.RunKeepsTable | storage/database.py:168-179 | in every run each row sits at its own height and no hash is stored twice |
| ChainRuns.NegativeReorgEmptiesTable | core/blockchain.py:934-1020 | without a floor a rollback to a negative height succeeds, removes every block and resets the accounts to genesis |
| ChainRuns.ApplyKeepsFloorIff | core/blockchain.py:934-945 | a step that sees a floor of at least f keeps every row up to f if and only if it does not store a hash that one of them has |
| ChainRuns.FinalizedPrefixStays | core/blockchain.py:934-945 | over every run whose rollbacks see a floor of at least f and which stores no such hash again, the rows up to f never change |
| ChainRuns.RunKeepsProposalsLogged | core/blockchain.py:480-482 | in every run each stored block of a named miner is in the proposal log, and the log only grows |
| ChainRuns.ReimportSlashesProposer | core/blockchain.py:480-482 | once a named miner had a block at height k, at every later point of the run its block at k is refused, the same block included, and the miner is slashed if and only if it was already or the block passes all other checks |
| ChainDrift.NoLeadIsFold | core/blockchain.py:991-1006 | a row without lead was executed on the replay, and its result is the replay |
| ChainRollback.LeadIsGap | core/blockchain.py:991-1006 | each row is ahead of its replay at the burn address by exactly its lead |
| ChainRollback.LiveLeadIsGap | storage/database.py:627-630 | the live accounts are ahead of the replay by exactly the burned totals credited since the last replay |
| ChainGenesis.ReplayIsSoundIff | core/blockchain.py:306-313 | for every genesis block and every miner unknown to both allocations, the one-block chain can be rolled back to its tip if and only if start-up and replay allocate the same genesis; the root has to tell only the two results apart |
| ChainGenesis.MissingFounderBreaksReplay | core/blockchain.py:954-958 | a configuration without founder address whose one-block chain cannot be replayed |
| ChainAssembly.CreatedBlockExecutes | core/blockchain.py:390-416 | on any table and any live accounts, add_block accepts a block from create_block if and only if the proposer is authorized, unslashed and new at that height |
| Blockchain.Node.GetChainTip | storage/database.py:688-694 | the highest stored height, 0 for an empty table |
| Blockchain.Node.PersistBlock | storage/database.py:594-630 | writes the row with replacement and credits the burned total |
| Blockchain.Node.Precheck | core/blockchain.py:424-440 | height, parent, proposer and signature checks, for an empty table too |
| Blockchain.Node.AddBlock | core/blockchain.py:420-516 | the method computes the chain transition, restores the accounts on every failure, and keeps the table in order |
| Blockchain.Node.Replay | core/blockchain.py:984-1004 | the replay loop computes the fold, failing at a missing row or a refused transaction |
| Blockchain.Node.ReorgToAncestor | core/blockchain.py:934-1020 | floor, replay and root check compute the chain transition for every integer height, all or nothing |
| Blockchain.Node.EnsureStateAtTip | core/blockchain.py:1022-1041 | compares roots and replays, from any account table |
| NodeRuns.StepKeepsHealthy | consensus/adapter.py:330-339 | blocks, attestations, rollbacks, repairs and changes of the validator count keep table and checkpoints in order and never lower the floor; the rows it protects stay if and only if none of their hashes is stored again |
| NodeRuns.FinalizedBlocksAreForever | consensus/adapter.py:155-162 | from start-up: the rows protected by the floor at any moment are never removed or replaced later, as long as no hash of theirs is stored again |
| NodeRuns.StaysAnchoredIff | consensus/adapter.py:281-284 | a checkpoint that names its stored block goes on naming it if and only if the step neither rolls the block back nor stores its hash again |
| NodeRuns.NewCheckpointIsAnchored | consensus/adapter.py:330-339 | a new checkpoint names the block stored by the same step |
| NodeRuns.FinalizedStaysAnchored | consensus/adapter.py:155-162 | finalized while it names its stored block, a checkpoint names it for ever |
| SlashingGate.SlashedIsSilenced | consensus/engine_slashing.py:62-66 | dropping everything a slashed validator attests from the rest of a run changes nothing |
| SlashingGate.ThresholdIsFreshIff | consensus/engine_slashing.py:64-80 | the finality threshold follows the active stake after an attestation if and only if it agrees with what is recorded for the slot, or the validator is already slashed or without stake |
| SlashingGate.StaleThreshold | consensus/engine_slashing.py:64-80 | one validator voting twice: the active stake is 0 and the threshold is still computed from 3 |
| SlashingGate.RepeatsAreUnbounded | consensus/engine_slashing.py:68-77 | the epoch bound fails for repetitions: repeating one attestation n times adds the stake n times, because the table's answer is ignored |
| SlashingGate.ExcessKeptIff | consensus/engine_slashing.py:56-82 | an attestation keeps the epoch's excess over stake times recorded slots if and only if it does not repeat a recorded vote for a known block with stake behind it |
| SlashingGate.EpochBoundOncePerSlot | consensus/engine_slashing.py:56-82 | with fixed stakes, in every run in which nobody attests twice in one slot, the weight of an epoch is at most epoch_size times the total stake |
| SlashingGate.RefusedKeepsWeights | consensus/engine_slashing.py:62-66 | a refused attestation, the slashing one included, leaves every block weight as it was |
| SlashingGate.SlashedStillWeighsIff | consensus/engine_slashing.py:62-71 | at every later point a slashed validator still weighs on the fork choice if and only if it had a vote in the table when slashed and has stake there |
| SlashingGate.SlashedMajorityDecides | consensus/engine_slashing.py:84-86 | an input: all active stake is behind one block and the head is the other, chosen by the slashed vote |
| Merkle.GenerateProof | crypto/native.py:190-212 | the sibling loop for every integer index: empty past the end, the proof in range, and for negative indices what Python's indexing gives, an index error included |
| Merkle.MinusOneIsLast | crypto/native.py:190-229 | index -1 always gives a proof of the last item that folds to the root |
| Merkle.NegativeIndexOnFullTree | crypto/native.py:190-229 | on 2^d items every negative index gives the proof of the item it names |
| ProposerSelection.CommitteeIsBest | consensus/validator_selection.py:100-114 | for every integer size: how many members, nobody twice, everybody registered, and no one left out has a smaller hash than a member |
| Ledger.TransferFlows | core/blockchain.py:593-726 | account by account, for every value and gas and under every aliasing of sender, receiver, proposer and burn address: the balance changes by the sum of the flows of its roles plus what the clamps at zero swallow there; only the sender's nonce moves |
| Ledger.TransferChangesTotal | core/blockchain.py:593-726 | exact effect of an accepted transaction on the supply for every value, gas and rate, with or without a burn address |
| Ledger.ConservesIff | core/blockchain.py:593-726 | with a burn address, an accepted transaction preserves the supply if and only if a negative value is covered by what the receiver holds, the burnt part is not negative, and a negative share of the fee is covered by what the payee holds |
| Ledger.OrderlyCreatesNothing | core/blockchain.py:593-726 | non-negative values and gas always meet that condition; without a burn address they lose exactly the burnt part |
| Ledger.NegativeValueCreatesSupply | core/blockchain.py:593-606 | block execution has no sign check: a transaction of value -5 that creates 5 coins |
| Ledger.NegativeGasCreatesSupply | core/blockchain.py:593-606 | nor on gas: a transaction of value 0 and gas -10 that creates 10 coins |
| Chain.BurnedIsBurnOf | core/blockchain.py:449-459 | the burned total of an executed block is the sum of the burnt parts read from the gas of its transactions |
| Chain.AddKeepsConsistentIff | core/blockchain.py:420-516 | from a chain whose live accounts are the fold of its rows, a successful add_block leaves such a chain if and only if the gas of its transactions burns nothing that a burn address takes, and its hash is not stored |
| ChainRuns.ImportErasesRow | storage/database.py:533-551 | any stored row, finalized or genesis, is deleted by an accepted imported block that carries its hash, with any timestamp and with or without a slashing engine |
| ChainRuns.ImportErasesIff | core/blockchain.py:478 | for an accepted import with a hash of its own, a row is erased if and only if it has that hash |
| ChainDrift.RunKeepsTracked | core/blockchain.py:420-1041 | every run from genesis, erased rows, rollbacks to any height and emptied tables included: each row was executed on the row below plus its second credit, or on the replay; the lead records the credits since the last replay |
| ChainDrift.SecondGenesisIsNotReplayed | core/blockchain.py:1052-1053 | the one exception: a block for height 0 on an emptied table is executed, and no replay ever sees it |
| ChainDrift.NoBurnAddressNoLead | storage/database.py:627-630 | without a burn address no row ever has a lead |
| ChainDrift.RunStaysWhole | core/blockchain.py:420-1041 | runs without repeated hashes and without rollbacks below genesis lose no row |
| ChainRollback.ExecKeepsGap | core/blockchain.py:586-726 | two executions of one block end as far apart at the burn address as they began, unless something negative is moved there or it mines |
| ChainRollback.BurnMinerCatchesUp | core/blockchain.py:568-579 | why it must not mine: a block mined for the burn address just below the cap makes up for a lead exactly |
| ChainRollback.NegativeValueSwallowsLead | core/blockchain.py:713-718 | why nothing negative may be moved there: a value of -d sent to the burn address swallows a lead of d exactly |
| ChainRollback.ReorgOutcome | core/blockchain.py:934-1020 | a rollback to height 1 or more succeeds, with blocks and accounts of that height, whenever it respects the floor, no row up to it was erased, and no burning block below it was added since the last replay; it fails below the floor, across an erased row, and for a lead that shows; failing changes nothing |
| ChainRollback.ReorgIff | core/blockchain.py:934-1020 | where a lead shows (orderly chain, root that tells), success if and only if floor, rows and lead allow it |
| ChainRollback.ReorgToGenesis | core/blockchain.py:934-1020 | a rollback to genesis succeeds if and only if nothing is finalized and the genesis row, if stored, has an empty root or that of the replay allocation |
| ChainRollback.EnsureOutcome | core/blockchain.py:1022-1041 | on any account table: satisfied if the root matches, otherwise repaired or refused as a rollback to the tip would be; blocks never change |
| ChainRollback.ConsistentIff | core/blockchain.py:420-1041 | live accounts and roots are those of the replay for a complete table without lead, and only then where a lead shows |
| ChainRollback.NoBurnAddressIsConsistent | core/blockchain.py:420-1041 | without a burn address, every run from genesis that loses no row keeps live accounts and roots at the replay |
| ChainRollback.ReorgOverRuns | core/blockchain.py:934-1020 | the rollback outcome for every state that a run from genesis reaches |
| ChainRollback.BurningBlockBlocksReorg | core/blockchain.py:1006-1013 | an input: one burning transfer, an empty block on top, and the chain cannot be rolled back to its own tip |
| ChainReimport.ReimportRestores | core/blockchain.py:420-516 | if no replay took a credit back above height h, rolling back to h and importing the dropped blocks restores exactly blocks and accounts |
| ChainReimport.ReimportRestoresIff | core/blockchain.py:420-516 | and only then, on an orderly chain whose roots tell the executions apart |
| ChainSupply.BlockMintsReward | core/blockchain.py:568-579 | executing any block changes the supply by what its transactions create and by its reward, keeps balances non-negative, and mints nothing past the cap |
| ChainSupply.SupplyOfReplay | core/blockchain.py:991-1006 | replayed states hold genesis, rewards and what clamps created, and pass max_supply by at most what clamps gained |
| ChainSupply.AddRaisesSupply | core/blockchain.py:447-494 | a stored block changes the live supply by what its transactions create, its reward and its burned total, and stays within the cap if and only if all that still fits |
| ChainSupply.SupplyOverRuns | core/blockchain.py:420-1041 | over every run from genesis, whatever is offered: no balance is negative, and the live supply is genesis plus rewards plus what clamps created plus the burned totals credited since the last replay; it passes max_supply by at most what clamps and credits gained |
| ChainSupply.OrderlyRunsCreateNothing | core/blockchain.py:420-1041 | if only non-negative values and gas are offered, clamps create nothing over the whole run |
| FinalityEngine.QuorumsIntersect | finality_engine.py:41-86 | if two engines that count n validators justify one epoch and m names attested in the two runs, at least (4n - 3m)/3 of them attested in both, for both checkpoint hashes; a third of n if nobody else attests |
| FinalityEngine.OutsidersSplit | finality_engine.py:48-69 | any name counts: two strangers justify two different blocks for one epoch, and nobody attested in both |
| NodeRuns.CutsBelowIff | consensus/adapter.py:155-162 | which rollbacks cut a block off, in terms of floor, rows and lead |
| NodeRuns.CheckpointLosesBlock | core/blockchain.py:934-1020 | an input: a checkpoint whose block a rollback to genesis removes |
| EvmInterpreter.EVM.ExecuteBytecode | evm_interpreter.py:192-502 | the imperative loop over the object's fields computes exactly the run of the transition function, result or exception; the returned record holds the fields, with the success flag as the source computes it |
| EvmInterpreter.EVM.DoJump | evm_interpreter.py:377-389 | the jump branches leave the state, or raise the exception, of the transition function, whose meaning is in StepJump and StepJumpi |
| EvmPrices.GasCostIsLookup | evm_interpreter.py:45-61 | the price by opcode class is the price looked up under the opcode's name, 3 for a name without an entry |
| EvmSteps.StepRunsBranch | evm_interpreter.py:203-208 | a turn pays the listed price, traces pc, opcode and stack depth, and runs the branch |
| EvmSteps.StepOutOfGas | evm_interpreter.py:78-82 | without the price a turn raises and nothing else |
| EvmSteps.StepArithmetic | evm_interpreter.py:218-230 | ADD, MUL, SUB, DIV, MOD on the two top entries, modulo 2^256, the first operand on top |
| EvmSteps.StepBitwise | evm_interpreter.py:231-239 | AND, OR, XOR on each of the 256 bits |
| EvmSteps.StepCompare | evm_interpreter.py:240-250 | EQ, LT, GT of the top with the entry below it |
| EvmSteps.StepUnary | evm_interpreter.py:243-252 | ISZERO and NOT |
| EvmSteps.StepShift | evm_interpreter.py:253-264 | BYTE, SHL, SHR with index or shift on top |
| EvmSteps.StepSha3 | evm_interpreter.py:265-269 | SHA3 hashes the size bytes at the offset on top and grows memory |
| EvmSteps.StepReader | evm_interpreter.py:270-395 | each opcode without operands pushes the value it is named after |
| EvmSteps.StepQuery | evm_interpreter.py:272-370 | BALANCE, CALLDATALOAD, EXTCODESIZE, BLOCKHASH, SLOAD answer about the top entry |
| EvmSteps.StepMload | evm_interpreter.py:358-360 | MLOAD pushes the 32 bytes at the offset and grows memory |
| EvmSteps.StepMstore | evm_interpreter.py:361-367 | MSTORE and MSTORE8 write 32 bytes or one at the offset on top, nothing else |
| EvmSteps.StepSstore | evm_interpreter.py:371-376 | SSTORE sets the slot on top, a zero removes an existing entry, no other slot changes |
| EvmSteps.StepCopy | evm_interpreter.py:293-308 | the copy opcodes replace the range at the destination by what there is of the source range |
| EvmSteps.StepExtCodeCopy | evm_interpreter.py:316-326 | EXTCODECOPY: order of the four operands, and the whole answer written at the memory offset |
| EvmSteps.StepLog | evm_interpreter.py:327-341 | LOGn: price, order of topics, bytes of the range, growth of memory |
| EvmSteps.StepStack | evm_interpreter.py:214-217 | PUSHn with its immediate, POP, JUMPDEST |
| EvmSteps.StepDupSwap | evm_interpreter.py:396-408 | DUPn and SWAPn |
| EvmSteps.StepJump | evm_interpreter.py:377-382 | JUMP goes to the destination on top if and only if it holds a 0x5B byte, and raises otherwise |
| EvmSteps.StepJumpi | evm_interpreter.py:383-389 | JUMPI with condition 0 falls through whatever the destination; otherwise it jumps if and only if the destination holds a 0x5B byte |
| EvmSteps.CallGasIs | evm_interpreter.py:131-161 | the gas handed over: the request up to all but a 64th, all of that for 0, 2300 more with a value, never more than remains |
| EvmSteps.StepCall | evm_interpreter.py:420-465 | the four call opcodes: which operand is which, the request put to the callback, the state handed to settlement |
| EvmSteps.StepCreate | evm_interpreter.py:409-419 | CREATE and CREATE2: which operand is which, and the request put to the callback |
| EvmSteps.CreateEffects | evm_interpreter.py:184-190 | a creation is paid if the limit allows, and pushes the address or 0 |
| EvmSteps.StepReturn | evm_interpreter.py:466-478 | RETURN and REVERT end the run with the bytes of the range |
| EvmSteps.StepEnds | evm_interpreter.py:210-488 | STOP, SELFDESTRUCT, INVALID and unknown opcodes |
| EvmSteps.StepUnderflow | evm_interpreter.py:87-90 | with fewer entries than the opcode takes, the turn raises "stack underflow" |
| EvmWords.BitsDetermine | evm_interpreter.py:231-239 | the bits of a number determine it |
| EvmLaws.CallEffects | evm_interpreter.py:147-176 | a covered call costs what the callee used and at most what it was given, writes only the return window, and takes storage over from delegate and code calls only |
| Ledger.TransactionOutcome | core/blockchain.py:593-615 | which check refuses a transaction, in order, and the fee and burnt part written into an executed one |
| Ledger.ProposerEarnsFee | core/blockchain.py:593-718 | account by account: the block's proposer earns the fee without the burnt part, whatever address the node mines for; the two fallbacks apply only without a proposer; an account with none of the four roles is unchanged |
| Ledger.RewardPaid | core/blockchain.py:568-579 | the miner is paid the block reward as far as the cap leaves room, and nobody else is |
| Chain.AddBlockOkIff | core/blockchain.py:420-482 | which blocks add_block takes: height, parent, proposer, proposal log, signatures, execution, and the peer's root where roots are enforced |
| ChainGenesis.Allocations | core/blockchain.py:306-331 | start-up allocates for the founder or, without one, for the miner; a rollback always for the founder |
| ChainAssembly.AdmitTransactions | core/blockchain.py:390-404 | the admission loop with its nonce cursor yields, in order, exactly the transactions that are acceptable and the first acceptable one of their sender |
| ChainAssembly.AdmittedIff | core/blockchain.py:562-782 | the positions picked are strictly increasing and contain position i if and only if transaction i is acceptable by its fields and the account table and none before it of the same sender is |
| ChainAssembly.CreatedHeader | core/blockchain.py:392-416 | height, parent, proposer and timestamp of a created block |
| ChainRollback.NothingToRollBack | core/blockchain.py:951-952 | a rollback above the tip, and a repair without blocks above genesis, succeed and change nothing |
| Names.LtIsPrecedes | consensus/ghost.py:73 | the string order: a proper prefix first, otherwise the first different character decides |
| Ghost.WeightOfLeaf | consensus/ghost.py:18 | a block without children weighs its own entry, 0 without one |
| GhostHead.BestChild | consensus/ghost.py:58-74 | the inner loop picks the child that is never lighter, on equal weight never lower in number, and on equal number first in string order |
| GhostHead.FirstRootMeaning | consensus/ghost.py:38-46 | the walk starts at the first parentless block in dictionary order, and there is no head without one |
| BlockTree.AddBlockRows | consensus/engine_beacon.py:30-47 | what add_block writes: parent and number of a new block, its place at the end of the parent's children, a placeholder parent, and nothing else |
| FinalityVotes.ThresholdMeaning | consensus/finality_beacon.py:45-46 | a weight reaches the threshold if and only if 3w + 2 >= 2T, for a negative total 3w >= 2T |
| FinalityVotes.JustifiedIff | consensus/finality_beacon.py:54-94 | an epoch is justified if and only if at some vote of that epoch a voted block has weight w with 3w + 2 >= 2T for the stake T announced last |
| BeaconEngine.AttestationCounts | consensus/engine_beacon.py:49-58 | an attestation of a registered validator with a newer slot becomes its latest vote and adds its stake to the block in the epoch of the slot, and nowhere else; any other changes nothing |
| SlashingGate.AttestationEffects | consensus/engine_slashing.py:56-82 | when an attestation is accepted, and what it then changes in the table, in finality and in the total stake |
| SlashingGate.AttestationWeight | consensus/engine_slashing.py:74-77 | with stake and a known block, the stake is added to that block in the epoch of the slot, and nowhere else |
| Slashing.Events | consensus/slashing.py:111-126 | the event each offence leaves: validator, reason, epoch and penalty |
| Slashing.OfflineAfterLimit | consensus/slashing.py:94-100 | n missed attestations slash a validator if and only if n is over 50, with one event |
| Slashing.SlashedIff | consensus/slashing.py:42-126 | over every run, exactly the offenders are slashed: a vote against a standing vote of one's own, a repeated proposal, a fifty-first miss or a reported invalid proposal, read off the calls alone; an honest validator never is |
| Slashing.AcceptedIff | consensus/slashing.py:42-92 | a vote or proposal is accepted exactly if its sender has committed no offence up to and including it |
| Slashing.RecordsAreCalls | consensus/slashing.py:65-100 | of a validator not slashed, the engine's votes, proposals and misses are exactly its standing votes, its proposals and its missed calls |
| Lmd.VoteWeighsIff | consensus/lmd.py:38-47 | taking a vote out of the table changes some weight if and only if the validator has a vote and is registered with stake |
| FinalityEngine.ReachableIsSound | finality_engine.py:41-86 | every reachable state: distinct votes equal to the counter; an epoch is justified if and only if three times its votes is at least twice the validators (at least one); a finalized one has a justified predecessor |
| FinalityEngine.CheckpointOfBlock | finality_engine.py:37-46 | the first block of 32 fixes the checkpoint of its epoch |
| FinalityEngine.AttestationIsRecorded | finality_engine.py:48-59 | an attestation is recorded if and only if it names the checkpoint's hash |
| FinalityEngine.BlockFinalizes | finality_engine.py:88-100 | a block finalizes exactly the epochs, from the current one to its own, that are justified together with the one before |
| FinalityEngine.FinalizedIff | finality_engine.py:88-100 | over every run: an epoch is finalized exactly if some block, not below it and with no later epoch current before it, left it and its predecessor justified; a quorum completed after the next epoch began comes too late |
| Merkle.SmallTrees | crypto/native.py:173-212 | roots and proofs of the smallest trees, written out |
| ProposerSelection.CanonicalIsSorted | consensus/validator_selection.py:44-48 | the canonical list holds every validator once, in string order, with negative stakes as zero |
| ProposerSelection.StakeInFront | consensus/validator_selection.py:72-84 | the stake in front of a validator is that of the names before it, and the line is as long as all stake |
| ProposerSelection.SelectProposerWeighted | consensus/validator_selection.py:64-86 | no validators: none; no stake: the least hash; otherwise the one validator for which the target is at least the stake of the names before it and less than that plus its own; the fallback return is never reached |
| ProposerSelection.ProportionalToStake | consensus/validator_selection.py:64-86 | over the targets 0..total-1 each validator is chosen for exactly as many targets as it has stake, none if that is negative |
| Assembler.AssemblesIff | compiler/assembler.py:26-65 | a source assembles if and only if no line has a malformed number and every JUMP, JUMPI or CALL with a name has a label of that name somewhere |
| Assembler.JumpTargets | compiler/assembler.py:55-65 | every name after JUMP, JUMPI or CALL is replaced by such a label value; all other instructions are untouched |
| Assembler.CommentsAreIgnored | compiler/assembler.py:67-71 | what follows a semicolon changes nothing, and lines without text are skipped |
| Assembler.LabelLine | compiler/assembler.py:33-36 | a line ending with a colon defines the label in front of it |
| Assembler.InstructionLine | compiler/assembler.py:38-52 | any other line: the first word in upper case, the rest as a decimal or hexadecimal number or a name |
| Assembler.HexRoundTrip | compiler/assembler.py:46-47 | hexadecimal numbers in either case are read back |
| Assembler.HexUnderscore | compiler/assembler.py:46-47 | a single underscore may stand before a hexadecimal digit |
| Assembler.ListingOfTwo | compiler/assembler.py:79-87 | a listing, written out |
| Text.CharactersAre | compiler/assembler.py:39-44 | which characters separate words, are digits, and change in upper case |

## Left out

EVM
- Nested calls and creates, balance, code and block-hash lookups are arbitrary answers that may change from step to step; they return and do not raise. What the log and self-destruct callbacks do elsewhere is not modelled.
- Account names are integers already; opcode names in the trace are opcode numbers; host memory exhaustion by huge offsets or shifts is not modelled.
- EvmInterpreter.EVM.ExecuteBytecode: does not say what the object's fields hold after an exception, because the caller gets no result then.
- Hex parsing, `parse_bytecode` and opcode naming (evm_interpreter.py:505-531, execution/evm_bytecode_validator.py:19-36): they would only add easy members.

Chain
- EVM transactions, pool locks, peer-import normalization, events, receipts and audit tables of core/blockchain.py; the plain-transfer path is modelled.
- Floating-point rounding of amounts: amounts are reals.
- The serialized form of blocks is taken as lossless and the white-space trimming of peer roots is not modelled.
- Fields of a rejected block or transaction object that the code changed before the rejection.
- ChainDrift.RunKeepsTracked: for runs without a second block for height 0, which only an emptied table takes (see ChainDrift.SecondGenesisIsNotReplayed).
- ChainRollback.ReorgOutcome: that a rollback to a row with a lead fails is stated for chains that move nothing negative to the burn address and do not let it mine (see ChainRollback.NegativeValueSwallowsLead and BurnMinerCatchesUp), and for roots that tell the two account tables at hand apart; otherwise it may succeed. The same holds for the second half of ChainReimport.ReimportRestoresIff, which is about tables that lost no row.
- ChainSupply.OrderlyRunsCreateNothing: for non-negative values and gas, because others create supply (see Ledger.ConservesIff).

Fork choice, finality, slashing
- Trees that arrive out of order or with several roots: BlockTree.AddKeepsRootedIff shows exactly which deliveries leave the rooted trees that the fork-choice theorems are about.
- Ghost.GetCumulativeWeight: asks for an acyclic tree, because the loop does not terminate on a cycle.
- The Casper engine wrapper and the other engine variants, statistics getters, tree printing, slash callbacks and time stamps; the manual `update` of the Casper gadget.
- FinalityEngine.QuorumsIntersect: a third of the validators only if nobody outside the set attests, because the engine counts any name, any block's miner included (see FinalityEngine.OutsidersSplit), and for a fixed number of validators, because quorums over different sets need not intersect; NodeRuns lets the count change.

Merkle, proposers, assembler
- Merkle.Soundness: collision-freeness is asked of the strings actually hashed, because no hash of fixed length is injective on all strings.
- The native extension and the hash, seed derivation and epoch shuffling of consensus/validator_selection.py.
- Assembler.RoundTrip: white space, digits and upper case are those of ASCII; the interpreter's limit on the length of decimal numbers is not modelled.

Not modelled at all: HTTP and user interfaces, networking, bridges, oracles, mempool, sharding, lightning, multisig, wills and NFTs; they would add easier members or depend on outside systems.
